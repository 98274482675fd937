/** That every call does its work: popped tasks run, posts link or are refused, terminators broadcast. */
module ThreadPoolCalls {
  import opened Options
  import opened Sequences
  import opened ThreadPool
  import opened ThreadPoolSafety
  import opened ThreadPoolTasks
  import opened ThreadPoolRuns

  // ---------- tasks run ----------

  ghost predicate RunsNow(s: State, x: Task) { exists t :: t in s.pcs && s.pcs[t] == Running(x) }

  /** A record begun by a worker is one whose function was called or is being called, by one thread. */
  ghost predicate RunRules(s: State) {
    var kept :=
      && NoDuplicates(s.calls.ran)
      && (forall x :: x in s.h.begun <==> x in s.calls.ran || RunsNow(s, x))
      && (forall t :: t in s.pcs && s.pcs[t].Running? ==> s.pcs[t].task !in s.calls.ran)
      && (forall t, u :: t in s.pcs && u in s.pcs && s.pcs[t].Running? && s.pcs[u] == s.pcs[t] ==> t == u);
    kept
  }

  /** What was freed was begun or drained, and not both. */
  ghost predicate FreeRules(h: History, k: Calls) {
    var kept :=
      && NoDuplicates(k.drained)
      && (forall x :: x in h.freed <==> x in h.begun || x in k.drained)
      && (forall x :: x in h.begun ==> x !in k.drained);
    kept
  }

  /** Only the thread that steps comes to or leaves the place where a function is called. */
  lemma RunsElsewhere(s: State, t: Tid, c: Choice)
    requires Enabled(s, t, c)
    ensures var s' := After(s, t, c);
      && s'.pcs.Keys == s.pcs.Keys && (s'.pcs[t].Running? <==> s.pcs[t].Free?)
      && (s.pcs[t].Free? ==> s'.pcs[t] == Running(s.pcs[t].task))
      && forall u :: u in s.pcs && u != t ==>
           (s.pcs[u].Running? || s'.pcs[u].Running? ==> s'.pcs[u] == s.pcs[u])
  {
  }

  lemma StepWork(m: Memory, h: History, k: Calls, pc: Pc, t: Tid, c: Choice)
    ensures var h', k' := Record(h, m, pc, t, c), Account(k, m, pc, t, c);
      && h'.begun == (if pc.Free? then h.begun + [pc.task] else h.begun)
      && h'.freed == (if pc.Free? || pc.DrainFree? then h.freed + [pc.task] else h.freed)
      && k'.ran == (if pc.Running? then k.ran + [pc.task] else k.ran)
      && k'.drained == (if pc.DrainFree? then k.drained + [pc.task] else k.drained)
  {
  }

  /** A record about to be freed has not been freed before. */
  lemma NotYetFreed(s: State, t: Tid)
    requires TaskRules(s) && t in s.pcs && (s.pcs[t].Free? || s.pcs[t].DrainFree?)
    ensures s.pcs[t].task !in s.h.freed
  {
    assert Hand(s.pcs[t]) == Some(s.pcs[t].task);
    assert Owns(s.h.owner, t, Hand(s.pcs[t]));
  }

  lemma BegunKept(s: State, t: Tid, c: Choice)
    requires RunRules(s) && TaskRules(s) && Enabled(s, t, c)
    ensures var s' := After(s, t, c);
      forall x :: x in s'.h.begun <==> x in s'.calls.ran || RunsNow(s', x)
  {
    var s' := After(s, t, c);
    StepWork(s.m, s.h, s.calls, s.pcs[t], t, c);
    RunsElsewhere(s, t, c);
    forall x
      ensures x in s'.h.begun <==> x in s'.calls.ran || RunsNow(s', x)
    {
      if RunsNow(s, x) {
        var u :| u in s.pcs && s.pcs[u] == Running(x);
        assert u != t ==> s'.pcs[u] == Running(x);
      }
      if RunsNow(s', x) {
        var u :| u in s'.pcs && s'.pcs[u] == Running(x);
        assert u != t ==> s.pcs[u] == Running(x);
      }
      if s.pcs[t] == Free(x) {
        assert s'.pcs[t] == Running(x);
      }
    }
  }

  lemma RunsKept(s: State, t: Tid, c: Choice)
    requires RunRules(s) && FreeRules(s.h, s.calls) && TaskRules(s) && Enabled(s, t, c)
    ensures RunRules(After(s, t, c))
  {
    BegunKept(s, t, c);
    StepWork(s.m, s.h, s.calls, s.pcs[t], t, c);
    RunsElsewhere(s, t, c);
    if s.pcs[t].Free? { NotYetFreed(s, t); }
    RunsOnce(s, After(s, t, c), t);
  }

  /** The function of a record freed only now is called by nobody else and never was; one called is not called again. */
  lemma RunsOnce(s: State, s': State, t: Tid)
    requires RunRules(s) && FreeRules(s.h, s.calls) && t in s.pcs && s'.pcs.Keys == s.pcs.Keys
    requires (s'.pcs[t].Running? <==> s.pcs[t].Free?) && (s.pcs[t].Free? ==> s'.pcs[t] == Running(s.pcs[t].task))
    requires forall u :: u in s.pcs && u != t ==> (s.pcs[u].Running? || s'.pcs[u].Running? ==> s'.pcs[u] == s.pcs[u])
    requires s.pcs[t].Free? ==> s.pcs[t].task !in s.h.freed
    requires s'.calls.ran == if s.pcs[t].Running? then s.calls.ran + [s.pcs[t].task] else s.calls.ran
    ensures NoDuplicates(s'.calls.ran)
    ensures forall u :: u in s'.pcs && s'.pcs[u].Running? ==> s'.pcs[u].task !in s'.calls.ran
    ensures forall u, v :: u in s'.pcs && v in s'.pcs && s'.pcs[u].Running? && s'.pcs[v] == s'.pcs[u] ==> u == v
  {
    assert forall u :: u in s.pcs && s.pcs[u].Running? ==> RunsNow(s, s.pcs[u].task);
  }

  lemma FreesKept(s: State, t: Tid, c: Choice)
    requires FreeRules(s.h, s.calls) && TaskRules(s) && Enabled(s, t, c)
    ensures FreeRules(After(s, t, c).h, After(s, t, c).calls)
  {
    StepWork(s.m, s.h, s.calls, s.pcs[t], t, c);
    if s.pcs[t].Free? || s.pcs[t].DrainFree? { NotYetFreed(s, t); }
  }

  // ---------- calls return ----------

  /** A worker exits only after quit was stored. */
  ghost predicate ExitRule(s: State, t: Tid) { t in s.pcs && s.pcs[t] == Exited ==> s.m.quit }

  /**
   Every call of __get_task got a task or NULL, every post linked a record or was refused, every call of terminate
   broadcast, unless it is under way; and no record was linked before quit was stored that counts as late.
   */
  ghost predicate TallyRule(y: Tally, pc: Pc, quit: bool) {
    var kept := GetRule(y, pc) && PostRule(y, pc) && StopRule(y, pc) && LatePostRule(y, pc, quit);
    kept
  }

  ghost predicate GetRule(y: Tally, pc: Pc) { y.gets == y.got + y.nulls + if Getting(pc) then 1 else 0 }

  ghost predicate PostRule(y: Tally, pc: Pc) { y.posts == y.links + y.refused + if Posting(pc) then 1 else 0 }

  ghost predicate StopRule(y: Tally, pc: Pc) { y.stops == y.wakes + if Terminating(pc) then 1 else 0 }

  ghost predicate LatePostRule(y: Tally, pc: Pc, quit: bool) {
    if quit then y.lateLinks + (if MayLink(pc) then 1 else 0) <= 1 else y.lateLinks == 0
  }

  ghost predicate CallRules(s: State) {
    forall t :: t in s.pcs ==> TallyRule(TallyOf(s.calls, t), s.pcs[t], s.m.quit) && ExitRule(s, t)
  }

  lemma StepTally(s: State, t: Tid, c: Choice, y: Tally)
    requires Enabled(s, t, c) && TallyRule(y, s.pcs[t], s.m.quit)
    ensures TallyRule(Tallied(y, s.m, s.pcs[t], c), Next(s, t, c), Write(s.m, s.pcs[t], t, c).quit)
  {
    StepGet(s, t, c, y);
    StepPost(s, t, c, y);
    StepStop(s, t, c, y);
    StepLatePost(s, t, c, y);
  }

  lemma StepGet(s: State, t: Tid, c: Choice, y: Tally)
    requires Enabled(s, t, c) && GetRule(y, s.pcs[t])
    ensures GetRule(Tallied(y, s.m, s.pcs[t], c), Next(s, t, c))
  {
  }

  lemma StepPost(s: State, t: Tid, c: Choice, y: Tally)
    requires Enabled(s, t, c) && PostRule(y, s.pcs[t])
    ensures PostRule(Tallied(y, s.m, s.pcs[t], c), Next(s, t, c))
  {
  }

  lemma StepStop(s: State, t: Tid, c: Choice, y: Tally)
    requires Enabled(s, t, c) && StopRule(y, s.pcs[t])
    ensures StopRule(Tallied(y, s.m, s.pcs[t], c), Next(s, t, c))
  {
  }

  lemma StepLatePost(s: State, t: Tid, c: Choice, y: Tally)
    requires Enabled(s, t, c) && LatePostRule(y, s.pcs[t], s.m.quit)
    ensures LatePostRule(Tallied(y, s.m, s.pcs[t], c), Next(s, t, c), Write(s.m, s.pcs[t], t, c).quit)
  {
    StepFlags(s, t, c);
    StepMayLink(s, t, c, y);
  }

  lemma StepMayLink(s: State, t: Tid, c: Choice, y: Tally)
    requires Enabled(s, t, c)
    ensures MayLink(Next(s, t, c)) ==> (MayLink(s.pcs[t]) && !s.pcs[t].AddLink?) || (s.pcs[t].PostCheck? && !s.m.quit)
    ensures Tallied(y, s.m, s.pcs[t], c).lateLinks == y.lateLinks + if s.pcs[t].AddLink? && s.m.quit then 1 else 0
  {
  }

  lemma StepExit(s: State, t: Tid, c: Choice)
    requires Enabled(s, t, c) && BlockRules(s) && Next(s, t, c) == Exited
    ensures s.m.quit
  {
    assert BlockRule(s.m, s.h.woken, s.pcs[t]);
  }

  lemma OwnPlace(s: State, t: Tid, c: Choice)
    requires Enabled(s, t, c)
    ensures t in After(s, t, c).pcs && After(s, t, c).pcs[t] == Next(s, t, c)
  {
  }

  /** The tallies of the threads that do not step stay right, when one of them is woken too, or `quit` is stored. */
  lemma OtherTally(y: Tally, pc: Pc, pc': Pc, quit: bool, quit': bool)
    requires TallyRule(y, pc, quit) && (pc' == pc || (pc == Asleep && pc' == Woken)) && (quit ==> quit')
    ensures TallyRule(y, pc', quit')
  {
  }

  lemma CallsKept(s: State, t: Tid, c: Choice)
    requires CallRules(s) && BlockRules(s) && Enabled(s, t, c)
    ensures CallRules(After(s, t, c))
  {
    var s' := After(s, t, c);
    StepFlags(s, t, c);
    OwnPlace(s, t, c);
    forall u | u in s'.pcs
      ensures TallyRule(TallyOf(s'.calls, u), s'.pcs[u], s'.m.quit) && ExitRule(s', u)
    {
      if u == t {
        StepTally(s, t, c, TallyOf(s.calls, t));
        if s'.pcs[t] == Exited { StepExit(s, t, c); }
      } else {
        OthersStay(s, t, c, u);
        OtherTally(TallyOf(s.calls, u), s.pcs[u], s'.pcs[u], s.m.quit, s'.m.quit);
      }
    }
  }

  // ---------- over whole runs ----------

  ghost predicate Worked(s: State) {
    var kept := RunRules(s) && FreeRules(s.h, s.calls) && CallRules(s);
    kept
  }

  lemma InitWorked(s: State)
    requires Init(s)
    ensures Worked(s)
  {
    InitCalls(s);
  }

  lemma InitCalls(s: State)
    requires Init(s)
    ensures CallRules(s)
  {
    forall t | t in s.pcs
      ensures TallyRule(TallyOf(s.calls, t), s.pcs[t], s.m.quit) && ExitRule(s, t)
    {
      InitPlace(s, t);
      InitTally(s.pcs[t]);
    }
  }

  lemma InitPlace(s: State, t: Tid)
    requires Init(s) && t in s.pcs
    ensures s.pcs[t] == Check || s.pcs[t] == Idle || s.pcs[t] == Join(0)
  {
  }

  lemma InitTally(pc: Pc)
    requires pc == Check || pc == Idle || pc == Join(0)
    ensures TallyRule(Tally(0, 0, 0, 0, 0, 0, 0, 0, 0), pc, false)
  {
  }

  lemma LeadsWorked(s: State, e: Event, s': State)
    requires Worked(s) && Invariant(s) && Leads(s, e, s')
    ensures Worked(s')
  {
    RunsKept(s, e.thread, e.choice);
    FreesKept(s, e.thread, e.choice);
    CallsKept(s, e.thread, e.choice);
  }

  lemma {:induction false} RunWorked(ss: seq<State>, es: seq<Event>, i: nat)
    requires Run(ss, es) && i < |ss|
    ensures Worked(ss[i])
  {
    if i == 0 {
      InitWorked(ss[0]);
    } else {
      var k: nat := i - 1;
      RunWorked(ss, es, k);
      RunInvariant(ss, es, k);
      PathStep(ss, es, k);
      LeadsWorked(ss[k], es[k], ss[k + 1]);
    }
  }

  /**
   Every task that a worker has begun, and so freed the record of, has run or is being run by one thread, and
   none runs twice; every record freed was begun by a worker or drained, and not both.
   */
  lemma TasksRun(ss: seq<State>, es: seq<Event>, i: nat)
    requires Run(ss, es) && i < |ss|
    ensures NoDuplicates(ss[i].calls.ran) && forall x :: x in ss[i].calls.ran ==> x in ss[i].h.begun
    ensures forall x :: x in ss[i].h.begun && x !in ss[i].calls.ran ==> RunsNow(ss[i], x)
    ensures forall x :: x in ss[i].h.freed <==> x in ss[i].h.begun || x in ss[i].calls.drained
    ensures forall x :: x in ss[i].h.begun ==> x !in ss[i].calls.drained
  {
    RunWorked(ss, es, i);
  }

  /** When the pool is destroyed every task that was begun has run. */
  lemma AllRan(ss: seq<State>, es: seq<Event>, i: nat)
    requires Run(ss, es) && i < |ss| && ss[i].waiter in ss[i].pcs && ss[i].pcs[ss[i].waiter] == Destroyed
    ensures forall x :: x in ss[i].calls.ran <==> x in ss[i].h.begun
    ensures forall x :: x in ss[i].h.linked <==> x in ss[i].calls.ran || x in ss[i].calls.drained
  {
    TasksRun(ss, es, i);
    AllFreed(ss, es, i);
    assert forall x :: !RunsNow(ss[i], x);
  }

  /**
   Every call is accounted for. A worker's calls of __get_task got a task or NULL, a caller's posts each linked a
   record or were refused, for `quit` or for want of memory, and its calls of terminate each broadcast, but for
   the one under way; and no worker exits before `quit` was stored.
   */
  lemma CallsReturn(ss: seq<State>, es: seq<Event>, i: nat, t: Tid)
    requires Run(ss, es) && i < |ss| && t in ss[i].pcs
    ensures var y, pc := TallyOf(ss[i].calls, t), ss[i].pcs[t];
      && y.gets == y.got + y.nulls + (if Getting(pc) then 1 else 0)
      && y.posts == y.links + y.refused + (if Posting(pc) then 1 else 0)
      && y.stops == y.wakes + (if Terminating(pc) then 1 else 0)
    ensures ss[i].pcs[t] == Exited ==> ss[i].m.quit
  {
    RunWorked(ss, es, i);
    assert TallyRule(TallyOf(ss[i].calls, t), ss[i].pcs[t], ss[i].m.quit) && ExitRule(ss[i], t);
  }

  // ---------- how long calls take ----------

  /** How far a caller is from the end of its call of post or terminate. */
  function CallRank(pc: Pc): (rank: nat)
    ensures CallerPc(pc) ==> (rank == 0 <==> pc == Idle)
  {
    if pc.Signal? || pc.Broadcast? then 1
    else if pc.AddUnlock? || pc.StopUnlock? then 2
    else if pc.AddTail? || pc.StopClear? then 3
    else if pc.AddLink? || pc.StopLock? then 4
    else if pc.AddTas? || pc.StoreQuit? then 5
    else if pc.AddSpin? || pc.AddInit? then 6
    else if pc.Malloc? then 7
    else if pc.PostCheck? then 8
    else 0
  }

  /** The calls of post and terminate that a thread has begun. */
  function CallsBegun(k: Calls, t: Tid): nat { TallyOf(k, t).posts + TallyOf(k, t).stops }

  lemma StepCallRank(s: State, t: Tid, c: Choice)
    requires Enabled(s, t, c) && CallerPc(s.pcs[t])
    ensures CallerPc(Next(s, t, c))
    ensures CallRank(Next(s, t, c)) + (if Spins(s, t) then 0 else 1) <=
      CallRank(s.pcs[t]) + (if Loses(s, t) then 1 else 0) + if s.pcs[t] == Idle then 9 else 0
  {
  }

  lemma StepCallsBegun(s: State, t: Tid, c: Choice, u: Tid)
    requires Enabled(s, t, c)
    ensures CallsBegun(After(s, t, c).calls, u) == CallsBegun(s.calls, u) + if u == t && s.pcs[t] == Idle then 1 else 0
  {
    var y := TallyOf(s.calls, t);
    assert Tallied(y, s.m, s.pcs[t], c).posts + Tallied(y, s.m, s.pcs[t], c).stops ==
           y.posts + y.stops + if s.pcs[t] == Idle then 1 else 0;
  }

  /** What is left of the steps that the calls begun so far have a right to, counted from all of them. */
  function Due(s: State, t: Tid): int
    requires t in s.pcs
  {
    CallRank(s.pcs[t]) - 9 * CallsBegun(s.calls, t)
  }

  ghost predicate Caller(s: State, t: Tid) { t in s.pcs && CallerPc(s.pcs[t]) }

  /** The rank of a caller falls with its steps, but for spins and the beginning of a call, and with no others'. */
  lemma DueFalls(s: State, e: Event, s': State, t: Tid)
    requires Leads(s, e, s') && Caller(s, t)
    ensures Caller(s', t) && CallsBegun(s'.calls, t) >= CallsBegun(s.calls, t)
    ensures Due(s', t) + Move(s, e, t) <= Due(s, t) + Loss(s, e, t)
  {
    StepCallsBegun(s, e.thread, e.choice, t);
    if e.thread == t {
      StepCallRank(s, t, e.choice);
      OwnPlace(s, t, e.choice);
    } else {
      OthersStay(s, e.thread, e.choice, t);
    }
  }

  lemma {:induction false} DuesFall(ss: seq<State>, es: seq<Event>, t: Tid, i: nat, j: nat)
    requires Path(ss, es) && i <= j <= |es| && Caller(ss[i], t)
    ensures Caller(ss[j], t) && CallsBegun(ss[j].calls, t) >= CallsBegun(ss[i].calls, t)
    ensures Moves(ss, es, t, i, j) + Due(ss[j], t) <= Due(ss[i], t) + Losses(ss, es, t, i, j)
    decreases j
  {
    if i < j {
      var k: nat := j - 1;
      DuesFall(ss, es, t, i, k);
      PathStep(ss, es, k);
      DueFalls(ss[k], es[k], ss[k + 1], t);
    }
  }

  /**
   A call of post or terminate takes at most nine steps besides those that find the spinlock taken, and one more for
   each time it tried in vain to take it.
   */
  lemma CallEnds(ss: seq<State>, es: seq<Event>, t: Tid, i: nat, j: nat)
    requires Run(ss, es) && i <= j <= |es| && Caller(ss[i], t)
    ensures Caller(ss[j], t) && CallsBegun(ss[j].calls, t) >= CallsBegun(ss[i].calls, t)
    ensures Moves(ss, es, t, i, j) + CallRank(ss[j].pcs[t]) <=
      CallRank(ss[i].pcs[t]) + Losses(ss, es, t, i, j) + 9 * (CallsBegun(ss[j].calls, t) - CallsBegun(ss[i].calls, t))
  {
    DuesFall(ss, es, t, i, j);
  }

  /** After `quit` is stored each caller links at most one more record. */
  lemma OneLatePost(ss: seq<State>, es: seq<Event>, i: nat, t: Tid)
    requires Run(ss, es) && i < |ss| && t in ss[i].pcs
    ensures TallyOf(ss[i].calls, t).lateLinks <= 1
  {
    RunWorked(ss, es, i);
    assert TallyRule(TallyOf(ss[i].calls, t), ss[i].pcs[t], ss[i].m.quit);
  }
}

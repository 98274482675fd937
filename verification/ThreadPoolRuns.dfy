/** What the thread pool guarantees over whole runs. */
module ThreadPoolRuns {
  import opened Options
  import opened Sequences
  import opened ThreadPool
  import opened ThreadPoolSafety
  import opened ThreadPoolTasks

  // ---------- tasks begun after quit ----------

  /** A worker that may still begin a task before it looks at `quit` again. */
  predicate MayBegin(pc: Pc) { WorkerPc(pc) && !pc.Check? && !pc.Running? && !pc.Exited? }

  ghost predicate LateRule(s: State, t: Tid) {
    t in s.pcs ==>
      if s.m.quit then Late(s.h, t) + (if MayBegin(s.pcs[t]) then 1 else 0) <= 1 else Late(s.h, t) == 0
  }

  ghost predicate LateRules(s: State) { forall t :: t in s.pcs ==> LateRule(s, t) }

  lemma StepLate(s: State, t: Tid, c: Choice)
    requires Enabled(s, t, c)
    ensures var h', pc, pc' := Record(s.h, s.m, s.pcs[t], t, c), s.pcs[t], Next(s, t, c);
      && (forall u :: Late(h', u) == Late(s.h, u) + if u == t && pc.Free? && s.m.quit then 1 else 0)
      && (s.m.quit && MayBegin(pc') ==> MayBegin(pc) && !pc.Free?)
  {
  }

  lemma LateKept(s: State, t: Tid, c: Choice)
    requires LateRules(s) && Enabled(s, t, c)
    ensures LateRules(After(s, t, c))
  {
    StepLate(s, t, c);
    StepFlags(s, t, c);
    forall u | u in s.pcs
      ensures LateRule(After(s, t, c), u)
    {
      if u != t { OthersStay(s, t, c, u); }
    }
  }

  // ---------- the end of the pool ----------

  /**
   The workers joined so far have exited; once the queue is being drained they all have, no caller is
   inside the pool, and the drain ends with an empty queue.
   */
  ghost predicate EndRules(s: State) {
    s.waiter in s.pcs && EndRule(s, s.pcs[s.waiter])
  }

  ghost predicate EndRule(s: State, pc: Pc) {
    && (forall k :: 0 <= k < |s.workers| && (DrainPc(pc) || (pc.Join? && k < pc.i)) ==>
          s.workers[k] in s.pcs && s.pcs[s.workers[k]] == Exited)
    && (DrainPc(pc) ==> CallersIdle(s))
    && (pc == Destroyed || pc == PopUnlock(true, None) ==> Queue(s.h) == [])
  }

  lemma OwnStep(s: State, t: Tid, c: Choice)
    requires Enabled(s, t, c) && !s.pcs[t].Signal? && !s.pcs[t].Broadcast?
    ensures var s' := After(s, t, c);
      s'.pcs.Keys == s.pcs.Keys && s'.pcs[t] == Next(s, t, c)
      && forall u :: u in s.pcs && u != t ==> s'.pcs[u] == s.pcs[u]
  {
  }

  /** Where the steps of the waiting thread lead. */
  lemma StepEnd(s: State, t: Tid, c: Choice)
    requires Enabled(s, t, c) && WaiterPc(s.pcs[t])
    ensures var pc, pc' := s.pcs[t], Next(s, t, c);
      && (pc'.Join? ==> pc.Join? && pc'.i == pc.i + 1 && pc.i < |s.workers|)
      && (DrainPc(pc') ==> DrainPc(pc) || (pc.Join? && pc.i >= |s.workers|))
      && (pc' == Destroyed ==> pc == PopUnlock(true, None))
      && (pc' == PopUnlock(true, None) ==> pc == TestHead(true) && s.m.head == None)
  {
  }

  lemma EndKeptByWaiter(s: State, c: Choice)
    requires Roles(s) && LockRules(s) && TaskRules(s) && EndRules(s) && Enabled(s, s.waiter, c)
    ensures EndRules(After(s, s.waiter, c))
  {
    var t := s.waiter;
    assert WaiterPc(s.pcs[t]);
    IsReady(s, t, c);
    StepEnd(s, t, c);
    assert CriticalPc(s) == s.pcs[t] || !InCritical(s.pcs[t]);
    var pc' := Next(s, t, c);
    if pc' == Destroyed || pc' == PopUnlock(true, None) {
      NotQueued(s.m, s.h, s.pcs[t], c);
      QueueElsewhere(s.m, s.h, s.pcs[t], t, c);
      assert Queue(s.h) == [];
    }
    EndMoves(s, t, c);
  }

  lemma EndMoves(s: State, t: Tid, c: Choice)
    requires Enabled(s, t, c) && t == s.waiter && t !in s.workers && WaiterPc(s.pcs[t]) && EndRules(s)
    requires var pc' := Next(s, t, c);
      pc' == Destroyed || pc' == PopUnlock(true, None) ==> Queue(Record(s.h, s.m, s.pcs[t], t, c)) == []
    ensures EndRules(After(s, t, c))
  {
    var s', pc' := After(s, t, c), Next(s, t, c);
    OwnStep(s, t, c);
    if DrainPc(pc') {
      StepEnd(s, t, c);
      CallersStayIdle(s, s', t);
    }
    forall k | 0 <= k < |s.workers| && (DrainPc(pc') || (pc'.Join? && k < pc'.i))
      ensures s.workers[k] in s'.pcs && s'.pcs[s.workers[k]] == Exited
    {
      HasExited(s, t, c, k);
    }
  }

  /** A worker that the waiting thread has joined, or joins with this step, has exited. */
  lemma HasExited(s: State, t: Tid, c: Choice, k: nat)
    requires Enabled(s, t, c) && t == s.waiter && WaiterPc(s.pcs[t]) && EndRules(s) && k < |s.workers|
    requires var pc' := Next(s, t, c); DrainPc(pc') || (pc'.Join? && k < pc'.i)
    ensures s.workers[k] in s.pcs && s.pcs[s.workers[k]] == Exited
  {
    StepEnd(s, t, c);
  }

  lemma CallersStayIdle(s: State, s': State, t: Tid)
    requires CallersIdle(s) && s'.pcs.Keys == s.pcs.Keys && t in s'.pcs && !CallerPc(s'.pcs[t])
    requires forall u :: u in s.pcs && u != t ==> s'.pcs[u] == s.pcs[u]
    ensures CallersIdle(s')
  {
  }

  lemma EndKeptByOthers(s: State, t: Tid, c: Choice)
    requires Roles(s) && EndRules(s) && Enabled(s, t, c) && t != s.waiter
    ensures EndRules(After(s, t, c))
  {
    OthersStay(s, t, c, s.waiter);
    assert !DrainPc(s.pcs[s.waiter]);
    forall k | 0 <= k < |s.workers| && s.pcs[s.waiter].Join? && k < s.pcs[s.waiter].i
      ensures s.workers[k] in After(s, t, c).pcs && After(s, t, c).pcs[s.workers[k]] == Exited
    {
      OthersStay(s, t, c, s.workers[k]);
    }
  }

  ghost predicate Invariant(s: State) {
    var kept :=
      Roles(s) && LockRules(s) && MutexRules(s) && BlockRules(s) && TaskRules(s) && LateRules(s) && EndRules(s);
    kept
  }

  lemma InitRules(s: State)
    requires Init(s)
    ensures Roles(s) && LockRules(s) && MutexRules(s)
  {
  }

  lemma InitBlock(s: State)
    requires Init(s)
    ensures BlockRules(s) && LateRules(s)
  {
  }

  lemma InitTasks(s: State)
    requires Init(s)
    ensures TaskRules(s)
  {
    assert forall t :: t in s.pcs ==> Hand(s.pcs[t]) == None && !Unlinked(s.pcs[t]);
  }

  lemma InitInvariant(s: State)
    requires Init(s)
    ensures Invariant(s)
  {
    InitRules(s);
    InitBlock(s);
    InitTasks(s);
  }

  lemma StepInvariant(s: State, t: Tid, c: Choice)
    requires Invariant(s) && Enabled(s, t, c)
    ensures Invariant(After(s, t, c))
  {
    RolesKept(s, t, c);
    LockKept(s, t, c);
    MutexKept(s, t, c);
    BlockKept(s, t, c);
    TasksKept(s, t, c);
    LateKept(s, t, c);
    if t == s.waiter {
      EndKeptByWaiter(s, c);
    } else {
      EndKeptByOthers(s, t, c);
    }
  }

  lemma LeadsInvariant(s: State, e: Event, s': State)
    requires Invariant(s) && Leads(s, e, s')
    ensures Invariant(s')
  {
    StepInvariant(s, e.thread, e.choice);
  }

  lemma PathStep(ss: seq<State>, es: seq<Event>, i: nat)
    requires Path(ss, es) && i < |es|
    ensures Leads(ss[i], es[i], ss[i + 1])
  {
  }

  lemma {:induction false} PathInvariant(ss: seq<State>, es: seq<Event>, i: nat)
    requires Path(ss, es) && i < |ss| && Invariant(ss[0])
    ensures Invariant(ss[i])
  {
    if i > 0 {
      var k: nat := i - 1;
      PathInvariant(ss, es, k);
      PathStep(ss, es, k);
      LeadsInvariant(ss[k], es[k], ss[k + 1]);
    }
  }

  /** Everything above holds in every state of every run. */
  lemma RunInvariant(ss: seq<State>, es: seq<Event>, i: nat)
    requires Run(ss, es) && i < |ss|
    ensures Invariant(ss[i])
  {
    InitInvariant(ss[0]);
    PathInvariant(ss, es, i);
  }

  // ---------- safety ----------

  /** The spinlock and the mutex each admit one thread. */
  lemma MutualExclusion(ss: seq<State>, es: seq<Event>, i: nat, t: Tid, u: Tid)
    requires Run(ss, es) && i < |ss| && t in ss[i].pcs && u in ss[i].pcs
    ensures InCritical(ss[i].pcs[t]) && InCritical(ss[i].pcs[u]) ==> t == u
    ensures HasMutex(ss[i].pcs[t]) && HasMutex(ss[i].pcs[u]) ==> t == u
  {
    RunInvariant(ss, es, i);
  }

  /** While nobody is in the critical section, `tail` addresses the head slot exactly when the queue is empty. */
  lemma TailAddressesHead(ss: seq<State>, es: seq<Event>, i: nat)
    requires Run(ss, es) && i < |ss| && !ss[i].m.lock
    ensures ss[i].m.tail == HeadSlot <==> ss[i].h.linked == ss[i].h.popped
    ensures ss[i].m.tail == HeadSlot <==> ss[i].m.head == None
  {
    RunInvariant(ss, es, i);
    QueueApart(ss[i].h);
  }

  /** At every moment `head` and the `next` fields link exactly the tasks linked and not yet popped, in order. */
  lemma QueueInMemory(ss: seq<State>, es: seq<Event>, i: nat)
    requires Run(ss, es) && i < |ss|
    ensures ss[i].m.head == First(Queue(ss[i].h)) && Chained(ss[i].m.next, Queue(ss[i].h))
    ensures ss[i].h.linked == ss[i].h.popped + Queue(ss[i].h)
  {
    RunInvariant(ss, es, i);
    QueueApart(ss[i].h);
  }

  /** No step reads, writes or frees a record that has been freed, or follows a null head. */
  lemma NoFault(ss: seq<State>, es: seq<Event>, i: nat, t: Tid)
    requires Run(ss, es) && i < |ss| && t in ss[i].pcs
    ensures Live(ss[i].m, ss[i].pcs[t])
  {
    RunInvariant(ss, es, i);
    LiveRecords(ss[i], t);
  }

  lemma LiveRecords(s: State, t: Tid)
    requires LockRules(s) && TaskRules(s) && t in s.pcs
    ensures Live(s.m, s.pcs[t])
  {
    assert InCritical(s.pcs[t]) ==> CriticalPc(s) == s.pcs[t];
    assert Hand(s.pcs[t]).Some? ==> Hand(s.pcs[t]).value in s.h.owner;
  }

  /** The logs only grow, `quit` stays stored and `block` clear. */
  ghost predicate Grows(s: State, s': State) {
    var grows :=
      && s.h.linked <= s'.h.linked && s.h.popped <= s'.h.popped && s.h.freed <= s'.h.freed && s.h.begun <= s'.h.begun
      && (s.h.woken ==> s'.h.woken) && (s.m.quit ==> s'.m.quit) && (!s.m.block ==> !s'.m.block);
    grows
  }

  lemma StepGrows(s: State, e: Event, s': State)
    requires Leads(s, e, s')
    ensures Grows(s, s')
  {
    StepFlags(s, e.thread, e.choice);
  }

  lemma GrowsOn(s: State, s': State, s'': State)
    requires Grows(s, s') && Grows(s', s'')
    ensures Grows(s, s'')
  {
  }

  lemma {:induction false} RunGrows(ss: seq<State>, es: seq<Event>, i: nat, j: nat)
    requires Path(ss, es) && i <= j < |ss|
    ensures Grows(ss[i], ss[j])
    decreases j
  {
    if i < j {
      RunGrows(ss, es, i, j - 1);
      assert ss[j - 1 + 1] == ss[j];
      StepGrows(ss[j - 1], es[j - 1], ss[j]);
      GrowsOn(ss[i], ss[j - 1], ss[j]);
    }
  }

  /**
   Tasks are popped in the order they were linked in, whatever is linked later; none is freed twice and
   none is begun twice; and one that is popped is freed or still in the hands of one thread.
   */
  lemma PoppedInOrder(ss: seq<State>, es: seq<Event>, i: nat, j: nat)
    requires Run(ss, es) && i <= j < |ss|
    ensures ss[i].h.linked <= ss[j].h.linked && ss[j].h.popped <= ss[j].h.linked && NoDuplicates(ss[j].h.linked)
    ensures NoDuplicates(ss[j].h.freed) && NoDuplicates(ss[j].h.begun)
    ensures forall x :: x in ss[j].h.popped ==>
      x in ss[j].h.freed || exists t :: t in ss[j].pcs && Hand(ss[j].pcs[t]) == Some(x)
  {
    RunInvariant(ss, es, j);
    RunGrows(ss, es, i, j);
    var s := ss[j];
    forall x | x in s.h.popped && x !in s.h.freed
      ensures exists t :: t in s.pcs && Hand(s.pcs[t]) == Some(x)
    {
      assert Hand(s.pcs[s.h.owner[x]]) == Some(x);
    }
  }

  /**
   At the end every record ever allocated has been freed, once, by a worker or by the drain, and what was
   linked is what was freed; nobody else is inside the pool.
   */
  lemma AllFreed(ss: seq<State>, es: seq<Event>, i: nat)
    requires Run(ss, es) && i < |ss| && ss[i].waiter in ss[i].pcs && ss[i].pcs[ss[i].waiter] == Destroyed
    ensures ss[i].m.next == map[] && ss[i].h.popped == ss[i].h.linked && NoDuplicates(ss[i].h.freed)
    ensures forall x :: x in ss[i].h.used <==> x in ss[i].h.freed
    ensures forall x :: x in ss[i].h.linked <==> x in ss[i].h.freed
    ensures forall t :: t in ss[i].pcs && t != ss[i].waiter ==> ss[i].pcs[t] == Exited || ss[i].pcs[t] == Idle
  {
    RunInvariant(ss, es, i);
    NobodyElse(ss[i]);
    NoHands(ss[i]);
  }

  lemma NobodyElse(s: State)
    requires Roles(s) && EndRules(s) && s.pcs[s.waiter] == Destroyed
    ensures forall t :: t in s.pcs && t != s.waiter ==> s.pcs[t] == Exited || s.pcs[t] == Idle
  {
    forall t | t in s.pcs && t != s.waiter
      ensures s.pcs[t] == Exited || s.pcs[t] == Idle
    {
      if t in s.workers {
        var k :| 0 <= k < |s.workers| && s.workers[k] == t;
      } else {
        assert CallerPc(s.pcs[t]);
      }
    }
  }

  lemma NoHands(s: State)
    requires TaskRules(s) && EndRules(s) && s.pcs[s.waiter] == Destroyed
    requires forall t :: t in s.pcs && t != s.waiter ==> s.pcs[t] == Exited || s.pcs[t] == Idle
    ensures s.m.next == map[] && s.h.popped == s.h.linked
    ensures forall x :: x in s.h.used <==> x in s.h.freed
    ensures forall x :: x in s.h.linked <==> x in s.h.freed
  {
    NobodyOwns(s);
    assert forall x :: x !in s.m.next;
    QueueApart(s.h);
  }

  lemma NobodyOwns(s: State)
    requires HandRules(s) && s.waiter in s.pcs && s.pcs[s.waiter] == Destroyed
    requires forall t :: t in s.pcs && t != s.waiter ==> s.pcs[t] == Exited || s.pcs[t] == Idle
    ensures forall x :: x !in s.h.owner
  {
    assert forall t :: t in s.pcs ==> Hand(s.pcs[t]) == None;
    assert forall x :: x in s.h.owner ==> Holds(s.pcs, s.h.owner[x], x);
  }

  // ---------- shutdown ----------

  /** Once a broadcast of __nonblock has run, no worker is asleep, at that moment or ever again. */
  lemma ShutdownComplete(ss: seq<State>, es: seq<Event>, i: nat, j: nat, t: Tid)
    requires Run(ss, es) && i < j < |ss| && es[i].thread in ss[i].pcs && ss[i].pcs[es[i].thread] == Broadcast
    requires t in ss[j].pcs
    ensures ss[j].pcs[t] != Asleep
  {
    assert Leads(ss[i], es[i], ss[i + 1]);
    StepFlags(ss[i], es[i].thread, es[i].choice);
    RunGrows(ss, es, i + 1, j);
    RunInvariant(ss, es, j);
  }

  /** A worker still asleep after `block` was cleared will be woken: some terminator is on its way to broadcast. */
  lemma SleeperWillBeWoken(ss: seq<State>, es: seq<Event>, i: nat, t: Tid)
    requires Run(ss, es) && i < |ss| && !ss[i].m.block && t in ss[i].pcs && ss[i].pcs[t] == Asleep
    ensures exists u :: u in ss[i].pcs && (ss[i].pcs[u].StopUnlock? || ss[i].pcs[u].Broadcast?)
  {
    RunInvariant(ss, es, i);
    var u :| u in ss[i].pcs && Stopping(ss[i].pcs[u]);
  }

  /** How often `t` begins a task in the steps from `i` to `j`. */
  ghost function Begins(ss: seq<State>, es: seq<Event>, t: Tid, i: nat, j: nat): nat
    requires i <= j <= |es| <= |ss|
  {
    if i == j then 0 else Begins(ss, es, t, i, j - 1) + Begun(ss[j - 1], es[j - 1], t)
  }

  ghost function Begun(s: State, e: Event, t: Tid): nat {
    if e.thread == t && t in s.pcs && s.pcs[t].Free? then 1 else 0
  }

  /** After `quit` is stored no worker begins more than one task. */
  lemma OneLateTask(ss: seq<State>, es: seq<Event>, t: Tid, i: nat, j: nat)
    requires Run(ss, es) && i <= j <= |es| && ss[i].m.quit && t in ss[j].pcs
    ensures Begins(ss, es, t, i, j) <= 1
  {
    var lates := seq(|ss|, k requires 0 <= k < |ss| => Late(ss[k].h, t));
    forall k {:trigger lates[k]} | i <= k < j
      ensures lates[k + 1] == lates[k] + Begun(ss[k], es[k], t)
    {
      RunGrows(ss, es, i, k);
      LateCounted(ss[k], es[k], ss[k + 1], t);
    }
    BeginsCounted(ss, es, t, i, j, lates);
    RunInvariant(ss, es, j);
    RunGrows(ss, es, i, j);
    assert LateRule(ss[j], t);
  }

  lemma {:induction false} BeginsCounted(ss: seq<State>, es: seq<Event>, t: Tid, i: nat, j: nat, lates: seq<nat>)
    requires i <= j <= |es| <= |ss| && |lates| == |es| + 1
    requires forall k {:trigger lates[k]} :: i <= k < j ==> lates[k + 1] == lates[k] + Begun(ss[k], es[k], t)
    ensures lates[j] == lates[i] + Begins(ss, es, t, i, j)
    decreases j
  {
    if i < j {
      BeginsCounted(ss, es, t, i, j - 1, lates);
      assert lates[j - 1 + 1] == lates[j - 1] + Begun(ss[j - 1], es[j - 1], t);
    }
  }

  lemma LateCounted(s: State, e: Event, s': State, t: Tid)
    requires Leads(s, e, s') && s.m.quit
    ensures Late(s'.h, t) == Late(s.h, t) + Begun(s, e, t)
  {
    StepLate(s, e.thread, e.choice);
  }

  /** How far a worker is from its exit once `quit` is stored and `block` is clear. */
  function Rank(pc: Pc): nat {
    if pc.Exited? then 0
    else if pc.Check? || pc.UnlockNull? then 1
    else if pc.Running? || pc.TestBlock? then 2
    else if pc.Free? || pc.GetLock? then 3
    else if pc.Begin? then 4
    else if pc.PopUnlock? then 5
    else if pc.FixTail? then 6
    else if pc.Advance? then 7
    else if pc.TakeHead? then 8
    else if pc.TestHead? then 9
    else if pc.PopTas? then 10
    else if pc.UnlockRetry? || pc.PopSpin? then 11
    else if pc.Woken? then 12
    else 13
  }

  /** An exchange that found the spinlock taken. */
  predicate Loses(s: State, t: Tid) { t in s.pcs && (s.pcs[t].PopTas? || s.pcs[t].AddTas?) && s.m.lock }

  /** A round of the spinlock that found it taken: an exchange, or a read that waits for it to look free. */
  predicate Spins(s: State, t: Tid) {
    t in s.pcs && (s.pcs[t].PopSpin? || s.pcs[t].PopTas? || s.pcs[t].AddSpin? || s.pcs[t].AddTas?) && s.m.lock
  }

  lemma StepRank(s: State, t: Tid, c: Choice)
    requires Enabled(s, t, c) && WorkerPc(s.pcs[t]) && BlockRule(s.m, s.h.woken, s.pcs[t]) && s.m.quit && !s.m.block
    ensures Rank(Next(s, t, c)) + (if Spins(s, t) then 0 else 1) <= Rank(s.pcs[t]) + (if Loses(s, t) then 1 else 0)
  {
  }

  /** Worker `t` while the pool shuts down. */
  ghost predicate Leaving(s: State, t: Tid) {
    var leaving :=
      t in s.pcs && WorkerPc(s.pcs[t]) && BlockRule(s.m, s.h.woken, s.pcs[t]) && s.m.quit && !s.m.block;
    leaving
  }

  /**
   Every step of a worker but a spin brings it nearer to its exit, and no other step takes it away, but for
   an exchange that found the spinlock taken, which takes it one step back.
   */
  lemma RankFalls(s: State, e: Event, s': State, t: Tid)
    requires Leads(s, e, s') && Leaving(s, t)
    ensures t in s'.pcs && Rank(s'.pcs[t]) + Move(s, e, t) <= Rank(s.pcs[t]) + Loss(s, e, t)
  {
    if e.thread == t {
      StepRank(s, t, e.choice);
      OwnStep(s, t, e.choice);
    } else {
      OthersStay(s, e.thread, e.choice, t);
    }
  }

  /** The steps of `t` from `i` to `j` that are not spins. */
  ghost function Moves(ss: seq<State>, es: seq<Event>, t: Tid, i: nat, j: nat): nat
    requires i <= j <= |es| <= |ss|
  {
    if i == j then 0 else Moves(ss, es, t, i, j - 1) + Move(ss[j - 1], es[j - 1], t)
  }

  ghost function Move(s: State, e: Event, t: Tid): nat { if e.thread == t && !Spins(s, t) then 1 else 0 }

  /** How often `t` found the spinlock taken when it tried to take it, in the steps from `i` to `j`. */
  ghost function Losses(ss: seq<State>, es: seq<Event>, t: Tid, i: nat, j: nat): nat
    requires i <= j <= |es| <= |ss|
  {
    if i == j then 0 else Losses(ss, es, t, i, j - 1) + Loss(ss[j - 1], es[j - 1], t)
  }

  ghost function Loss(s: State, e: Event, t: Tid): nat { if e.thread == t && Loses(s, t) then 1 else 0 }

  lemma StepWorkers(s: State, e: Event, s': State)
    requires Leads(s, e, s')
    ensures s'.workers == s.workers
  {
  }

  lemma {:induction false} SameWorkers(ss: seq<State>, es: seq<Event>, i: nat, j: nat)
    requires Path(ss, es) && i <= j <= |es|
    ensures ss[j].workers == ss[i].workers
    decreases j
  {
    if i < j {
      SameWorkers(ss, es, i, j - 1);
      assert ss[j - 1 + 1] == ss[j];
      StepWorkers(ss[j - 1], es[j - 1], ss[j]);
    }
  }

  lemma StillLeaving(ss: seq<State>, es: seq<Event>, t: Tid, i: nat, k: nat)
    requires Run(ss, es) && i <= k <= |es| && ss[i].m.quit && !ss[i].m.block && t in ss[i].workers
    ensures Leaving(ss[k], t)
  {
    RunGrows(ss, es, i, k);
    RunInvariant(ss, es, k);
    SameWorkers(ss, es, i, k);
  }

  /**
   Once `quit` is stored and `block` is clear, a worker takes at most 13 more steps besides those that find
   the spinlock taken, and one more for each time it tried in vain to take it.
   */
  lemma WorkerExits(ss: seq<State>, es: seq<Event>, t: Tid, i: nat, j: nat)
    requires Run(ss, es) && i <= j <= |es| && ss[i].m.quit && !ss[i].m.block && t in ss[i].workers
    ensures t in ss[i].pcs && t in ss[j].pcs
    ensures Moves(ss, es, t, i, j) + Rank(ss[j].pcs[t]) <= Rank(ss[i].pcs[t]) + Losses(ss, es, t, i, j)
    ensures Rank(ss[i].pcs[t]) <= 13 && (Rank(ss[j].pcs[t]) == 0 <==> ss[j].pcs[t] == Exited)
  {
    RanksFall(ss, es, t, i, j);
    assert Leaving(ss[i], t) && Leaving(ss[j], t);
  }

  lemma {:induction false} RanksFall(ss: seq<State>, es: seq<Event>, t: Tid, i: nat, j: nat)
    requires Run(ss, es) && i <= j <= |es| && ss[i].m.quit && !ss[i].m.block && t in ss[i].workers
    ensures Leaving(ss[i], t) && Leaving(ss[j], t)
    ensures Moves(ss, es, t, i, j) + Rank(ss[j].pcs[t]) <= Rank(ss[i].pcs[t]) + Losses(ss, es, t, i, j)
    decreases j
  {
    StillLeaving(ss, es, t, i, j);
    if i < j {
      var k: nat := j - 1;
      RanksFall(ss, es, t, i, k);
      PathStep(ss, es, k);
      RankFalls(ss[k], es[k], ss[k + 1], t);
    }
  }

  /** A choice under which every thread that does not wait can step. */
  const NO_CHOICE := Choice(None, None, {}, false)

  /** A thread in the critical section, or holding the mutex, never waits. */
  lemma HoldersMove(s: State, t: Tid)
    requires Invariant(s) && t in s.pcs && (InCritical(s.pcs[t]) || HasMutex(s.pcs[t]))
    ensures Enabled(s, t, NO_CHOICE) && !Spins(s, t)
  {
    LiveRecords(s, t);
  }

  /** A thread that waits neither for the mutex nor in its sleep can step when nobody has the mutex. */
  lemma FreeToMove(s: State, t: Tid)
    requires LockRules(s) && TaskRules(s) && s.m.mutex == None
    requires t in s.pcs && WorkerPc(s.pcs[t]) && s.pcs[t] != Exited && s.pcs[t] != Asleep
    ensures Enabled(s, t, NO_CHOICE)
  {
    LiveRecords(s, t);
  }

  lemma WakerMoves(s: State) returns (u: Tid)
    requires Invariant(s) && !s.m.block && !s.h.woken
    ensures Enabled(s, u, NO_CHOICE) && !Spins(s, u)
  {
    u :| u in s.pcs && Stopping(s.pcs[u]);
  }

  /**
   The shutdown cannot get stuck: while a worker has not exited, it or the thread it waits for can take
   a step that does not find the spinlock taken.
   */
  lemma ShutdownMoves(ss: seq<State>, es: seq<Event>, i: nat, t: Tid) returns (u: Tid)
    requires Run(ss, es) && i < |ss| && ss[i].m.quit && !ss[i].m.block
    requires t in ss[i].workers && t in ss[i].pcs && ss[i].pcs[t] != Exited
    ensures Enabled(ss[i], u, NO_CHOICE) && !Spins(ss[i], u)
  {
    var s := ss[i];
    RunInvariant(ss, es, i);
    u := t;
    if s.m.lock {
      u := s.h.holder.value;
      HoldersMove(s, u);
    } else if s.m.mutex.Some? {
      u := s.m.mutex.value;
      HoldersMove(s, u);
    } else if s.pcs[t] == Asleep {
      assert BlockRule(s.m, s.h.woken, s.pcs[t]);
      u := WakerMoves(s);
    } else {
      FreeToMove(s, t);
    }
  }
}

/**
 Before the shutdown a task that is queued is looked after by some worker or signal, as long as no signal
 is given to nobody; and when one is, it is not.
 */
module ThreadPoolSignals {
  import opened Options
  import opened ThreadPool
  import opened ThreadPoolSafety
  import opened ThreadPoolTasks
  import opened ThreadPoolRuns

  /** A worker that looks at the queue once more before it can fall asleep or exit, unless `quit` is stored. */
  predicate Heading(pc: Pc) {
    && WorkerPc(pc) && !pc.Exited? && !pc.Asleep? && !pc.GetLock? && !pc.TestBlock? && !pc.Wait? && !pc.UnlockNull?
    && pc != PopUnlock(false, None)
  }

  /** A caller that has linked a task and not yet signalled. */
  predicate Signalling(pc: Pc) { pc.AddTail? || pc.AddUnlock? || pc.Signal? }

  predicate Looks(pc: Pc) { Heading(pc) || Signalling(pc) }

  ghost predicate SomeoneLooks(s: State) { exists t :: t in s.pcs && Looks(s.pcs[t]) }

  ghost predicate Waits(s: State) { Queue(s.h) != [] && !s.m.quit }

  /** While a task is queued and the pool is not told to quit, somebody looks after the queue. */
  ghost predicate Served(s: State) { Waits(s) ==> SomeoneLooks(s) }

  /** A signal reaches somebody: a sleeper, or it is not needed as another thread looks after the queue. */
  ghost predicate Heard(s: State, t: Tid) {
    t in s.pcs && s.pcs[t].Signal? && Waits(s) ==>
      exists u :: u in s.pcs && u != t && (s.pcs[u].Asleep? || Looks(s.pcs[u]))
  }

  /** The thread that steps goes on looking, unless it is at its signal, finds the queue empty or quits. */
  lemma StepLooks(s: State, t: Tid, c: Choice)
    requires Enabled(s, t, c) && Looks(s.pcs[t]) && !s.pcs[t].Signal?
    requires s.pcs[t].TestHead? ==> s.m.head.Some?
    ensures Looks(Next(s, t, c)) || (s.pcs[t].Check? && s.m.quit)
  {
  }

  /** Nobody but a caller that links a task makes the queue longer. */
  lemma StepWaits(s: State, t: Tid, c: Choice)
    requires Enabled(s, t, c) && Waits(After(s, t, c))
    requires s.pcs[t].Advance? ==> Queue(s.h) != []
    ensures !s.m.quit && (Queue(s.h) != [] || s.pcs[t].AddLink?)
  {
  }

  /** Who looked before the step of another thread still does, and a sleeper that was woken does now. */
  lemma OtherLooks(s: State, t: Tid, c: Choice, u: Tid)
    requires Enabled(s, t, c) && u in s.pcs && u != t && Looks(s.pcs[u])
    ensures SomeoneLooks(After(s, t, c))
  {
    OthersStay(s, t, c, u);
    assert Looks(After(s, t, c).pcs[u]);
  }

  lemma SleeperLooks(s: State, t: Tid, c: Choice, u: Tid)
    requires Enabled(s, t, c) && s.pcs[t].Signal? && u in s.pcs && s.pcs[u].Asleep?
    ensures SomeoneLooks(After(s, t, c))
  {
    assert Sleeps(s, u);
    var w :| w in c.wake;
    assert Looks(After(s, t, c).pcs[w]);
  }

  /** After a signal only others can look after the queue. */
  lemma SignalLeaves(s: State, t: Tid, c: Choice)
    requires Enabled(s, t, c) && s.pcs[t].Signal? && SomeoneLooks(After(s, t, c))
    ensures exists u :: u in s.pcs && u != t && (s.pcs[u].Asleep? || Looks(s.pcs[u]))
  {
    var u :| u in After(s, t, c).pcs && Looks(After(s, t, c).pcs[u]);
    assert After(s, t, c).pcs[t] == Idle;
    OthersStay(s, t, c, u);
  }

  lemma SignalSame(s: State, t: Tid, c: Choice)
    requires Enabled(s, t, c) && s.pcs[t].Signal?
    ensures Waits(After(s, t, c)) <==> Waits(s)
  {
  }

  lemma SignalServes(s: State, t: Tid, c: Choice)
    requires Enabled(s, t, c) && s.pcs[t].Signal?
    ensures Served(After(s, t, c)) <==> Heard(s, t)
  {
    SignalSame(s, t, c);
    if Waits(s) {
      if SomeoneLooks(After(s, t, c)) { SignalLeaves(s, t, c); }
      if Heard(s, t) {
        var u :| u in s.pcs && u != t && (s.pcs[u].Asleep? || Looks(s.pcs[u]));
        if s.pcs[u].Asleep? { SleeperLooks(s, t, c, u); } else { OtherLooks(s, t, c, u); }
      }
    }
  }

  lemma OtherStepServes(s: State, t: Tid, c: Choice)
    requires LockRules(s) && TaskRules(s) && Enabled(s, t, c) && !s.pcs[t].Signal? && Served(s)
    ensures Served(After(s, t, c))
  {
    if Waits(After(s, t, c)) {
      assert InCritical(s.pcs[t]) ==> CriticalPc(s) == s.pcs[t];
      StepWaits(s, t, c);
      if s.pcs[t].AddLink? {
        OwnStep(s, t, c);
        assert Looks(After(s, t, c).pcs[t]);
      } else {
        var u :| u in s.pcs && Looks(s.pcs[u]);
        if u == t { LooksOn(s, t, c); } else { OtherLooks(s, t, c, u); }
      }
    }
  }

  lemma LooksOn(s: State, t: Tid, c: Choice)
    requires Enabled(s, t, c) && Looks(s.pcs[t]) && !s.pcs[t].Signal? && !s.m.quit
    requires s.pcs[t].TestHead? ==> s.m.head.Some?
    ensures SomeoneLooks(After(s, t, c))
  {
    StepLooks(s, t, c);
    OwnStep(s, t, c);
    assert Looks(After(s, t, c).pcs[t]);
  }

  /** A step keeps the queue served exactly when it is no signal that nobody hears. */
  lemma ServedStep(s: State, t: Tid, c: Choice)
    requires LockRules(s) && TaskRules(s) && Enabled(s, t, c) && Served(s)
    ensures Served(After(s, t, c)) <==> Heard(s, t)
  {
    if s.pcs[t].Signal? { SignalServes(s, t, c); } else { OtherStepServes(s, t, c); }
  }

  lemma ServedLeads(s: State, e: Event, s': State)
    requires Invariant(s) && Leads(s, e, s') && Served(s)
    ensures Served(s') <==> Heard(s, e.thread)
  {
    ServedStep(s, e.thread, e.choice);
  }

  lemma {:induction false} ServedUpTo(ss: seq<State>, es: seq<Event>, i: nat)
    requires Run(ss, es) && i < |ss| && forall k :: 0 <= k < i ==> Heard(ss[k], es[k].thread)
    ensures Served(ss[i])
  {
    if i > 0 {
      var k: nat := i - 1;
      ServedUpTo(ss, es, k);
      RunInvariant(ss, es, k);
      PathStep(ss, es, k);
      ServedLeads(ss[k], es[k], ss[k + 1]);
    }
  }

  /** In a run the queue is served at all times exactly when every signal that is given is heard. */
  lemma ServedRun(ss: seq<State>, es: seq<Event>)
    requires Run(ss, es)
    ensures (forall i :: 0 <= i < |ss| ==> Served(ss[i]))
      <==> (forall i :: 0 <= i < |es| ==> Heard(ss[i], es[i].thread))
  {
    if forall i :: 0 <= i < |es| ==> Heard(ss[i], es[i].thread) {
      forall i | 0 <= i < |ss|
        ensures Served(ss[i])
      {
        ServedUpTo(ss, es, i);
      }
    } else {
      var i: nat :| i < |es| && !Heard(ss[i], es[i].thread);
      RunInvariant(ss, es, i);
      PathStep(ss, es, i);
      if Served(ss[i]) {
        ServedLeads(ss[i], es[i], ss[i + 1]);
        assert !Served(ss[i + 1]);
      }
    }
  }

  /**
   While the queue is served, nobody waits for a wake-up in vain: with a task queued and the pool not told
   to quit, not all workers are asleep unless a signal is on its way.
   */
  lemma ServedAwake(ss: seq<State>, es: seq<Event>, i: nat)
    requires Run(ss, es) && i < |ss| && forall k :: 0 <= k < i ==> Heard(ss[k], es[k].thread)
    requires Waits(ss[i]) && forall t :: t in ss[i].workers && t in ss[i].pcs ==> ss[i].pcs[t].Asleep?
    ensures exists t :: t in ss[i].pcs && t !in ss[i].workers && Signalling(ss[i].pcs[t])
  {
    ServedUpTo(ss, es, i);
    RunInvariant(ss, es, i);
    var t :| t in ss[i].pcs && Looks(ss[i].pcs[t]);
    assert Part(ss[i].pcs[t]) == if t in ss[i].workers then 0 else if t == ss[i].waiter then 1 else 2;
  }
}

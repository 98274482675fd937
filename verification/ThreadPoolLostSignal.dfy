/**
 A signal that nobody hears: a run in which the signal of a post falls between a worker's failed pop and
 its wait, so that the task need not run before the shutdown.
 */
module ThreadPoolLostSignal {
  import opened Options
  import opened ThreadPool
  import opened ThreadPoolTasks
  import opened ThreadPoolSignals

  const WORKER: Tid := 0
  const WAITER: Tid := 1
  const CALLER: Tid := 2
  const TASK: Task := 7

  const NO_CALLS := Calls([], [], map[])

  /** A pool with one worker and one caller; the account of calls is left open. */
  function At(m: Memory, h: History, worker: Pc, caller: Pc): State {
    State(m, h, NO_CALLS, map[WORKER := worker, WAITER := Join(0), CALLER := caller], [WORKER], WAITER)
  }

  const NEW_MEMORY := Memory(false, None, None, HeadSlot, map[], true, false)
  const NEW_HISTORY := History(None, map[], {}, [], [], [], [], map[], false)
  const QUEUED_MEMORY := Memory(false, None, Some(TASK), NextOf(TASK), map[TASK := None], true, false)
  const QUEUED_HISTORY := History(None, map[], {TASK}, [TASK], [], [], [], map[], false)

  /** The caller posts, its malloc returns TASK, and its signal wakes nobody. */
  const POST := Choice(Some(TASK), None, {}, true)

  /** The same but for the account of calls. */
  ghost predicate Same(a: State, b: State) { a.(calls := NO_CALLS) == b.(calls := NO_CALLS) }

  ghost predicate Spans(ss: seq<State>, es: seq<Event>, a: State, b: State) {
    Path(ss, es) && ss[0] == a && Same(ss[|ss| - 1], b)
  }

  /** A run of events takes the pool from a, whatever the account of calls, to b. */
  ghost predicate Reaches(a: State, b: State) {
    forall a': State :: Same(a', a) ==> exists ss: seq<State>, es: seq<Event> :: Spans(ss, es, a', b)
  }

  lemma ReachesNext(a: State, e: Event, b: State)
    requires Enabled(a, e.thread, e.choice) && Same(After(a, e.thread, e.choice), b)
    ensures Reaches(a, b)
  {
    forall a': State | Same(a', a)
      ensures exists ss: seq<State>, es: seq<Event> :: Spans(ss, es, a', b)
    {
      EnabledSame(a, a', e);
      assert Spans([a', After(a', e.thread, e.choice)], [e], a', b);
    }
  }

  lemma EnabledSame(a: State, a': State, e: Event)
    requires Same(a', a) && Enabled(a, e.thread, e.choice)
    ensures Enabled(a', e.thread, e.choice)
    ensures Same(After(a', e.thread, e.choice), After(a, e.thread, e.choice))
  {
    assert Next(a', e.thread, e.choice) == Next(a, e.thread, e.choice);
  }

  lemma Joined(ss: seq<State>, es: seq<Event>, ss': seq<State>, es': seq<Event>)
    requires Path(ss, es) && Path(ss', es') && ss[|ss| - 1] == ss'[0]
    ensures Path(ss + ss'[1..], es + es')
    ensures (ss + ss'[1..])[0] == ss[0] && (ss + ss'[1..])[|ss| + |ss'| - 2] == ss'[|ss'| - 1]
  {
    var tt, ee := ss + ss'[1..], es + es';
    forall i | 0 <= i < |ee|
      ensures Leads(tt[i], ee[i], tt[i + 1])
    {
      if i >= |es| {
        assert tt[i] == ss'[i - |es|] && tt[i + 1] == ss'[i - |es| + 1] && ee[i] == es'[i - |es|];
      }
    }
  }

  lemma ReachesOn(a: State, b: State, c: State)
    requires Reaches(a, b) && Reaches(b, c)
    ensures Reaches(a, c)
  {
    forall a': State | Same(a', a)
      ensures exists ss: seq<State>, es: seq<Event> :: Spans(ss, es, a', c)
    {
      var ss: seq<State>, es: seq<Event> :| Spans(ss, es, a', b);
      var ss': seq<State>, es': seq<Event> :| Spans(ss', es', ss[|ss| - 1], c);
      Joined(ss, es, ss', es');
      assert Spans(ss + ss'[1..], es + es', a', c);
    }
  }

  lemma WorkerStep(m: Memory, h: History, w: Pc, p: Pc, m': Memory, h': History, w': Pc)
    requires Enabled(At(m, h, w, p), WORKER, POST) && !w.Signal? && !w.Broadcast?
    requires Write(m, w, WORKER, POST) == m' && Record(h, m, w, WORKER, POST) == h'
    requires Next(At(m, h, w, p), WORKER, POST) == w'
    ensures Reaches(At(m, h, w, p), At(m', h', w', p))
  {
    assert After(At(m, h, w, p), WORKER, POST).pcs == At(m', h', w', p).pcs;
    ReachesNext(At(m, h, w, p), Event(WORKER, POST), At(m', h', w', p));
  }

  lemma CallerStep(m: Memory, h: History, w: Pc, p: Pc, m': Memory, h': History, p': Pc)
    requires Enabled(At(m, h, w, p), CALLER, POST) && !p.Broadcast?
    requires Write(m, p, CALLER, POST) == m' && Record(h, m, p, CALLER, POST) == h'
    requires Next(At(m, h, w, p), CALLER, POST) == p'
    ensures Reaches(At(m, h, w, p), At(m', h', w, p'))
  {
    assert After(At(m, h, w, p), CALLER, POST).pcs == At(m', h', w, p').pcs;
    ReachesNext(At(m, h, w, p), Event(CALLER, POST), At(m', h', w, p'));
  }

  const MADE_MEMORY := NEW_MEMORY.(next := map[TASK := None])
  const MADE_HISTORY := NEW_HISTORY.(used := {TASK}, owner := map[TASK := CALLER])
  const LOCKED_MEMORY := MADE_MEMORY.(lock := true)
  const LOCKED_HISTORY := MADE_HISTORY.(holder := Some(CALLER))
  const LINKED_MEMORY := LOCKED_MEMORY.(head := Some(TASK))
  const LINKED_HISTORY := LOCKED_HISTORY.(linked := [TASK], owner := map[])
  const TAILED_MEMORY := LINKED_MEMORY.(tail := NextOf(TASK))
  const FRESH := At(NEW_MEMORY, NEW_HISTORY, Check, Idle)
  const EMPTY := At(NEW_MEMORY, NEW_HISTORY, GetLock, Idle)
  const ALLOCATED := At(MADE_MEMORY, MADE_HISTORY, GetLock, AddTas(TASK))
  const LINKED := At(LINKED_MEMORY, LINKED_HISTORY, GetLock, AddTail(TASK))
  const POSTED := At(QUEUED_MEMORY, QUEUED_HISTORY, GetLock, Idle)
  const LOST := At(QUEUED_MEMORY, QUEUED_HISTORY, Asleep, Idle)

  /** The worker takes the spinlock to look for a task ... */
  lemma BeganPop()
    ensures Reaches(FRESH, At(NEW_MEMORY.(lock := true), NEW_HISTORY.(holder := Some(WORKER)), TestHead(false), Idle))
  {
    var m, h := NEW_MEMORY, NEW_HISTORY;
    var m1, h1 := m.(lock := true), h.(holder := Some(WORKER));
    WorkerStep(m, h, Check, Idle, m, h, PopTas(false));
    WorkerStep(m, h, PopTas(false), Idle, m1, h1, TestHead(false));
    ReachesOn(FRESH, At(m, h, PopTas(false), Idle), At(m1, h1, TestHead(false), Idle));
  }

  /** ... finds none, and is about to take the mutex. */
  lemma FailedPop()
    ensures Reaches(At(NEW_MEMORY.(lock := true), NEW_HISTORY.(holder := Some(WORKER)), TestHead(false), Idle), EMPTY)
  {
    var m, h := NEW_MEMORY, NEW_HISTORY;
    var m1, h1 := m.(lock := true), h.(holder := Some(WORKER));
    WorkerStep(m1, h1, TestHead(false), Idle, m1, h1, PopUnlock(false, None));
    WorkerStep(m1, h1, PopUnlock(false, None), Idle, m, h, GetLock);
    ReachesOn(At(m1, h1, TestHead(false), Idle), At(m1, h1, PopUnlock(false, None), Idle), EMPTY);
  }

  /** The caller begins a post, */
  lemma BeganPost()
    ensures Reaches(EMPTY, At(NEW_MEMORY, NEW_HISTORY, GetLock, Malloc))
  {
    var m, h := NEW_MEMORY, NEW_HISTORY;
    CallerStep(m, h, GetLock, Idle, m, h, PostCheck);
    CallerStep(m, h, GetLock, PostCheck, m, h, Malloc);
    ReachesOn(EMPTY, At(m, h, GetLock, PostCheck), At(m, h, GetLock, Malloc));
  }

  lemma Made()
    ensures Reaches(At(NEW_MEMORY, NEW_HISTORY, GetLock, Malloc), At(MADE_MEMORY, MADE_HISTORY, GetLock, AddInit(TASK)))
  {
    CallerStep(NEW_MEMORY, NEW_HISTORY, GetLock, Malloc, MADE_MEMORY, MADE_HISTORY, AddInit(TASK));
  }

  /** allocates a record and clears its link, */
  lemma Allocated()
    ensures Reaches(EMPTY, ALLOCATED)
  {
    BeganPost();
    Made();
    assert MADE_MEMORY.next[TASK := None] == MADE_MEMORY.next;
    CallerStep(MADE_MEMORY, MADE_HISTORY, GetLock, AddInit(TASK), MADE_MEMORY, MADE_HISTORY, AddTas(TASK));
    ReachesOn(EMPTY, At(NEW_MEMORY, NEW_HISTORY, GetLock, Malloc),
              At(MADE_MEMORY, MADE_HISTORY, GetLock, AddInit(TASK)));
    ReachesOn(EMPTY, At(MADE_MEMORY, MADE_HISTORY, GetLock, AddInit(TASK)), ALLOCATED);
  }

  lemma Locked()
    ensures Reaches(ALLOCATED, At(LOCKED_MEMORY, LOCKED_HISTORY, GetLock, AddLink(TASK)))
  {
    CallerStep(MADE_MEMORY, MADE_HISTORY, GetLock, AddTas(TASK), LOCKED_MEMORY, LOCKED_HISTORY, AddLink(TASK));
  }

  /** links it under the spinlock, */
  lemma Linked()
    ensures Reaches(ALLOCATED, LINKED)
  {
    Locked();
    assert map[TASK := CALLER] - {TASK} == map[] && [] + [TASK] == [TASK];
    CallerStep(LOCKED_MEMORY, LOCKED_HISTORY, GetLock, AddLink(TASK), LINKED_MEMORY, LINKED_HISTORY, AddTail(TASK));
    ReachesOn(ALLOCATED, At(LOCKED_MEMORY, LOCKED_HISTORY, GetLock, AddLink(TASK)), LINKED);
  }

  lemma Unlocked()
    ensures Reaches(LINKED, At(QUEUED_MEMORY, QUEUED_HISTORY, GetLock, Signal))
  {
    CallerStep(LINKED_MEMORY, LINKED_HISTORY, GetLock, AddTail(TASK), TAILED_MEMORY, LINKED_HISTORY, AddUnlock(TASK));
    CallerStep(TAILED_MEMORY, LINKED_HISTORY, GetLock, AddUnlock(TASK), QUEUED_MEMORY, QUEUED_HISTORY, Signal);
    ReachesOn(LINKED, At(TAILED_MEMORY, LINKED_HISTORY, GetLock, AddUnlock(TASK)),
              At(QUEUED_MEMORY, QUEUED_HISTORY, GetLock, Signal));
  }

  /** and signals while nobody is asleep. */
  lemma Signalled()
    ensures Reaches(LINKED, POSTED)
  {
    Unlocked();
    CallerStep(QUEUED_MEMORY, QUEUED_HISTORY, GetLock, Signal, QUEUED_MEMORY, QUEUED_HISTORY, Idle);
    ReachesOn(LINKED, At(QUEUED_MEMORY, QUEUED_HISTORY, GetLock, Signal), POSTED);
  }

  lemma TookMutex()
    ensures Reaches(POSTED, At(QUEUED_MEMORY.(mutex := Some(WORKER)), QUEUED_HISTORY, TestBlock, Idle))
  {
    WorkerStep(QUEUED_MEMORY, QUEUED_HISTORY, GetLock, Idle,
               QUEUED_MEMORY.(mutex := Some(WORKER)), QUEUED_HISTORY, TestBlock);
  }

  /** The worker goes on with its failed pop and falls asleep. */
  lemma FellAsleep()
    ensures Reaches(POSTED, LOST)
  {
    var m, h := QUEUED_MEMORY.(mutex := Some(WORKER)), QUEUED_HISTORY;
    TookMutex();
    WorkerStep(m, h, TestBlock, Idle, m, h, Wait);
    WorkerStep(m, h, Wait, Idle, QUEUED_MEMORY, h, Asleep);
    ReachesOn(POSTED, At(m, h, TestBlock, Idle), At(m, h, Wait, Idle));
    ReachesOn(POSTED, At(m, h, Wait, Idle), LOST);
  }

  lemma PoppedThenPosted()
    ensures Reaches(FRESH, POSTED)
  {
    BeganPop();
    FailedPop();
    ReachesOn(FRESH, At(NEW_MEMORY.(lock := true), NEW_HISTORY.(holder := Some(WORKER)), TestHead(false), Idle), EMPTY);
    Allocated();
    Linked();
    Signalled();
    ReachesOn(FRESH, EMPTY, ALLOCATED);
    ReachesOn(FRESH, ALLOCATED, LINKED);
    ReachesOn(FRESH, LINKED, POSTED);
  }

  lemma NobodyMoves(t: Tid, c: Choice)
    requires Enabled(LOST, t, c)
    ensures LOST.pcs[t] == Idle || LOST.pcs[t] == Asleep
  {
  }

  lemma Unserved(s: State)
    requires Same(s, LOST)
    ensures Queue(s.h) == [TASK] && !Served(s)
  {
    assert forall t :: t in LOST.pcs ==> !Looks(LOST.pcs[t]);
  }

  lemma Unheard(ss: seq<State>, es: seq<Event>)
    requires Run(ss, es) && Same(ss[|ss| - 1], LOST)
    ensures !Served(ss[|ss| - 1]) && exists i :: 0 <= i < |es| && !Heard(ss[i], es[i].thread)
  {
    Unserved(ss[|ss| - 1]);
    ServedRun(ss, es);
  }

  lemma SomeRun() returns (ss: seq<State>, es: seq<Event>)
    ensures Spans(ss, es, FRESH, LOST)
  {
    PoppedThenPosted();
    FellAsleep();
    ReachesOn(FRESH, POSTED, LOST);
    assert Same(FRESH, FRESH);
    ss, es :| Spans(ss, es, FRESH, LOST);
  }

  lemma FreshPool()
    ensures Init(FRESH)
  {
  }

  /**
   A run after which a task is queued, the only worker is asleep and nobody is shutting the pool down; from there
   no thread can take a step but to make a new call, or to wake up for no reason.
   */
  lemma SignalLost() returns (ss: seq<State>, es: seq<Event>)
    ensures Run(ss, es) && Same(ss[|ss| - 1], LOST)
    ensures Queue(LOST.h) == [TASK] && LOST.pcs[WORKER] == Asleep && LOST.m.block && !LOST.m.quit
    ensures forall t, c :: Enabled(LOST, t, c) ==> LOST.pcs[t] == Idle || LOST.pcs[t] == Asleep
    ensures !Served(ss[|ss| - 1]) && exists i :: 0 <= i < |es| && !Heard(ss[i], es[i].thread)
  {
    ss, es := SomeRun();
    FreshPool();
    Unserved(LOST);
    Unheard(ss, es);
    forall t, c | Enabled(LOST, t, c)
      ensures LOST.pcs[t] == Idle || LOST.pcs[t] == Asleep
    {
      NobodyMoves(t, c);
    }
  }
}

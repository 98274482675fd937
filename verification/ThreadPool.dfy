/**
 The thread pool as a state machine. Workers, callers of post and terminate, and the one thread that
 waits for the end interleave; one step is one access to shared memory, or one call of a mutex or
 condition-variable primitive. Atomics are sequentially consistent and everything else is guarded by a
 lock, so the interleavings are all there is.
 */
module ThreadPool {
  import opened Options

  type Tid = nat

  /** The address of a task record. */
  type Task = nat

  /** A slot that holds the address of a task: the queue's `head` field or a record's `next` field. */
  datatype Slot = HeadSlot | NextOf(task: Task)

  /** Where a thread stands: the access it makes next. */
  datatype Pc =
    // the worker loop
    | Check | Begin(task: Task) | Free(task: Task) | Running(task: Task) | Exited
    // __pop_task, by a worker or, draining, by the thread that destroys the queue
    | PopTas(drain: bool) | PopSpin(drain: bool) | TestHead(drain: bool) | TakeHead(drain: bool)
    | Advance(drain: bool, task: Task) | FixTail(drain: bool, task: Task)
    | PopUnlock(drain: bool, got: Option<Task>)
    // __get_task after a failed pop
    | GetLock | TestBlock | UnlockNull | Wait | Asleep | Woken | UnlockRetry
    // callers: thrdpool_post with __add_task, and thrdpool_terminate with __nonblock
    | Idle
    | PostCheck | Malloc | AddInit(task: Task) | AddTas(task: Task) | AddSpin(task: Task)
    | AddLink(task: Task) | AddTail(task: Task) | AddUnlock(task: Task) | Signal
    | StoreQuit | StopLock | StopClear | StopUnlock | Broadcast
    // thrdpool_waitdone with __taskqueue_destroy
    | Join(i: nat) | DrainFree(task: Task) | Destroyed

  /** Shared memory: the queue, the flags, and the `next` field of every record that is allocated. */
  datatype Memory = Memory(
    lock: bool,
    mutex: Option<Tid>,
    head: Option<Task>,
    tail: Slot,
    next: map<Task, Option<Task>>,
    block: bool,
    quit: bool
  )

  /**
   What has happened: which thread took the spinlock last and still has it, which records are in whose
   hands, all records ever allocated, those linked, popped and freed and the tasks begun, in order, how
   many each worker began after `quit` was stored, and whether a broadcast has followed the clearing of
   `block`.
   */
  datatype History = History(
    holder: Option<Tid>,
    owner: map<Task, Tid>,
    used: set<Task>,
    linked: seq<Task>,
    popped: seq<Task>,
    freed: seq<Task>,
    begun: seq<Task>,
    late: map<Tid, nat>,
    woken: bool
  )

  /**
   How often a thread has called __get_task, and got a task or NULL; called post, and linked a record or was
   refused; called terminate, and broadcast; and how many records it linked after `quit` was stored.
   */
  datatype Tally = Tally(gets: nat, got: nat, nulls: nat, posts: nat, links: nat, refused: nat, stops: nat, wakes: nat,
                         lateLinks: nat)

  /** The tasks whose functions were called, by record and in order, the records drained, and the tallies. */
  datatype Calls = Calls(ran: seq<Task>, drained: seq<Task>, tallies: map<Tid, Tally>)

  datatype State = State(m: Memory, h: History, calls: Calls, pcs: map<Tid, Pc>, workers: seq<Tid>, waiter: Tid)

  /**
   What a step leaves open: the record malloc returns and what is in it, whom a signal wakes, which call
   is made.
   */
  datatype Choice = Choice(task: Option<Task>, junk: Option<Task>, wake: set<Tid>, post: bool)

  // ---------- roles ----------

  predicate PopPc(pc: Pc) {
    pc.PopTas? || pc.PopSpin? || pc.TestHead? || pc.TakeHead? || pc.Advance? || pc.FixTail? || pc.PopUnlock?
  }

  predicate WaitPc(pc: Pc) {
    pc.GetLock? || pc.TestBlock? || pc.UnlockNull? || pc.Wait? || pc.Asleep? || pc.Woken? || pc.UnlockRetry?
  }

  predicate WorkerPc(pc: Pc) {
    pc.Check? || pc.Begin? || pc.Free? || pc.Running? || pc.Exited? || (PopPc(pc) && !pc.drain) || WaitPc(pc)
  }

  predicate DrainPc(pc: Pc) { pc.DrainFree? || pc.Destroyed? || (PopPc(pc) && pc.drain) }

  predicate CallerPc(pc: Pc) { !WorkerPc(pc) && !DrainPc(pc) && !pc.Join? }

  /** Between the exchange that takes the spinlock and the store that frees it. */
  predicate InCritical(pc: Pc) {
    || pc.TestHead? || pc.TakeHead? || pc.Advance? || pc.FixTail? || pc.PopUnlock?
    || pc.AddLink? || pc.AddTail? || pc.AddUnlock?
  }

  predicate HasMutex(pc: Pc) {
    pc.TestBlock? || pc.UnlockNull? || pc.Wait? || pc.UnlockRetry? || pc.StopClear? || pc.StopUnlock?
  }

  /** The task record a thread has in its hands: made and not yet linked, or popped and not yet freed. */
  function Hand(pc: Pc): Option<Task> {
    match pc
    case AddInit(x) => Some(x)
    case AddTas(x) => Some(x)
    case AddSpin(x) => Some(x)
    case AddLink(x) => Some(x)
    case FixTail(_, x) => Some(x)
    case PopUnlock(_, got) => got
    case Begin(x) => Some(x)
    case Free(x) => Some(x)
    case DrainFree(x) => Some(x)
    case _ => None
  }

  /** In a call of __get_task. */
  predicate Getting(pc: Pc) { (PopPc(pc) && !pc.drain) || WaitPc(pc) }

  /** In a call of post, past its check or not, with the record not yet linked. */
  predicate Posting(pc: Pc) { pc.PostCheck? || MayLink(pc) }

  predicate MayLink(pc: Pc) { pc.Malloc? || Unlinked(pc) }

  /** In a call of terminate that has not broadcast yet. */
  predicate Terminating(pc: Pc) {
    pc.StoreQuit? || pc.StopLock? || pc.StopClear? || pc.StopUnlock? || pc.Broadcast?
  }

  predicate Unlinked(pc: Pc) { pc.AddInit? || pc.AddTas? || pc.AddSpin? || pc.AddLink? }

  // ---------- steps ----------

  predicate Sleeps(s: State, t: Tid) { t in s.pcs && s.pcs[t] == Asleep }

  /** The threads once the sleepers among `ws` are awake. */
  function Wake(pcs: map<Tid, Pc>, ws: set<Tid>): map<Tid, Pc> {
    map t | t in pcs :: if t in ws && pcs[t] == Asleep then Woken else pcs[t]
  }

  predicate Draining(s: State) { s.waiter in s.pcs && DrainPc(s.pcs[s.waiter]) }

  predicate CallersIdle(s: State) {
    forall t :: t in s.pcs && CallerPc(s.pcs[t]) ==> s.pcs[t] == Idle
  }

  /** The records that a step from `pc` reads, writes or frees have not been freed. */
  predicate Live(m: Memory, pc: Pc) {
    match pc
    case TakeHead(_) => m.head.Some?
    case Advance(_, x) => x in m.next
    case Begin(x) => x in m.next
    case Free(x) => x in m.next
    case DrainFree(x) => x in m.next
    case AddInit(x) => x in m.next
    case AddLink(x) => m.tail.NextOf? ==> m.tail.task in m.next
    case _ => true
  }

  /**
   Whether thread `t` can take its step. A thread waits only for the mutex, for the workers it joins
   and, so that no call is in flight when the pool is destroyed, for the callers to be done.
   */
  predicate Enabled(s: State, t: Tid, c: Choice) {
    && t in s.pcs && Live(s.m, s.pcs[t])
    && match s.pcs[t]
       case Exited | Destroyed => false
       case GetLock | Woken | StopLock => s.m.mutex == None
       case Idle => !Draining(s)
       case Malloc => c.task.Some? ==> c.task.value !in s.h.used
       case Signal =>
         (forall w :: w in c.wake ==> Sleeps(s, w)) && (c.wake == {} ==> forall w :: w in s.pcs ==> !Sleeps(s, w))
       case Join(i) =>
         if i < |s.workers| then s.workers[i] in s.pcs && s.pcs[s.workers[i]] == Exited else CallersIdle(s)
       case _ => true
  }

  /** Where the step takes thread `t`. */
  function Next(s: State, t: Tid, c: Choice): Pc
    requires Enabled(s, t, c)
  {
    match s.pcs[t]
    // __thrdpool_worker
    case Check => if s.m.quit then Exited else PopTas(false)
    case Begin(x) => Free(x)
    case Free(x) => Running(x)
    case Running(_) => Check
    // __pop_task: spinlock_lock exchanges, and on failure reads until the lock looks free
    case PopTas(d) => if s.m.lock then PopSpin(d) else TestHead(d)
    case PopSpin(d) => if s.m.lock then PopSpin(d) else PopTas(d)
    case TestHead(d) => if s.m.head == None then PopUnlock(d, None) else TakeHead(d)
    case TakeHead(d) => Advance(d, s.m.head.value)
    case Advance(d, x) => FixTail(d, x)
    case FixTail(d, x) => PopUnlock(d, Some(x))
    case PopUnlock(d, got) =>
      if d then if got == None then Destroyed else DrainFree(got.value)
      else if got == None then GetLock else Begin(got.value)
    // __get_task
    case GetLock => TestBlock
    case TestBlock => if s.m.block then Wait else UnlockNull
    case UnlockNull => Exited
    case Wait => Asleep
    case Asleep => Woken
    case Woken => UnlockRetry
    case UnlockRetry => PopTas(false)
    // thrdpool_post, __add_task
    case Idle => if c.post then PostCheck else StoreQuit
    case PostCheck => if s.m.quit then Idle else Malloc
    case Malloc => if c.task == None then Idle else AddInit(c.task.value)
    case AddInit(x) => AddTas(x)
    case AddTas(x) => if s.m.lock then AddSpin(x) else AddLink(x)
    case AddSpin(x) => if s.m.lock then AddSpin(x) else AddTas(x)
    case AddLink(x) => AddTail(x)
    case AddTail(x) => AddUnlock(x)
    case AddUnlock(_) => Signal
    case Signal => Idle
    // thrdpool_terminate, __nonblock
    case StoreQuit => StopLock
    case StopLock => StopClear
    case StopClear => StopUnlock
    case StopUnlock => Broadcast
    case Broadcast => Idle
    // thrdpool_waitdone, __taskqueue_destroy
    case Join(i) => if i < |s.workers| then Join(i + 1) else PopTas(true)
    case DrainFree(_) => PopTas(true)
    case pc => pc
  }

  /** The `next` field of a record that is allocated. */
  function Link(m: Memory, x: Task): Option<Task> { if x in m.next then m.next[x] else None }

  /** `*queue->tail = link` */
  function StoreTail(m: Memory, x: Task): Memory {
    if m.tail == HeadSlot then m.(head := Some(x)) else m.(next := m.next[m.tail.task := Some(x)])
  }

  /** What the step writes to memory. */
  function Write(m: Memory, pc: Pc, t: Tid, c: Choice): Memory {
    match pc
    case PopTas(_) | AddTas(_) => m.(lock := true)
    case PopUnlock(_, _) | AddUnlock(_) => m.(lock := false)
    case Advance(_, x) => m.(head := Link(m, x))
    case FixTail(_, _) => if m.head == None then m.(tail := HeadSlot) else m
    case Free(x) => m.(next := m.next - {x})
    case DrainFree(x) => m.(next := m.next - {x})
    case GetLock | Woken | StopLock => m.(mutex := Some(t))
    case UnlockNull | Wait | UnlockRetry | StopUnlock => m.(mutex := None)
    case Malloc => if c.task == None then m else m.(next := m.next[c.task.value := c.junk])
    case AddInit(x) => m.(next := m.next[x := None])
    case AddLink(x) => StoreTail(m, x)
    case AddTail(x) => m.(tail := NextOf(x))
    case StoreQuit => m.(quit := true)
    case StopClear => m.(block := false)
    case _ => m
  }

  /** What the step adds to the history. */
  function Record(h: History, m: Memory, pc: Pc, t: Tid, c: Choice): History {
    match pc
    case PopTas(_) | AddTas(_) => if m.lock then h else h.(holder := Some(t))
    case PopUnlock(_, _) | AddUnlock(_) => h.(holder := None)
    case Malloc =>
      if c.task == None then h else h.(used := h.used + {c.task.value}, owner := h.owner[c.task.value := t])
    case AddLink(x) => h.(linked := h.linked + [x], owner := h.owner - {x})
    case Advance(_, x) => h.(popped := h.popped + [x], owner := h.owner[x := t])
    case DrainFree(x) => h.(freed := h.freed + [x], owner := h.owner - {x})
    case Free(x) =>
      h.(freed := h.freed + [x], owner := h.owner - {x}, begun := h.begun + [x],
         late := if m.quit then h.late[t := Late(h, t) + 1] else h.late)
    case Broadcast => h.(woken := true)
    case _ => h
  }

  function Late(h: History, t: Tid): nat { if t in h.late then h.late[t] else 0 }

  function TallyOf(k: Calls, t: Tid): Tally {
    if t in k.tallies then k.tallies[t] else Tally(0, 0, 0, 0, 0, 0, 0, 0, 0)
  }

  /** What the step adds to the tally of its thread. */
  function Tallied(y: Tally, m: Memory, pc: Pc, c: Choice): Tally {
    match pc
    case Check => if m.quit then y else y.(gets := y.gets + 1)
    case PopUnlock(d, got) => if d || got == None then y else y.(got := y.got + 1)
    case UnlockNull => y.(nulls := y.nulls + 1)
    case Idle => if c.post then y.(posts := y.posts + 1) else y.(stops := y.stops + 1)
    case PostCheck => if m.quit then y.(refused := y.refused + 1) else y
    case Malloc => if c.task == None then y.(refused := y.refused + 1) else y
    case AddLink(_) => y.(links := y.links + 1, lateLinks := if m.quit then y.lateLinks + 1 else y.lateLinks)
    case Broadcast => y.(wakes := y.wakes + 1)
    case _ => y
  }

  /** What the step adds to the account of calls. */
  function Account(k: Calls, m: Memory, pc: Pc, t: Tid, c: Choice): Calls {
    Calls(if pc.Running? then k.ran + [pc.task] else k.ran,
          if pc.DrainFree? then k.drained + [pc.task] else k.drained,
          k.tallies[t := Tallied(TallyOf(k, t), m, pc, c)])
  }

  /** The sleepers that the step wakes. */
  function Roused(s: State, t: Tid, c: Choice): set<Tid>
    requires t in s.pcs
  {
    if s.pcs[t].Signal? then c.wake else if s.pcs[t].Broadcast? then s.pcs.Keys else {}
  }

  /** The state after the step of thread `t`. */
  function After(s: State, t: Tid, c: Choice): State
    requires Enabled(s, t, c)
  {
    s.(m := Write(s.m, s.pcs[t], t, c), h := Record(s.h, s.m, s.pcs[t], t, c),
       calls := Account(s.calls, s.m, s.pcs[t], t, c),
       pcs := Wake(s.pcs[t := Next(s, t, c)], Roused(s, t, c)))
  }

  ghost predicate Init(s: State) {
    && s.m == Memory(false, None, None, HeadSlot, map[], true, false)
    && s.h == History(None, map[], {}, [], [], [], [], map[], false) && s.calls == Calls([], [], map[])
    && (forall t :: t in s.workers ==> t in s.pcs && s.pcs[t] == Check)
    && s.waiter in s.pcs && s.waiter !in s.workers && s.pcs[s.waiter] == Join(0)
    && (forall t :: t in s.pcs && t !in s.workers && t != s.waiter ==> s.pcs[t] == Idle)
  }

  datatype Event = Event(thread: Tid, choice: Choice)

  ghost predicate Leads(s: State, e: Event, s': State) {
    var ok := Enabled(s, e.thread, e.choice) && s' == After(s, e.thread, e.choice);
    ok
  }

  /** The step of one thread leads from each state to the next. */
  ghost predicate Path(ss: seq<State>, es: seq<Event>) {
    |ss| == |es| + 1 && forall i :: 0 <= i < |es| ==> Leads(ss[i], es[i], ss[i + 1])
  }

  /** A run starts with a new pool. */
  ghost predicate Run(ss: seq<State>, es: seq<Event>) { Path(ss, es) && Init(ss[0]) }
}

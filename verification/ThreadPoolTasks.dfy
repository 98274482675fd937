/** Where the task records are, in every state the thread pool can reach. */
module ThreadPoolTasks {
  import opened Options
  import opened Sequences
  import opened ThreadPool
  import opened ThreadPoolSafety

  /** The records linked and not yet popped. */
  ghost function Queue(h: History): seq<Task> {
    if |h.popped| <= |h.linked| then h.linked[|h.popped|..] else []
  }

  function First(q: seq<Task>): Option<Task> { if q == [] then None else Some(q[0]) }

  /** The slot that ends the queue. */
  function EndSlot(q: seq<Task>): Slot { if q == [] then HeadSlot else NextOf(q[|q| - 1]) }

  // ---------- the ledger: every record is in one place ----------

  /**
   Every allocated record is in exactly one place: in a thread's hands, in the queue, or freed. What is
   popped is the front part of what was linked, in that order.
   */
  ghost predicate Ledger(m: Memory, h: History) { Logs(h) && Places(m.next.Keys, h) }

  ghost predicate Logs(h: History) {
    var kept :=
      && h.popped <= h.linked && NoDuplicates(h.linked) && NoDuplicates(h.freed) && NoDuplicates(h.begun)
      && (forall x :: x in h.freed ==> x in h.popped)
      && (forall x :: x in h.begun ==> x in h.freed);
    kept
  }

  ghost predicate Places(inUse: set<Task>, h: History) {
    var kept :=
      && (forall x :: x in inUse <==> x in h.owner || x in Queue(h))
      && (forall x :: x in h.used <==> x in inUse || x in h.freed)
      && (forall x :: x in h.owner ==> x !in Queue(h) && x !in h.freed)
      && (forall x :: x in h.popped ==> x in h.freed || x in h.owner);
    kept
  }

  lemma QueueApart(h: History)
    requires h.popped <= h.linked && NoDuplicates(h.linked)
    ensures h.linked == h.popped + Queue(h) && NoDuplicates(Queue(h))
    ensures forall x :: x in Queue(h) ==> x !in h.popped
  {
    forall x | x in Queue(h)
      ensures x !in h.popped
    {
      var j :| 0 <= j < |Queue(h)| && Queue(h)[j] == x;
      assert h.linked[|h.popped| + j] == x;
      assert forall i :: 0 <= i < |h.popped| ==> h.popped[i] == h.linked[i];
    }
  }

  lemma LedgerAllocated(m: Memory, h: History, x: Task, junk: Option<Task>, t: Tid)
    requires Ledger(m, h) && x !in h.used
    ensures Ledger(m.(next := m.next[x := junk]), h.(used := h.used + {x}, owner := h.owner[x := t]))
  {
  }

  lemma LedgerLinked(m: Memory, m': Memory, h: History, x: Task)
    requires Ledger(m, h) && x in h.owner && x !in h.linked && m'.next.Keys == m.next.Keys
    ensures Ledger(m', h.(linked := h.linked + [x], owner := h.owner - {x}))
    ensures Queue(h.(linked := h.linked + [x])) == Queue(h) + [x]
  {
    assert (h.linked + [x])[|h.popped|..] == Queue(h) + [x];
  }

  lemma QueuePopped(h: History)
    requires h.popped <= h.linked && NoDuplicates(h.linked) && Queue(h) != []
    ensures var x, popped := Queue(h)[0], h.popped + [Queue(h)[0]];
      && popped <= h.linked && Queue(h.(popped := popped)) == Queue(h)[1..]
      && x !in Queue(h)[1..] && x !in h.popped
      && forall y :: y in Queue(h) <==> y == x || y in Queue(h)[1..]
  {
    var q := Queue(h);
    QueueApart(h);
    assert h.linked[|h.popped| + 1..] == q[1..];
    FirstApart(q);
  }

  lemma FirstApart(q: seq<Task>)
    requires NoDuplicates(q) && q != []
    ensures q[0] !in q[1..] && forall y :: y in q <==> y == q[0] || y in q[1..]
  {
    assert q == [q[0]] + q[1..];
  }

  lemma LedgerPopped(m: Memory, m': Memory, h: History, t: Tid)
    requires Ledger(m, h) && Queue(h) != [] && m'.next.Keys == m.next.Keys
    ensures Ledger(m', h.(popped := h.popped + [Queue(h)[0]], owner := h.owner[Queue(h)[0] := t]))
    ensures Queue(h.(popped := h.popped + [Queue(h)[0]])) == Queue(h)[1..]
  {
    QueuePopped(h);
    var x := Queue(h)[0];
    var h' := h.(popped := h.popped + [x], owner := h.owner[x := t]);
    assert Queue(h') == Queue(h)[1..];
    assert Places(m'.next.Keys, h');
  }

  lemma LedgerFreed(m: Memory, h: History, x: Task, late: map<Tid, nat>)
    requires Ledger(m, h) && x in h.owner && x in h.popped
    ensures var h' := h.(freed := h.freed + [x], owner := h.owner - {x});
      && Ledger(m.(next := m.next - {x}), h')
      && Ledger(m.(next := m.next - {x}), h'.(begun := h.begun + [x], late := late))
  {
  }

  // ---------- the hands ----------

  /** Whoever is in the middle of something with a record is its one owner. */
  ghost predicate HandRules(s: State) {
    && (forall x :: x in s.h.owner ==> Holds(s.pcs, s.h.owner[x], x))
    && (forall t :: t in s.pcs ==> Owns(s.h.owner, t, Hand(s.pcs[t])))
  }

  ghost predicate Holds(pcs: map<Tid, Pc>, t: Tid, x: Task) { t in pcs && Hand(pcs[t]) == Some(x) }

  ghost predicate Owns(owner: map<Task, Tid>, t: Tid, hand: Option<Task>) {
    hand.Some? ==> hand.value in owner && owner[hand.value] == t
  }

  /** A record in hands is on its way in or out. */
  ghost predicate HandRule(h: History, pc: Pc) {
    var kept :=
      && (Unlinked(pc) ==> pc.task !in h.linked && pc.task in h.owner)
      && (Hand(pc).Some? && !Unlinked(pc) ==> Hand(pc).value in h.popped && Hand(pc).value in h.owner);
    kept
  }

  /** The link of a record has been cleared before it is linked in. */
  ghost predicate ClearRule(m: Memory, pc: Pc) {
    var kept := Cleared(pc) ==> pc.task in m.next && m.next[pc.task] == None;
    kept
  }

  predicate Cleared(pc: Pc) { pc.AddTas? || pc.AddSpin? || pc.AddLink? }

  lemma StepHand(s: State, t: Tid, c: Choice)
    requires Enabled(s, t, c)
    ensures var h, h', pc, pc' := s.h, Record(s.h, s.m, s.pcs[t], t, c), s.pcs[t], Next(s, t, c);
      if Hand(pc) == Hand(pc') then h'.owner == h.owner
      else if Hand(pc).Some? then Hand(pc') == None && h'.owner == h.owner - {Hand(pc).value}
      else h'.owner == h.owner[Hand(pc').value := t]
  {
    if RecordStep(s.pcs[t]) {
      StepHandMoves(s, t, c);
    } else {
      StepElsewhere(s.m, s.h, s.pcs[t], t, c);
      StepHandStays(s, t, c);
    }
  }

  lemma StepHandStays(s: State, t: Tid, c: Choice)
    requires Enabled(s, t, c) && !RecordStep(s.pcs[t])
    ensures Hand(Next(s, t, c)) == Hand(s.pcs[t])
  {
  }

  lemma StepHandMoves(s: State, t: Tid, c: Choice)
    requires Enabled(s, t, c) && RecordStep(s.pcs[t])
    ensures var h, h', pc, pc' := s.h, Record(s.h, s.m, s.pcs[t], t, c), s.pcs[t], Next(s, t, c);
      if Hand(pc) == Hand(pc') then h'.owner == h.owner
      else if Hand(pc).Some? then Hand(pc') == None && h'.owner == h.owner - {Hand(pc).value}
      else h'.owner == h.owner[Hand(pc').value := t]
  {
  }

  /** A record newly in hands was malloc'ed by this step or is the head of the queue. */
  lemma StepTakes(s: State, t: Tid, c: Choice)
    requires Enabled(s, t, c)
    ensures var pc, pc' := s.pcs[t], Next(s, t, c);
      Hand(pc') != Hand(pc) && Hand(pc').Some? ==>
        (pc.Malloc? && Hand(pc').value !in s.h.used) || (pc.Advance? && Hand(pc').value == pc.task)
  {
  }

  /** How a step changes the hands of thread `t` and who owns what. */
  ghost predicate HandStep(owner: map<Task, Tid>, owner': map<Task, Tid>, t: Tid, hand: Option<Task>,
                           hand': Option<Task>)
  {
    if hand == hand' then owner' == owner
    else if hand.Some? then hand' == None && owner' == owner - {hand.value}
    else hand'.value !in owner && owner' == owner[hand'.value := t]
  }

  lemma HandsElsewhere(s: State, t: Tid, c: Choice)
    requires Enabled(s, t, c)
    ensures var s' := After(s, t, c);
      && s'.pcs.Keys == s.pcs.Keys && Hand(s'.pcs[t]) == Hand(Next(s, t, c))
      && forall u :: u in s.pcs && u != t ==> Hand(s'.pcs[u]) == Hand(s.pcs[u])
  {
  }

  lemma HandsKept(s: State, t: Tid, c: Choice)
    requires HandRules(s) && Enabled(s, t, c)
    requires Hand(Next(s, t, c)).Some? && Hand(s.pcs[t]) == None ==> Hand(Next(s, t, c)).value !in s.h.owner
    ensures HandRules(After(s, t, c))
  {
    StepHand(s, t, c);
    HandsElsewhere(s, t, c);
    var s', hand, hand' := After(s, t, c), Hand(s.pcs[t]), Hand(Next(s, t, c));
    assert HandStep(s.h.owner, s'.h.owner, t, hand, hand');
    forall x | x in s'.h.owner
      ensures Holds(s'.pcs, s'.h.owner[x], x)
    {
      OwnerHolds(s, s', t, hand, hand', x);
    }
    forall u | u in s'.pcs
      ensures Owns(s'.h.owner, u, Hand(s'.pcs[u]))
    {
      assert Owns(s.h.owner, u, Hand(s.pcs[u]));
    }
  }

  lemma OwnerHolds(s: State, s': State, t: Tid, hand: Option<Task>, hand': Option<Task>, x: Task)
    requires HandRules(s) && HandStep(s.h.owner, s'.h.owner, t, hand, hand')
    requires t in s.pcs && Hand(s.pcs[t]) == hand && s'.pcs.Keys == s.pcs.Keys && Hand(s'.pcs[t]) == hand'
    requires forall u :: u in s.pcs && u != t ==> Hand(s'.pcs[u]) == Hand(s.pcs[u])
    requires x in s'.h.owner
    ensures Holds(s'.pcs, s'.h.owner[x], x)
  {
    if x in s.h.owner { assert Holds(s.pcs, s.h.owner[x], x); }
  }

  // ---------- the chain ----------

  /** The records of `q` linked through their `next` fields. */
  ghost predicate Chained(next: map<Task, Option<Task>>, q: seq<Task>) {
    && (forall x :: x in q ==> x in next)
    && (forall i, j :: 0 <= i < j < |q| && j == i + 1 ==> next[q[i]] == Some(q[j]))
    && (q != [] ==> next[q[|q| - 1]] == None)
  }

  /**
   The queue in memory, while the thread in the critical section is at `pc`. Between the two stores of
   __add_task `tail` is one record behind; after the last record was taken it names the record that was
   taken; otherwise it is the slot that ends the queue.
   */
  ghost predicate QueueRule(m: Memory, q: seq<Task>, pc: Pc) {
    var kept :=
      && m.head == First(q)
      && (pc.TakeHead? ==> q != [])
      && (pc.Advance? ==> q != [] && q[0] == pc.task)
      && (pc.AddTail? ==> q != [] && q[|q| - 1] == pc.task)
      && m.tail == (if pc.AddTail? && q != [] then EndSlot(q[..|q| - 1])
                    else if pc.FixTail? && q == [] then NextOf(pc.task)
                    else EndSlot(q));
    kept
  }

  /** Where the thread in the critical section is; any other place when there is none. */
  function CriticalPc(s: State): Pc {
    if s.h.holder.Some? && s.h.holder.value in s.pcs then s.pcs[s.h.holder.value] else Idle
  }

  ghost predicate QueueRules(s: State) {
    && Chained(s.m.next, Queue(s.h))
    && QueueRule(s.m, Queue(s.h), CriticalPc(s))
  }

  /** All of the above. */
  ghost predicate TaskRules(s: State) {
    && Ledger(s.m, s.h)
    && HandRules(s)
    && (forall t :: t in s.pcs ==> HandRule(s.h, s.pcs[t]))
    && (forall t :: t in s.pcs ==> ClearRule(s.m, s.pcs[t]))
    && QueueRules(s)
  }

  lemma CriticalStep(s: State, t: Tid, c: Choice)
    requires LockRules(s) && Enabled(s, t, c)
    ensures var pc, pc' := s.pcs[t], Next(s, t, c);
      && (InCritical(pc) ==> CriticalPc(s) == pc)
      && (!InCritical(pc) && InCritical(pc') ==> CriticalPc(s) == Idle)
      && CriticalPc(After(s, t, c)) == if InCritical(pc') then pc' else if InCritical(pc) then Idle else CriticalPc(s)
  {
    StepLock(s, t, c);
  }

  lemma ChainPopped(next: map<Task, Option<Task>>, q: seq<Task>)
    requires Chained(next, q) && q != []
    ensures Chained(next, q[1..]) && next[q[0]] == First(q[1..])
  {
  }

  lemma ChainLinked(m: Memory, q: seq<Task>, x: Task)
    requires Chained(m.next, q) && NoDuplicates(q) && m.head == First(q) && m.tail == EndSlot(q)
    requires x in m.next && m.next[x] == None && x !in q
    ensures Live(m, AddLink(x))
    ensures var m' := StoreTail(m, x);
      && Chained(m'.next, q + [x]) && m'.head == First(q + [x]) && m'.tail == m.tail
      && m'.next.Keys == m.next.Keys
      && forall y :: y in m.next && y !in q ==> m'.next[y] == m.next[y]
  {
  }

  predicate QueueStep(pc: Pc) { pc.Advance? || pc.AddLink? || pc.AddTail? || pc.FixTail? }

  /** Steps that allocate, link, pop or free a record, or write one. */
  predicate RecordStep(pc: Pc) {
    pc.Malloc? || pc.AddInit? || pc.AddLink? || pc.Advance? || pc.Free? || pc.DrainFree?
  }

  /** What the thread that steps from `pc` can rely on. */
  ghost predicate Ready(m: Memory, h: History, pc: Pc, c: Choice) {
    var ready :=
      && Live(m, pc) && Ledger(m, h) && HandRule(h, pc) && ClearRule(m, pc) && Chained(m.next, Queue(h))
      && (InCritical(pc) ==> QueueRule(m, Queue(h), pc))
      && (pc.Malloc? && c.task.Some? ==> c.task.value !in h.used);
    ready
  }

  /** The case of each step that moves a record. */
  lemma LedgerMoves(m: Memory, h: History, t: Tid, c: Choice)
    requires Ledger(m, h)
    ensures c.task.Some? && c.task.value !in h.used ==> Ledger(Write(m, Malloc, t, c), Record(h, m, Malloc, t, c))
    ensures c.task == None ==> Ledger(Write(m, Malloc, t, c), Record(h, m, Malloc, t, c))
  {
    if c.task.Some? && c.task.value !in h.used { LedgerAllocated(m, h, c.task.value, c.junk, t); }
  }

  lemma LedgerLink(m: Memory, h: History, x: Task, t: Tid, c: Choice)
    requires Ready(m, h, AddLink(x), c)
    ensures Ledger(Write(m, AddLink(x), t, c), Record(h, m, AddLink(x), t, c))
  {
    QueueApart(h);
    ChainLinked(m, Queue(h), x);
    LedgerLinked(m, Write(m, AddLink(x), t, c), h, x);
  }

  lemma LedgerPop(m: Memory, h: History, d: bool, x: Task, t: Tid, c: Choice)
    requires Ready(m, h, Advance(d, x), c)
    ensures Ledger(Write(m, Advance(d, x), t, c), Record(h, m, Advance(d, x), t, c))
  {
    LedgerPopped(m, Write(m, Advance(d, x), t, c), h, t);
  }

  lemma LedgerFree(m: Memory, h: History, pc: Pc, t: Tid, c: Choice)
    requires Ready(m, h, pc, c) && (pc.Free? || pc.DrainFree?)
    ensures Ledger(Write(m, pc, t, c), Record(h, m, pc, t, c))
  {
    LedgerFreed(m, h, pc.task, Record(h, m, pc, t, c).late);
  }

  lemma StepElsewhere(m: Memory, h: History, pc: Pc, t: Tid, c: Choice)
    requires !RecordStep(pc)
    ensures Write(m, pc, t, c).next == m.next
    ensures Record(h, m, pc, t, c).(holder := h.holder, woken := h.woken) == h
  {
  }

  lemma LedgerSame(m: Memory, m': Memory, h: History, h': History)
    requires Ledger(m, h) && m'.next == m.next && h'.(holder := h.holder, woken := h.woken) == h
    ensures Ledger(m', h')
  {
  }

  lemma LedgerElsewhere(m: Memory, h: History, pc: Pc, t: Tid, c: Choice)
    requires Ledger(m, h) && !RecordStep(pc)
    ensures Ledger(Write(m, pc, t, c), Record(h, m, pc, t, c))
  {
    StepElsewhere(m, h, pc, t, c);
    LedgerSame(m, Write(m, pc, t, c), h, Record(h, m, pc, t, c));
  }

  lemma LedgerClear(m: Memory, h: History, x: Task, t: Tid, c: Choice)
    requires Ledger(m, h) && x in m.next
    ensures Ledger(Write(m, AddInit(x), t, c), Record(h, m, AddInit(x), t, c))
  {
    var m' := m.(next := m.next[x := None]);
    SameKeys(m.next, x);
    LedgerKeys(m, m', h);
    ClearSteps(m, h, x, t, c);
  }

  lemma ClearSteps(m: Memory, h: History, x: Task, t: Tid, c: Choice)
    ensures Write(m, AddInit(x), t, c) == m.(next := m.next[x := None]) && Record(h, m, AddInit(x), t, c) == h
  {
  }

  lemma SameKeys(next: map<Task, Option<Task>>, x: Task)
    requires x in next
    ensures next[x := None].Keys == next.Keys
  {
  }

  lemma LedgerKeys(m: Memory, m': Memory, h: History)
    requires Ledger(m, h) && m'.next.Keys == m.next.Keys
    ensures Ledger(m', h)
  {
  }

  lemma LedgerKept(m: Memory, h: History, pc: Pc, t: Tid, c: Choice)
    requires Ready(m, h, pc, c)
    ensures Ledger(Write(m, pc, t, c), Record(h, m, pc, t, c))
  {
    if !RecordStep(pc) {
      LedgerElsewhere(m, h, pc, t, c);
    } else if pc.Malloc? {
      LedgerMoves(m, h, t, c);
    } else if pc.AddLink? {
      LedgerLink(m, h, pc.task, t, c);
    } else if pc.Advance? {
      LedgerPop(m, h, pc.drain, pc.task, t, c);
    } else if pc.AddInit? {
      LedgerClear(m, h, pc.task, t, c);
    } else {
      LedgerFree(m, h, pc, t, c);
    }
  }

  lemma QueueLink(m: Memory, q: seq<Task>, x: Task)
    requires Chained(m.next, q) && QueueRule(m, q, AddLink(x)) && NoDuplicates(q)
    requires x in m.next && m.next[x] == None && x !in q && Live(m, AddLink(x))
    ensures var m' := StoreTail(m, x);
      Chained(m'.next, q + [x]) && QueueRule(m', q + [x], AddTail(x))
  {
    ChainLinked(m, q, x);
    assert (q + [x])[..|q|] == q;
  }

  lemma QueuePop(m: Memory, q: seq<Task>, d: bool, x: Task)
    requires Chained(m.next, q) && QueueRule(m, q, Advance(d, x)) && x in m.next
    ensures Chained(m.next, q[1..]) && QueueRule(m.(head := m.next[x]), q[1..], FixTail(d, x))
  {
    ChainPopped(m.next, q);
  }

  lemma QueueTail(m: Memory, q: seq<Task>, x: Task)
    requires QueueRule(m, q, AddTail(x))
    ensures QueueRule(m.(tail := NextOf(x)), q, AddUnlock(x))
  {
  }

  lemma QueueFix(m: Memory, q: seq<Task>, d: bool, x: Task)
    requires QueueRule(m, q, FixTail(d, x))
    ensures QueueRule(if m.head == None then m.(tail := HeadSlot) else m, q, PopUnlock(d, Some(x)))
  {
  }

  /** The other steps leave the queue alone. */
  lemma SameEnds(m: Memory, h: History, pc: Pc, t: Tid, c: Choice)
    requires !QueueStep(pc)
    ensures Write(m, pc, t, c).head == m.head && Write(m, pc, t, c).tail == m.tail
    ensures Queue(Record(h, m, pc, t, c)) == Queue(h)
  {
    SameQueue(m, h, pc, t, c);
  }

  lemma SameQueue(m: Memory, h: History, pc: Pc, t: Tid, c: Choice)
    requires !QueueStep(pc)
    ensures Queue(Record(h, m, pc, t, c)) == Queue(h)
  {
  }

  lemma SameLinks(m: Memory, q: seq<Task>, pc: Pc, t: Tid, c: Choice)
    requires !QueueStep(pc) && Chained(m.next, q)
    requires pc.AddInit? || pc.Free? || pc.DrainFree? ==> pc.task !in q
    requires pc.Malloc? && c.task.Some? ==> c.task.value !in q
    ensures forall x :: x in q ==> x in Write(m, pc, t, c).next && Write(m, pc, t, c).next[x] == m.next[x]
  {
    if !RecordStep(pc) {
      assert Write(m, pc, t, c).next == m.next;
    }
  }

  lemma QueueElsewhere(m: Memory, h: History, pc: Pc, t: Tid, c: Choice)
    requires !QueueStep(pc) && Chained(m.next, Queue(h))
    requires pc.AddInit? || pc.Free? || pc.DrainFree? ==> pc.task !in Queue(h)
    requires pc.Malloc? && c.task.Some? ==> c.task.value !in Queue(h)
    ensures var m', h' := Write(m, pc, t, c), Record(h, m, pc, t, c);
      && m'.head == m.head && m'.tail == m.tail && Queue(h') == Queue(h)
      && forall x :: x in Queue(h) ==> x in m'.next && m'.next[x] == m.next[x]
  {
    SameEnds(m, h, pc, t, c);
    SameLinks(m, Queue(h), pc, t, c);
  }

  /** A record in hands is not in the queue. */
  lemma OwnedNotQueued(m: Memory, h: History, x: Task)
    requires Ledger(m, h) && x in h.owner
    ensures x !in Queue(h)
  {
  }

  /** A record never allocated is not in the queue and has never been. */
  lemma UnusedNotQueued(m: Memory, h: History, x: Task)
    requires Ledger(m, h) && x !in h.used
    ensures x !in Queue(h) && x !in h.linked
  {
    QueueApart(h);
  }

  /** The record a step works on is not in the queue, nor is one newly allocated. */
  lemma NotQueued(m: Memory, h: History, pc: Pc, c: Choice)
    requires Ready(m, h, pc, c)
    ensures Hand(pc).Some? ==> Hand(pc).value !in Queue(h)
    ensures pc.Malloc? && c.task.Some? ==> c.task.value !in Queue(h) && c.task.value !in h.linked
  {
    if Hand(pc).Some? { OwnedNotQueued(m, h, Hand(pc).value); }
    if pc.Malloc? && c.task.Some? { UnusedNotQueued(m, h, c.task.value); }
  }

  /** The steps outside the queue's own lead to no place where the queue rule says more. */
  lemma QueuePlace(s: State, t: Tid, c: Choice)
    requires Enabled(s, t, c) && !QueueStep(s.pcs[t]) && s.m.head == First(Queue(s.h))
    requires QueueRule(s.m, Queue(s.h), if InCritical(s.pcs[t]) then s.pcs[t] else Idle)
    ensures QueueRule(s.m, Queue(s.h), if InCritical(Next(s, t, c)) then Next(s, t, c) else Idle)
  {
  }

  lemma QueueUnmoved(m: Memory, m': Memory, q: seq<Task>, pc: Pc)
    requires Chained(m.next, q) && QueueRule(m, q, pc) && m'.head == m.head && m'.tail == m.tail
    requires forall x :: x in q ==> x in m'.next && m'.next[x] == m.next[x]
    ensures Chained(m'.next, q) && QueueRule(m', q, pc)
  {
  }

  lemma IsReady(s: State, t: Tid, c: Choice)
    requires LockRules(s) && TaskRules(s) && Enabled(s, t, c)
    ensures Ready(s.m, s.h, s.pcs[t], c)
  {
    assert InCritical(s.pcs[t]) ==> CriticalPc(s) == s.pcs[t];
  }

  lemma LinkMoves(m: Memory, h: History, x: Task, t: Tid, c: Choice)
    requires Chained(m.next, Queue(h)) && QueueRule(m, Queue(h), AddLink(x)) && Live(m, AddLink(x))
    requires ClearRule(m, AddLink(x)) && NoDuplicates(Queue(h)) && x !in Queue(h) && |h.popped| <= |h.linked|
    ensures var m', h' := Write(m, AddLink(x), t, c), Record(h, m, AddLink(x), t, c);
      Chained(m'.next, Queue(h')) && QueueRule(m', Queue(h'), AddTail(x))
  {
    QueueLink(m, Queue(h), x);
    assert (h.linked + [x])[|h.popped|..] == Queue(h) + [x];
  }

  lemma PopMoves(m: Memory, h: History, d: bool, x: Task, t: Tid, c: Choice)
    requires Chained(m.next, Queue(h)) && QueueRule(m, Queue(h), Advance(d, x)) && Live(m, Advance(d, x))
    ensures var m', h' := Write(m, Advance(d, x), t, c), Record(h, m, Advance(d, x), t, c);
      Chained(m'.next, Queue(h')) && QueueRule(m', Queue(h'), FixTail(d, x))
  {
    QueuePop(m, Queue(h), d, x);
    assert Queue(h.(popped := h.popped + [x])) == Queue(h)[1..];
  }

  lemma QueueKept(s: State, t: Tid, c: Choice)
    requires LockRules(s) && TaskRules(s) && Enabled(s, t, c)
    ensures QueueRules(After(s, t, c))
  {
    CriticalStep(s, t, c);
    IsReady(s, t, c);
    var s', q := After(s, t, c), Queue(s.h);
    if s.pcs[t].AddLink? {
      QueueApart(s.h);
      NotQueued(s.m, s.h, s.pcs[t], c);
      LinkMoves(s.m, s.h, s.pcs[t].task, t, c);
    } else if s.pcs[t].Advance? {
      PopMoves(s.m, s.h, s.pcs[t].drain, s.pcs[t].task, t, c);
    } else if s.pcs[t].AddTail? {
      QueueTail(s.m, q, s.pcs[t].task);
    } else if s.pcs[t].FixTail? {
      QueueFix(s.m, q, s.pcs[t].drain, s.pcs[t].task);
    } else {
      NotQueued(s.m, s.h, s.pcs[t], c);
      QueueElsewhere(s.m, s.h, s.pcs[t], t, c);
      if InCritical(s.pcs[t]) || InCritical(Next(s, t, c)) {
        QueuePlace(s, t, c);
      }
      QueueUnmoved(s.m, s'.m, q, CriticalPc(s'));
    }
  }

  /** A record that is in nobody's hands here, nor last in the queue, is left alone. */
  lemma RecordApart(m: Memory, pc: Pc, t: Tid, c: Choice, x: Task)
    requires x in m.next && Hand(pc) != Some(x)
    requires pc.Malloc? ==> c.task != Some(x)
    requires pc.AddLink? ==> m.tail != NextOf(x)
    ensures var m' := Write(m, pc, t, c); x in m'.next && m'.next[x] == m.next[x]
  {
  }

  /** Records in other hands are left alone. */
  lemma MemoryApart(m: Memory, h: History, pc: Pc, t: Tid, c: Choice, x: Task)
    requires Ready(m, h, pc, c) && x in h.owner && Hand(pc) != Some(x)
    ensures var m' := Write(m, pc, t, c); x in m'.next && m'.next[x] == m.next[x]
  {
    assert x in m.next && x in h.used && x !in Queue(h);
    RecordApart(m, pc, t, c, x);
  }

  lemma HistoryApart(m: Memory, h: History, pc: Pc, t: Tid, c: Choice, x: Task)
    requires x in h.owner && Hand(pc) != Some(x)
    ensures var h' := Record(h, m, pc, t, c);
      x in h'.owner && (x in h'.linked ==> x in h.linked) && (x in h.popped ==> x in h'.popped)
  {
  }

  /** The step keeps the rules for the record in its own hands. */
  lemma StepHandRule(s: State, t: Tid, c: Choice)
    requires Enabled(s, t, c) && HandRule(s.h, s.pcs[t])
    requires s.pcs[t].Malloc? && c.task.Some? ==> c.task.value !in s.h.linked
    ensures HandRule(Record(s.h, s.m, s.pcs[t], t, c), Next(s, t, c))
  {
    if RecordStep(s.pcs[t]) {
      StepHandRuleMoves(s, t, c);
    } else {
      StepElsewhere(s.m, s.h, s.pcs[t], t, c);
      StepHandStays(s, t, c);
      StepUnlinked(s, t, c);
    }
  }

  lemma StepUnlinked(s: State, t: Tid, c: Choice)
    requires Enabled(s, t, c) && !RecordStep(s.pcs[t])
    ensures Unlinked(Next(s, t, c)) <==> Unlinked(s.pcs[t])
    ensures Unlinked(s.pcs[t]) ==> Next(s, t, c).task == s.pcs[t].task
  {
  }

  lemma StepHandRuleMoves(s: State, t: Tid, c: Choice)
    requires Enabled(s, t, c) && HandRule(s.h, s.pcs[t]) && RecordStep(s.pcs[t])
    requires s.pcs[t].Malloc? && c.task.Some? ==> c.task.value !in s.h.linked
    ensures HandRule(Record(s.h, s.m, s.pcs[t], t, c), Next(s, t, c))
  {
  }

  lemma StepClearRule(s: State, t: Tid, c: Choice)
    requires Enabled(s, t, c) && ClearRule(s.m, s.pcs[t])
    ensures ClearRule(Write(s.m, s.pcs[t], t, c), Next(s, t, c))
  {
  }

  lemma OtherHand(m: Memory, h: History, pc: Pc, t: Tid, c: Choice, other: Pc)
    requires HandRule(h, other) && (Hand(other).Some? ==> Hand(other) != Hand(pc))
    ensures HandRule(Record(h, m, pc, t, c), other)
  {
    if Hand(other).Some? { HistoryApart(m, h, pc, t, c, Hand(other).value); }
  }

  lemma OtherClear(m: Memory, h: History, pc: Pc, t: Tid, c: Choice, other: Pc)
    requires Ready(m, h, pc, c) && HandRule(h, other) && (Hand(other).Some? ==> Hand(other) != Hand(pc))
    requires ClearRule(m, other)
    ensures ClearRule(Write(m, pc, t, c), other)
  {
    if Cleared(other) {
      ClearedHand(h, other);
      MemoryApart(m, h, pc, t, c, other.task);
    }
  }

  lemma ClearedHand(h: History, pc: Pc)
    requires HandRule(h, pc) && Cleared(pc)
    ensures Hand(pc) == Some(pc.task) && pc.task in h.owner
  {
  }

  /** Other threads stay where they are, or are woken. */
  lemma OthersStay(s: State, t: Tid, c: Choice, u: Tid)
    requires Enabled(s, t, c) && u in s.pcs && u != t
    ensures u in After(s, t, c).pcs
    ensures After(s, t, c).pcs[u] == s.pcs[u] || (s.pcs[u] == Asleep && After(s, t, c).pcs[u] == Woken)
  {
  }

  lemma HandRuleKept(s: State, t: Tid, c: Choice, u: Tid)
    requires HandRules(s) && Enabled(s, t, c) && Ready(s.m, s.h, s.pcs[t], c) && u in s.pcs
    requires HandRule(s.h, s.pcs[u]) && ClearRule(s.m, s.pcs[u])
    ensures HandRule(After(s, t, c).h, After(s, t, c).pcs[u]) && ClearRule(After(s, t, c).m, After(s, t, c).pcs[u])
  {
    if u == t {
      OwnRulesKept(s, t, c);
    } else {
      OtherRulesKept(s, t, c, u);
    }
  }

  lemma OtherRulesKept(s: State, t: Tid, c: Choice, u: Tid)
    requires HandRules(s) && Enabled(s, t, c) && Ready(s.m, s.h, s.pcs[t], c) && u in s.pcs && u != t
    requires HandRule(s.h, s.pcs[u]) && ClearRule(s.m, s.pcs[u])
    ensures HandRule(After(s, t, c).h, After(s, t, c).pcs[u]) && ClearRule(After(s, t, c).m, After(s, t, c).pcs[u])
  {
    OthersStay(s, t, c, u);
    OtherHands(s, t, u);
    OtherHand(s.m, s.h, s.pcs[t], t, c, s.pcs[u]);
    OtherClear(s.m, s.h, s.pcs[t], t, c, s.pcs[u]);
  }

  /** No two threads have the same record in hands. */
  lemma OtherHands(s: State, t: Tid, u: Tid)
    requires HandRules(s) && t in s.pcs && u in s.pcs && u != t
    ensures Hand(s.pcs[u]).Some? ==> Hand(s.pcs[u]) != Hand(s.pcs[t])
  {
    assert Owns(s.h.owner, t, Hand(s.pcs[t])) && Owns(s.h.owner, u, Hand(s.pcs[u]));
  }

  lemma OwnRulesKept(s: State, t: Tid, c: Choice)
    requires Enabled(s, t, c) && Ready(s.m, s.h, s.pcs[t], c)
    ensures HandRule(After(s, t, c).h, After(s, t, c).pcs[t]) && ClearRule(After(s, t, c).m, After(s, t, c).pcs[t])
  {
    NotQueued(s.m, s.h, s.pcs[t], c);
    StepHandRule(s, t, c);
    StepClearRule(s, t, c);
  }

  lemma TasksKept(s: State, t: Tid, c: Choice)
    requires LockRules(s) && TaskRules(s) && Enabled(s, t, c)
    ensures TaskRules(After(s, t, c))
  {
    IsReady(s, t, c);
    LedgerKept(s.m, s.h, s.pcs[t], t, c);
    StepTakes(s, t, c);
    HandsKept(s, t, c);
    QueueKept(s, t, c);
    forall u | u in s.pcs
      ensures HandRule(After(s, t, c).h, After(s, t, c).pcs[u]) && ClearRule(After(s, t, c).m, After(s, t, c).pcs[u])
    {
      HandRuleKept(s, t, c, u);
    }
  }
}

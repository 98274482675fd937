/** What holds in every state the thread pool can reach. */
module ThreadPoolSafety {
  import opened Options
  import opened ThreadPool

  /** Threads keep to their parts: workers, the thread that waits and drains, callers. */
  ghost predicate Roles(s: State) {
    && s.waiter in s.pcs && s.waiter !in s.workers
    && (forall t :: t in s.workers ==> t in s.pcs)
    && (forall t :: t in s.pcs ==> Part(s.pcs[t]) == if t in s.workers then 0 else if t == s.waiter then 1 else 2)
  }

  predicate WaiterPc(pc: Pc) { pc.Join? || DrainPc(pc) }

  function Part(pc: Pc): int { if WorkerPc(pc) then 0 else if WaiterPc(pc) then 1 else 2 }

  /** The spinlock admits one thread, the one that took it. */
  ghost predicate LockRules(s: State) {
    && (s.m.lock <==> s.h.holder.Some?)
    && (s.h.holder.Some? ==> s.h.holder.value in s.pcs)
    && (forall t :: t in s.pcs ==> (InCritical(s.pcs[t]) <==> s.h.holder == Some(t)))
  }

  ghost predicate MutexRules(s: State) {
    && (s.m.mutex.Some? ==> s.m.mutex.value in s.pcs)
    && (forall t :: t in s.pcs ==> (HasMutex(s.pcs[t]) <==> s.m.mutex == Some(t)))
  }

  predicate Stopping(pc: Pc) { pc.StopUnlock? || pc.Broadcast? }

  /** `block` is cleared only under way to a broadcast, and nobody falls asleep once it is clear. */
  ghost predicate BlockRules(s: State) {
    && (!s.m.block ==> s.m.quit)
    && (s.h.woken ==> !s.m.block)
    && (forall t :: t in s.pcs ==> BlockRule(s.m, s.h.woken, s.pcs[t]))
    && (!s.m.block && !s.h.woken ==> exists t :: t in s.pcs && Stopping(s.pcs[t]))
  }

  ghost predicate BlockRule(m: Memory, woken: bool, pc: Pc) {
    && (pc.StopLock? || pc.StopClear? ==> m.quit)
    && (Stopping(pc) ==> !m.block)
    && (pc.Wait? ==> m.block)
    && (pc.UnlockNull? ==> !m.block)
    && (pc.Asleep? ==> !woken)
  }

  lemma StepPart(s: State, t: Tid, c: Choice)
    requires Enabled(s, t, c)
    ensures Part(Next(s, t, c)) == Part(s.pcs[t])
  {
  }

  /** The thread that steps holds exactly the locks its new place says. */
  lemma StepLock(s: State, t: Tid, c: Choice)
    requires Enabled(s, t, c) && (s.m.lock <==> s.h.holder.Some?)
    ensures
      var m', h' := Write(s.m, s.pcs[t], t, c), Record(s.h, s.m, s.pcs[t], t, c);
      var pc, pc' := s.pcs[t], Next(s, t, c);
      if InCritical(pc) == InCritical(pc') then m'.lock == s.m.lock && h'.holder == s.h.holder
      else if InCritical(pc') then !s.m.lock && m'.lock && h'.holder == Some(t)
      else !m'.lock && h'.holder == None
  {
  }

  lemma StepMutex(s: State, t: Tid, c: Choice)
    requires Enabled(s, t, c)
    ensures var m', pc, pc' := Write(s.m, s.pcs[t], t, c), s.pcs[t], Next(s, t, c);
      if HasMutex(pc) == HasMutex(pc') then m'.mutex == s.m.mutex
      else if HasMutex(pc') then s.m.mutex == None && m'.mutex == Some(t)
      else m'.mutex == None
  {
  }

  lemma StepFlags(s: State, t: Tid, c: Choice)
    requires Enabled(s, t, c)
    ensures var m', h', pc := Write(s.m, s.pcs[t], t, c), Record(s.h, s.m, s.pcs[t], t, c), s.pcs[t];
      && m'.block == (s.m.block && !pc.StopClear?) && m'.quit == (s.m.quit || pc.StoreQuit?)
      && h'.woken == (s.h.woken || pc.Broadcast?)
  {
  }

  lemma StepBlock(s: State, t: Tid, c: Choice)
    requires Enabled(s, t, c) && BlockRule(s.m, s.h.woken, s.pcs[t])
    ensures var pc, pc' := s.pcs[t], Next(s, t, c);
      && (pc'.StopLock? || pc'.StopClear? ==> s.m.quit || pc.StoreQuit?)
      && (Stopping(pc') ==> !s.m.block || pc.StopClear?)
      && (pc.StopClear? || pc.StopUnlock? ==> Stopping(pc'))
      && (pc'.Wait? ==> s.m.block && pc.TestBlock?)
      && (pc'.UnlockNull? ==> !s.m.block)
      && (pc'.Asleep? ==> s.m.block && pc.Wait?)
  {
  }

  lemma RolesKept(s: State, t: Tid, c: Choice)
    requires Roles(s) && Enabled(s, t, c)
    ensures Roles(After(s, t, c))
  {
    StepPart(s, t, c);
  }

  lemma LockKept(s: State, t: Tid, c: Choice)
    requires LockRules(s) && Enabled(s, t, c)
    ensures LockRules(After(s, t, c))
  {
    StepLock(s, t, c);
  }

  lemma MutexKept(s: State, t: Tid, c: Choice)
    requires MutexRules(s) && Enabled(s, t, c)
    ensures MutexRules(After(s, t, c))
  {
    StepMutex(s, t, c);
  }

  lemma BlockKept(s: State, t: Tid, c: Choice)
    requires MutexRules(s) && BlockRules(s) && Enabled(s, t, c)
    ensures BlockRules(After(s, t, c))
  {
    StepFlags(s, t, c);
    StepBlock(s, t, c);
    var s' := After(s, t, c);
    if !s'.m.block && !s'.h.woken {
      if s.m.block {
        assert Stopping(s'.pcs[t]);
      } else {
        var u :| u in s.pcs && Stopping(s.pcs[u]);
        assert Stopping(s'.pcs[u]);
      }
    }
  }
}

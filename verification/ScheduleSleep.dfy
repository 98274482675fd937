/** Sleeping: deadlines, the pass that resumes expired sleepers, and the timeout given to epoll. */
module ScheduleSleep {
  import opened Schedule

  /** The deadline that each live coroutine sleeps until, or last slept until; the sleep tree; the clock. */
  datatype Sleepers = Sleepers(deadlines: map<Coroutine, nat>, sleeping: map<nat, Coroutine>, clock: nat)

  ghost function Look(s: Scheduler): Sleepers
    reads s`live, s`sleeping, s`clock, s.live
  {
    Sleepers(map co | co in s.live :: co.sleepUsecs, s.sleeping, s.clock)
  }

  /**
   What holds as long as sleepers leave the tree only by expiry or by sleeping again. A sleeper is in
   the tree under its own deadline; the stale deadline of a coroutine that is awake has passed and is
   no other sleeper's.
   */
  ghost predicate Kept(v: Sleepers) {
    && (forall d :: d in v.sleeping ==> d > 0 && v.sleeping[d] in v.deadlines && v.deadlines[v.sleeping[d]] == d)
    && (forall co :: co in v.deadlines && v.deadlines[co] in v.sleeping ==> v.sleeping[v.deadlines[co]] == co)
    && (forall co :: co in v.deadlines ==> v.deadlines[co] in v.sleeping || v.deadlines[co] <= v.clock)
  }

  ghost predicate SleepKept(s: Scheduler)
    reads s`live, s`sleeping, s`clock, s.live
  {
    Kept(Look(s))
  }

  ghost predicate Asleep(v: Sleepers, co: Coroutine) { exists d :: d in v.sleeping && v.sleeping[d] == co }

  /** The stale deadline of a coroutine that is awake is held by nobody. */
  lemma StaleUnheld(v: Sleepers, co: Coroutine)
    requires Kept(v) && co in v.deadlines
    ensures Asleep(v, co) <==> v.deadlines[co] in v.sleeping
  {
    if v.deadlines[co] in v.sleeping { assert v.sleeping[v.deadlines[co]] == co; }
  }

  /** The least deadline from `d` on that no sleeper has. */
  ghost predicate LeastUnheld(sleeping: map<nat, Coroutine>, d: nat, e: nat) {
    d <= e && e !in sleeping && forall x :: d <= x < e ==> x in sleeping
  }

  ghost function HeldFrom(sleeping: map<nat, Coroutine>, d: nat): set<nat> { set x | x in sleeping && x >= d }

  /** The sleep tree without the coroutine, if it is there. */
  ghost function Others(sleeping: map<nat, Coroutine>, co: Coroutine): map<nat, Coroutine> {
    map d | d in sleeping && sleeping[d] != co :: sleeping[d]
  }

  // ---------- runs of any calls ----------

  /** The calls that concern sleeping. */
  datatype Call =
    Create(co: Coroutine) | Sleep(co: Coroutine, msecs: nat) | Expire(deadline: nat) | NoneExpires | End(co: Coroutine)

  /** The call leads from `v` to `v'`. The clock does not run backwards. */
  ghost predicate Does(v: Sleepers, call: Call, v': Sleepers) {
    && v.clock <= v'.clock
    && match call
       case Create(co) => co !in v.deadlines && v' == v.(deadlines := v.deadlines[co := 0], clock := v'.clock)
       case Sleep(co, msecs) => co in v.deadlines && msecs > 0 && Slept(v, co, msecs, v')
       case Expire(d) =>
         Earliest(v.sleeping, d) && d <= v'.clock && v' == v.(sleeping := v.sleeping - {d}, clock := v'.clock)
       case NoneExpires => (forall d :: d in v.sleeping ==> d > v'.clock) && v' == v.(clock := v'.clock)
       case End(co) => co in v.deadlines && v' == v.(deadlines := v.deadlines - {co}, clock := v'.clock)
  }

  ghost predicate Earliest(sleeping: map<nat, Coroutine>, d: nat) {
    d in sleeping && forall e :: e in sleeping ==> d <= e
  }

  /** Whoever is found under the old deadline leaves the tree; the caller enters it under the first free deadline. */
  ghost predicate Slept(v: Sleepers, co: Coroutine, msecs: nat, v': Sleepers)
    requires co in v.deadlines
  {
    var rest := v.sleeping - {v.deadlines[co]};
    && co in v'.deadlines && LeastUnheld(rest, v'.clock + msecs * 1000, v'.deadlines[co])
    && v' == Sleepers(v.deadlines[co := v'.deadlines[co]], rest[v'.deadlines[co] := co], v'.clock)
  }

  /** Nobody ends while in the sleep tree. */
  ghost predicate Guarded(v: Sleepers, call: Call) { call.End? ==> !Asleep(v, call.co) }

  lemma CreateKept(v: Sleepers, co: Coroutine, v': Sleepers)
    requires Kept(v) && Does(v, Call.Create(co), v')
    ensures Kept(v')
  {
  }

  /** The entry found under the caller's old deadline can only be its own. */
  lemma OwnEntry(v: Sleepers, co: Coroutine)
    requires Kept(v) && co in v.deadlines
    ensures v.sleeping - {v.deadlines[co]} == Others(v.sleeping, co)
  {
  }

  lemma SleepStepKept(v: Sleepers, co: Coroutine, msecs: nat, v': Sleepers)
    requires Kept(v) && Does(v, Sleep(co, msecs), v')
    ensures Kept(v')
  {
    OwnEntry(v, co);
  }

  lemma ExpireKept(v: Sleepers, d: nat, v': Sleepers)
    requires Kept(v) && Does(v, Expire(d), v')
    ensures Kept(v')
  {
  }

  lemma EndKept(v: Sleepers, co: Coroutine, v': Sleepers)
    requires Kept(v) && Does(v, Call.End(co), v')
    ensures Kept(v') <==> !Asleep(v, co)
  {
  }

  /** Every call keeps the rules, but for the end of a coroutine that is in the tree. */
  lemma StepKept(v: Sleepers, call: Call, v': Sleepers)
    requires Kept(v) && Does(v, call, v')
    ensures Kept(v') <==> Guarded(v, call)
  {
    match call
    case Create(co) => CreateKept(v, co, v');
    case Sleep(co, msecs) => SleepStepKept(v, co, msecs, v');
    case Expire(d) => ExpireKept(v, d, v');
    case NoneExpires =>
    case End(co) => EndKept(v, co, v');
  }

  /** The calls lead from each state to the next. */
  ghost predicate Steps(vs: seq<Sleepers>, calls: seq<Call>) {
    |vs| == |calls| + 1 && forall i :: 0 <= i < |calls| ==> Does(vs[i], calls[i], vs[i + 1])
  }

  /** A run of a new scheduler: calls by any coroutines, asleep or not, in any order. */
  ghost predicate SleepRun(vs: seq<Sleepers>, calls: seq<Call>) {
    Steps(vs, calls) && vs[0].deadlines == map[] && vs[0].sleeping == map[]
  }

  lemma {:induction false} RunStays(vs: seq<Sleepers>, calls: seq<Call>, i: nat)
    requires SleepRun(vs, calls) && i < |vs| && forall k :: 0 <= k < i ==> Guarded(vs[k], calls[k])
    ensures Kept(vs[i])
  {
    if i > 0 {
      RunStays(vs, calls, i - 1);
      assert Does(vs[i - 1], calls[i - 1], vs[i - 1 + 1]);
      StepKept(vs[i - 1], calls[i - 1], vs[i]);
    }
  }

  /** The rules hold throughout a run exactly when nobody ends while in the sleep tree. */
  lemma RunKept(vs: seq<Sleepers>, calls: seq<Call>)
    requires SleepRun(vs, calls)
    ensures (forall i :: 0 <= i < |vs| ==> Kept(vs[i])) <==> (forall i :: 0 <= i < |calls| ==> Guarded(vs[i], calls[i]))
  {
    if forall i :: 0 <= i < |calls| ==> Guarded(vs[i], calls[i]) {
      forall i | 0 <= i < |vs|
        ensures Kept(vs[i])
      {
        RunStays(vs, calls, i);
      }
    } else {
      var i :| 0 <= i < |calls| && !Guarded(vs[i], calls[i]);
      if Kept(vs[i]) {
        StepKept(vs[i], calls[i], vs[i + 1]);
        assert !Kept(vs[i + 1]);
      }
    }
  }

  /**
   In such a run no sleeper has the stale deadline of a coroutine that is awake, and whoever goes to sleep
   at any time, asleep or not, gets the least deadline from the one asked for on that no other has, while
   every other sleeper keeps its own.
   */
  lemma RunSleeps(vs: seq<Sleepers>, calls: seq<Call>, i: nat, co: Coroutine)
    requires SleepRun(vs, calls) && i < |calls| && forall k :: 0 <= k < i ==> Guarded(vs[k], calls[k])
    requires co in vs[i].deadlines
    ensures Asleep(vs[i], co) <==> vs[i].deadlines[co] in vs[i].sleeping
    ensures calls[i].Sleep? && calls[i].co == co ==>
      var others := Others(vs[i].sleeping, co);
      && co in vs[i + 1].deadlines
      && LeastUnheld(others, vs[i + 1].clock + calls[i].msecs * 1000, vs[i + 1].deadlines[co])
      && vs[i + 1].sleeping == others[vs[i + 1].deadlines[co] := co]
  {
    RunStays(vs, calls, i);
    StaleUnheld(vs[i], co);
    OwnEntry(vs[i], co);
    assert Does(vs[i], calls[i], vs[i + 1]);
  }

  // ---------- going to sleep, waking up ----------

  /**
   nty_schedule_sched_sleepdown, for a positive time. The entry found under the caller's old deadline can
   only be its own, so every other sleeper keeps its deadline; the caller gets the least deadline at or
   after the one asked for that no other has.
   */
  method SchedSleepdown(s: Scheduler, co: Coroutine, msecs: nat)
    requires SleepKept(s) && co in s.live && msecs > 0
    modifies s`sleeping, s`clock, co`sleepUsecs, co`status
    ensures SleepKept(s) && Does(old(Look(s)), Sleep(co, msecs), Look(s)) && co.status == old(co.status) + {SLEEPING}
    ensures LeastUnheld(Others(old(s.sleeping), co), s.clock + msecs * 1000, co.sleepUsecs)
    ensures s.sleeping == Others(old(s.sleeping), co)[co.sleepUsecs := co]
  {
    var usecs := msecs * 1000;
    OwnEntry(Look(s), co);
    if co.sleepUsecs in s.sleeping {
      s.sleeping := s.sleeping - {co.sleepUsecs};
    }
    ghost var others := s.sleeping;
    assert others == Others(old(s.sleeping), co);
    var now := s.ReadClock();
    co.sleepUsecs := now + usecs;
    while co.sleepUsecs in s.sleeping
      invariant s.sleeping == others && s.clock == now && co.status == old(co.status) && now + usecs <= co.sleepUsecs
      invariant forall x :: now + usecs <= x < co.sleepUsecs ==> x in others
      decreases HeldFrom(others, co.sleepUsecs)
    {
      assert co.sleepUsecs in HeldFrom(others, co.sleepUsecs) && co.sleepUsecs !in HeldFrom(others, co.sleepUsecs + 1);
      co.sleepUsecs := co.sleepUsecs + 1;
    }
    s.sleeping := s.sleeping[co.sleepUsecs := co];
    co.status := co.status + {SLEEPING};
    assert Look(s).deadlines == old(Look(s)).deadlines[co := co.sleepUsecs];
    SleepStepKept(old(Look(s)), co, msecs, Look(s));
  }

  lemma {:induction false} LeastKey(sleeping: map<nat, Coroutine>, keys: set<nat>) returns (d: nat)
    requires keys != {} && forall k :: k in keys ==> k in sleeping
    ensures d in keys && forall k :: k in keys ==> d <= k
    decreases keys
  {
    var k :| k in keys;
    if keys == {k} {
      d := k;
    } else {
      var rest := keys - {k};
      assert keys == rest + {k} && rest != {};
      var e := LeastKey(sleeping, rest);
      d := if k < e then k else e;
    }
  }

  /** RB_MIN of the sleep tree. */
  method Least(s: Scheduler) returns (d: nat)
    requires s.sleeping != map[]
    ensures d in s.sleeping && forall e :: e in s.sleeping ==> d <= e
  {
    ghost var k :| k in s.sleeping;
    ghost var least := LeastKey(s.sleeping, s.sleeping.Keys);
    d :| d in s.sleeping && forall e :: e in s.sleeping ==> d <= e;
  }

  /** What the record of an expiry says: the earliest sleeper in the tree, and not early. */
  ghost predicate Due(e: Expiry) {
    Earliest(e.sleeping, e.deadline) && e.sleeping[e.deadline] == e.co && e.deadline <= e.reading
  }

  /** nty_schedule_expired: the sleeper with the least deadline, if that has passed, leaves the tree. */
  method Expired(s: Scheduler) returns (co: Coroutine?)
    requires SleepKept(s)
    modifies s`sleeping, s`clock, s`expiries
    ensures SleepKept(s) && Does(old(Look(s)), if co == null then NoneExpires else Expire(co.sleepUsecs), Look(s))
    ensures co == null ==> s.expiries == old(s.expiries)
    ensures co != null ==> co in s.live && !Asleep(Look(s), co)
    ensures co != null ==> s.expiries == old(s.expiries) + [Expiry(co, co.sleepUsecs, s.clock, old(s.sleeping))]
    ensures co != null ==> Due(s.expiries[|old(s.expiries)|])
  {
    ghost var v := Look(s);
    var now := s.ReadClock();
    if s.sleeping == map[] {
      return null;
    }
    var d := Least(s);
    co := s.sleeping[d];
    assert v.deadlines[co] == co.sleepUsecs;
    if co.sleepUsecs <= now {
      s.expiries := s.expiries + [Expiry(co, co.sleepUsecs, now, s.sleeping)];
      s.sleeping := s.sleeping - {co.sleepUsecs};
      ExpireKept(v, d, Look(s));
      return;
    }
    return null;
  }

  /** A coroutine is made: its deadline of zero is no sleeper's. */
  method Create(s: Scheduler) returns (co: Coroutine)
    requires SleepKept(s)
    modifies s`live, s`ready, s`arrivals, s`spawned, s`fates
    ensures SleepKept(s) && Does(old(Look(s)), Call.Create(co), Look(s))
    ensures fresh(co) && s.live == old(s.live) + {co} && s.spawned == old(s.spawned) + 1
  {
    ghost var v := Look(s);
    co := s.Spawn([]);
    assert Look(s).deadlines == v.deadlines[co := 0];
    CreateKept(v, co, Look(s));
  }

  /** The end of a coroutine that is not in the tree, which nty_coroutine_free frees. */
  method End(s: Scheduler, co: Coroutine)
    requires SleepKept(s) && co in s.live && !Asleep(Look(s), co)
    modifies s`live, s`spawned, s`fates
    ensures SleepKept(s) && Does(old(Look(s)), Call.End(co), Look(s)) && s.live == old(s.live) - {co}
    ensures s.spawned == old(s.spawned) - 1 && s.fates == old(s.fates).(ended := old(s.fates).ended + {co})
  {
    ghost var v := Look(s);
    s.live := s.live - {co};
    s.spawned := s.spawned - 1;
    s.fates := s.fates.(ended := s.fates.ended + {co});
    assert Look(s).deadlines == v.deadlines - {co};
    EndKept(v, co, Look(s));
  }

  /** Nobody but `co` entered or left the tree, and `co` only with a later deadline. */
  ghost predicate OnlyOwn(v: Sleepers, co: Coroutine, sleeping: map<nat, Coroutine>) {
    var ok :=
      && Others(sleeping, co) == Others(v.sleeping, co)
      && forall d :: d in sleeping && sleeping[d] == co ==> d > v.clock || (d in v.sleeping && v.sleeping[d] == co);
    ok
  }

  lemma OnlyOwnOn(v: Sleepers, co: Coroutine, sleeping: map<nat, Coroutine>, d: nat)
    requires OnlyOwn(v, co, sleeping) && d !in Others(sleeping, co) && d > v.clock
    ensures OnlyOwn(v, co, Others(sleeping, co)[d := co])
  {
    assert Others(Others(sleeping, co)[d := co], co) == Others(sleeping, co);
  }

  /** What a resumed coroutine is to do: sleep for these times, or create another for a zero, and perhaps end. */
  datatype Plan = Plan(naps: seq<nat>, ends: bool)

  ghost predicate IsNap(call: Call, co: Coroutine, nap: nat) {
    if nap > 0 then call == Sleep(co, nap) else call.Create?
  }

  /** The first `n` calls of the plan have been made, one after the other. */
  ghost predicate Napping(v: Sleepers, vs: seq<Sleepers>, calls: seq<Call>, co: Coroutine, naps: seq<nat>, n: nat,
                          v': Sleepers)
  {
    var ok :=
      && Steps(vs, calls) && vs[0] == v && vs[|calls|] == v' && n == |calls| <= |naps|
      && forall i :: 0 <= i < n ==> IsNap(calls[i], co, naps[i]);
    ok
  }

  /** The whole plan has been carried out; the coroutine ends if it is to and is not asleep. */
  ghost predicate Carried(v: Sleepers, vs: seq<Sleepers>, calls: seq<Call>, co: Coroutine, plan: Plan, v': Sleepers) {
    && vs != [] && Napping(v, vs, calls, co, plan.naps, |plan.naps|, vs[|vs| - 1])
    && var u := vs[|vs| - 1];
      if plan.ends && !Asleep(u, co) then Does(u, Call.End(co), v') else v' == u
  }

  lemma NappingOn(v: Sleepers, vs: seq<Sleepers>, calls: seq<Call>, co: Coroutine, naps: seq<nat>, n: nat, v': Sleepers,
                  call: Call, v'': Sleepers)
    requires Napping(v, vs, calls, co, naps, n, v') && n < |naps| && Does(v', call, v'') && IsNap(call, co, naps[n])
    ensures Napping(v, vs + [v''], calls + [call], co, naps, n + 1, v'')
  {
  }

  /** One call of a resumed coroutine. */
  method NapOne(s: Scheduler, co: Coroutine, nap: nat, ghost v: Sleepers) returns (ghost call: Call)
    requires SleepKept(s) && co in s.live && s.clock >= v.clock && OnlyOwn(v, co, s.sleeping)
    modifies s`live, s`ready, s`arrivals, s`spawned, s`fates, s`sleeping, s`clock, co
    ensures SleepKept(s) && co in s.live && fresh(s.live - old(s.live))
    ensures Does(old(Look(s)), call, Look(s)) && IsNap(call, co, nap)
    ensures s.clock >= v.clock && OnlyOwn(v, co, s.sleeping)
  {
    if nap > 0 {
      SchedSleepdown(s, co, nap);
      call := Sleep(co, nap);
      OnlyOwnOn(v, co, old(s.sleeping), co.sleepUsecs);
    } else {
      var child := Create(s);
      call := Call.Create(child);
    }
  }

  /** The calls of a plan, one after the other. */
  method Nap(s: Scheduler, co: Coroutine, naps: seq<nat>) returns (ghost vs: seq<Sleepers>, ghost calls: seq<Call>)
    requires SleepKept(s) && co in s.live
    modifies s`live, s`ready, s`arrivals, s`spawned, s`fates, s`sleeping, s`clock, co
    ensures SleepKept(s) && co in s.live && fresh(s.live - old(s.live)) && s.clock >= old(s.clock)
    ensures Napping(old(Look(s)), vs, calls, co, naps, |naps|, Look(s)) && OnlyOwn(old(Look(s)), co, s.sleeping)
  {
    ghost var v := Look(s);
    vs, calls := [v], [];
    var n := 0;
    while n < |naps|
      invariant n <= |naps| && SleepKept(s) && s.clock >= v.clock && co in s.live && fresh(s.live - old(s.live))
      invariant Napping(v, vs, calls, co, naps, n, Look(s)) && OnlyOwn(v, co, s.sleeping)
    {
      ghost var v', call := Look(s), Call.NoneExpires;
      call := NapOne(s, co, naps[n], v);
      NappingOn(v, vs, calls, co, naps, n, v', call, Look(s));
      vs, calls := vs + [Look(s)], calls + [call];
      n := n + 1;
    }
  }

  /**
   What a resumed coroutine does until it suspends, as far as sleeping goes: it creates coroutines and
   sleeps, any number of times and for any positive times, and it may end when it is not in the tree. It
   may have been resumed from the ready queue or by an event, and then be in the tree from the start. Scripts
   play no part here.
   */
  method ResumeSleeper(s: Scheduler, co: Coroutine, plan: Plan)
      returns (ghost vs: seq<Sleepers>, ghost calls: seq<Call>)
    requires SleepKept(s) && co in s.live
    modifies s, co
    ensures SleepKept(s) && s.clock >= old(s.clock) && fresh(s.live - old(s.live))
    ensures s.expiries == old(s.expiries) && s.turns == old(s.turns) + [Turn(co, old(co.status), true, [])]
    ensures Carried(old(Look(s)), vs, calls, co, plan, Look(s)) && OnlyOwn(old(Look(s)), co, s.sleeping)
  {
    s.turns := s.turns + [Turn(co, co.status, true, [])];
    vs, calls := Nap(s, co, plan.naps);
    StaleUnheld(Look(s), co);
    if plan.ends && co.sleepUsecs !in s.sleeping {
      End(s, co);
    }
  }

  ghost predicate Increasing(left: seq<Expiry>) {
    forall i, j :: 0 <= i < j < |left| ==> left[i].deadline < left[j].deadline
  }

  /** Each of these sleepers was due and left the tree, in strictly increasing order of deadlines, and had its turn. */
  ghost predicate Woken(left: seq<Expiry>, given: seq<Turn>) {
    var ok :=
      && Increasing(left) && (forall i :: 0 <= i < |left| ==> Due(left[i]))
      && |given| == |left| && forall i :: 0 <= i < |left| ==> given[i].co == left[i].co && given[i].resumed;
    ok
  }

  /** The sleeper with this deadline is among those that left. */
  ghost predicate Left(left: seq<Expiry>, d: nat, co: Coroutine) {
    exists i :: 0 <= i < |left| && left[i].deadline == d && left[i].co == co
  }

  /** The sleeper was in the tree when the pass began, or entered it since with a later deadline. */
  ghost predicate Entered(start: Sleepers, d: nat, co: Coroutine) {
    d > start.clock || (d in start.sleeping && start.sleeping[d] == co)
  }

  /** The pass under way: who left, and who is in the tree now. */
  ghost predicate Passing(start: Sleepers, left: seq<Expiry>, given: seq<Turn>, sleeping: map<nat, Coroutine>) {
    var ok :=
      && Woken(left, given)
      && (forall i :: 0 <= i < |left| ==> Entered(start, left[i].deadline, left[i].co))
      && (forall d :: d in sleeping ==> Entered(start, d, sleeping[d]))
      && (forall i, d :: 0 <= i < |left| && d in sleeping ==> left[i].deadline < d)
      && (forall d :: d in start.sleeping ==>
            Left(left, d, start.sleeping[d]) || (d in sleeping && sleeping[d] == start.sleeping[d]));
    ok
  }

  lemma LeftOn(left: seq<Expiry>, e: Expiry, d: nat, co: Coroutine)
    requires Left(left, d, co) || (e.deadline == d && e.co == co)
    ensures Left(left + [e], d, co)
  {
    if Left(left, d, co) {
      var i :| 0 <= i < |left| && left[i].deadline == d && left[i].co == co;
      assert (left + [e])[i] == left[i];
    } else {
      assert (left + [e])[|left|] == e;
    }
  }

  lemma PassingOn(start: Sleepers, left: seq<Expiry>, given: seq<Turn>, e: Expiry, turn: Turn,
                  sleeping: map<nat, Coroutine>)
    requires Passing(start, left, given, e.sleeping) && Due(e) && e.reading >= start.clock
    requires turn.co == e.co && turn.resumed
    requires forall d :: d in e.sleeping && d != e.deadline ==> d in sleeping && sleeping[d] == e.sleeping[d]
    requires forall d :: d in sleeping ==>
      d > e.reading || (d in e.sleeping && d != e.deadline && sleeping[d] == e.sleeping[d])
    ensures Passing(start, left + [e], given + [turn], sleeping)
  {
    forall d | d in start.sleeping
      ensures Left(left + [e], d, start.sleeping[d]) || (d in sleeping && sleeping[d] == start.sleeping[d])
    {
      if Left(left, d, start.sleeping[d]) || d == e.deadline { LeftOn(left, e, d, start.sleeping[d]); }
    }
  }

  /** A sleeper leaves the tree, and does what it planned. */
  datatype Stint = Stint(before: Sleepers, expiry: Expiry, woken: Sleepers, plan: Plan, vs: seq<Sleepers>,
                         calls: seq<Call>, after: Sleepers)

  ghost predicate Worked(st: Stint) {
    && Does(st.before, Expire(st.expiry.deadline), st.woken)
    && Carried(st.woken, st.vs, st.calls, st.expiry.co, st.plan, st.after)
  }

  /** Stints from `v` to `v'`, one after the other. */
  ghost predicate Stints(v: Sleepers, stints: seq<Stint>, v': Sleepers) {
    if stints == [] then v' == v else
      var st := stints[|stints| - 1];
      Stints(v, stints[..|stints| - 1], st.before) && Worked(st) && v' == st.after
  }

  lemma StintsOn(v: Sleepers, stints: seq<Stint>, st: Stint)
    requires Stints(v, stints, st.before) && Worked(st)
    ensures Stints(v, stints + [st], st.after)
  {
    assert (stints + [st])[..|stints|] == stints;
  }

  /** The sleepers that left the tree worked, each as it was planned. */
  ghost predicate AsPlanned(plans: seq<Plan>, worked: seq<Stint>, left: seq<Expiry>) {
    var ok :=
      && |worked| == |left| <= |plans|
      && forall i :: 0 <= i < |left| ==> worked[i].expiry == left[i] && worked[i].plan == plans[i];
    ok
  }

  /** The stints of a pass, and at the end of it a look that finds nobody due. */
  ghost predicate PassWorked(v: Sleepers, worked: seq<Stint>, done: bool, v': Sleepers) {
    if !done then Stints(v, worked, v')
    else exists clock :: Stints(v, worked, v'.(clock := clock)) && Does(v'.(clock := clock), NoneExpires, v')
  }

  lemma AsPlannedOn(plans: seq<Plan>, worked: seq<Stint>, left: seq<Expiry>, st: Stint)
    requires AsPlanned(plans, worked, left) && |left| < |plans| && st.plan == plans[|left|]
    ensures AsPlanned(plans, worked + [st], left + [st.expiry])
  {
  }

  lemma PassEnds(v: Sleepers, worked: seq<Stint>, u: Sleepers, v': Sleepers)
    requires Stints(v, worked, u) && Does(u, NoneExpires, v')
    ensures PassWorked(v, worked, true, v')
    ensures forall d :: d in v'.sleeping ==> d > v'.clock
  {
    assert u == v'.(clock := u.clock);
  }

  /** One round of the pass: the sleeper that left the tree has its turn. */
  method PassRound(s: Scheduler, plan: Plan, ghost start: Sleepers, ghost before: seq<Expiry>, ghost given0: seq<Turn>)
      returns (done: bool, ghost worked: seq<Stint>, ghost turns: seq<Turn>)
    requires SleepKept(s) && s.clock >= start.clock && Passing(start, before, given0, s.sleeping)
    modifies s, s.live
    ensures SleepKept(s) && s.clock >= start.clock && fresh(s.live - old(s.live))
    ensures done ==> Does(old(Look(s)), NoneExpires, Look(s)) && s.expiries == old(s.expiries) && turns == []
    ensures !done ==> |worked| == 1 && Worked(worked[0]) && worked[0].plan == plan && worked[0].before == old(Look(s))
    ensures !done ==> worked[0].after == Look(s) && s.expiries == old(s.expiries) + [worked[0].expiry]
    ensures !done ==> Passing(start, before + [worked[0].expiry], given0 + turns, s.sleeping)
    ensures s.turns == old(s.turns) + turns
  {
    done, worked, turns := false, [], [];
    ghost var v0 := Look(s);
    var expired := Expired(s);
    if expired == null {
      done := true;
      return;
    }
    ghost var e, v := s.expiries[|s.expiries| - 1], Look(s);
    ghost var vs, calls;
    vs, calls := ResumeSleeper(s, expired, plan);
    ghost var turn := s.turns[|s.turns| - 1];
    OthersStay(v, expired, s.sleeping);
    PassingOn(start, before, given0, e, turn, s.sleeping);
    turns, worked := [turn], [Stint(v0, e, v, plan, vs, calls, Look(s))];
  }

  /** Nobody in the tree is moved by one that was not there. */
  lemma OthersStay(v: Sleepers, co: Coroutine, sleeping: map<nat, Coroutine>)
    requires !Asleep(v, co) && OnlyOwn(v, co, sleeping)
    ensures forall d :: d in v.sleeping ==> d in sleeping && sleeping[d] == v.sleeping[d]
    ensures forall d :: d in sleeping ==> d > v.clock || (d in v.sleeping && sleeping[d] == v.sleeping[d])
  {
    assert Others(v.sleeping, co) == v.sleeping;
    forall d | d in sleeping && sleeping[d] != co
      ensures d in v.sleeping && sleeping[d] == v.sleeping[d]
    {
      assert d in Others(sleeping, co);
    }
  }

  /** What a pass has done so far: the stints, and the expiries and turns recorded. */
  datatype Pass = Pass(worked: seq<Stint>, left: seq<Expiry>, given: seq<Turn>)

  /** The sleepers, and all expiries and turns recorded. */
  datatype Records = Records(v: Sleepers, expiries: seq<Expiry>, turns: seq<Turn>)

  ghost function Record(s: Scheduler): Records
    reads s`live, s`sleeping, s`clock, s`expiries, s`turns, s.live
  {
    Records(Look(s), s.expiries, s.turns)
  }

  /** The pass under way. */
  ghost predicate InPass(start: Records, plans: seq<Plan>, p: Pass, now: Records) {
    var ok :=
      && Kept(now.v) && now.v.clock >= start.v.clock && Passing(start.v, p.left, p.given, now.v.sleeping)
      && now.expiries == start.expiries + p.left && now.turns == start.turns + p.given
      && AsPlanned(plans, p.worked, p.left) && Stints(start.v, p.worked, now.v);
    ok
  }

  /** The sleepers of the start have left or are still in the tree, and those that left were due and had their turn. */
  ghost predicate Awoken(start: Sleepers, p: Pass, sleeping: map<nat, Coroutine>) {
    && Woken(p.left, p.given)
    && (forall d :: d in start.sleeping ==>
          Left(p.left, d, start.sleeping[d]) || (d in sleeping && sleeping[d] == start.sleeping[d]))
    && (forall i :: 0 <= i < |p.left| ==> Entered(start, p.left[i].deadline, p.left[i].co))
  }

  /** The pass is over, after a look that found nobody due if it is done. */
  ghost predicate PassOver(start: Records, plans: seq<Plan>, p: Pass, done: bool, end: Records) {
    var ok :=
      && Kept(end.v) && Awoken(start.v, p, end.v.sleeping)
      && end.expiries == start.expiries + p.left && end.turns == start.turns + p.given
      && AsPlanned(plans, p.worked, p.left) && PassWorked(start.v, p.worked, done, end.v)
      && if done then forall d :: d in end.v.sleeping ==> d > end.v.clock else |p.left| == |plans|;
    ok
  }

  lemma PassStarts(start: Records, plans: seq<Plan>)
    requires Kept(start.v)
    ensures InPass(start, plans, Pass([], [], []), start)
  {
  }

  lemma PassOn(start: Records, plans: seq<Plan>, p: Pass, now: Records, st: Stint, given: seq<Turn>, next: Records)
    requires InPass(start, plans, p, now) && |p.left| < |plans| && st.plan == plans[|p.left|]
    requires Worked(st) && st.before == now.v && st.after == next.v && Kept(next.v) && next.v.clock >= start.v.clock
    requires next.expiries == now.expiries + [st.expiry] && next.turns == now.turns + given
    requires Passing(start.v, p.left + [st.expiry], p.given + given, next.v.sleeping)
    ensures InPass(start, plans, Pass(p.worked + [st], p.left + [st.expiry], p.given + given), next)
  {
    StintsOn(start.v, p.worked, st);
    AsPlannedOn(plans, p.worked, p.left, st);
    Regroup(start.expiries, p.left, [st.expiry]);
    Regroup(start.turns, p.given, given);
  }

  lemma Regroup<T>(a: seq<T>, b: seq<T>, c: seq<T>)
    ensures a + b + c == a + (b + c)
  {
  }

  lemma PassDone(start: Records, plans: seq<Plan>, p: Pass, now: Records, end: Records)
    requires InPass(start, plans, p, now) && Does(now.v, NoneExpires, end.v) && Kept(end.v)
    requires end.expiries == now.expiries && end.turns == now.turns
    ensures PassOver(start, plans, p, true, end)
  {
    PassEnds(start.v, p.worked, now.v, end.v);
  }

  lemma PassCut(start: Records, plans: seq<Plan>, p: Pass, now: Records)
    requires InPass(start, plans, p, now) && |p.left| == |plans|
    ensures PassOver(start, plans, p, false, now)
  {
  }

  /** One more round, with the next plan. */
  method PassStep(s: Scheduler, plans: seq<Plan>, ghost start: Records, ghost p: Pass, n: nat)
      returns (done: bool, ghost p': Pass)
    requires InPass(start, plans, p, Record(s)) && n == |p.left| < |plans|
    modifies s, s.live
    ensures fresh(s.live - old(s.live))
    ensures if done then PassOver(start, plans, p', true, Record(s)) else InPass(start, plans, p', Record(s))
    ensures !done ==> |p'.left| == n + 1
  {
    ghost var now, st, given := Record(s), [], [];
    done, st, given := PassRound(s, plans[n], start.v, p.left, p.given);
    p' := p;
    if done {
      PassDone(start, plans, p, now, Record(s));
      return;
    }
    PassOn(start, plans, p, now, st[0], given, Record(s));
    p' := Pass(p.worked + [st[0]], p.left + [st[0].expiry], p.given + given);
  }

  /**
   The first loop of nty_schedule_run, for the plans of the first sleepers to be resumed. Sleepers are resumed in
   strictly increasing order of their deadlines, never early, and carry out these plans; when the loop ends no
   sleeper is due at the last reading of the clock, and every one that was asleep before and is due has been resumed.
   */
  method ExpiredPass(s: Scheduler, plans: seq<Plan>) returns (done: bool, ghost p: Pass)
    requires SleepKept(s)
    modifies s, s.live
    ensures SleepKept(s) && fresh(s.live - old(s.live)) && PassOver(old(Record(s)), plans, p, done, Record(s))
  {
    done, p := false, Pass([], [], []);
    ghost var start := Record(s);
    PassStarts(start, plans);
    var n := 0;
    while n < |plans|
      invariant n <= |plans| && fresh(s.live - old(s.live)) && n == |p.left| && InPass(start, plans, p, Record(s))
    {
      done, p := PassStep(s, plans, start, p, n);
      if done {
        return;
      }
      n := n + 1;
    }
    PassCut(start, plans, p, Record(s));
  }

  // ---------- the timeout ----------

  const DEFAULT_TIMEOUT: nat := 3000000

  /** nty_schedule_min_timeout: the time from now to the earliest deadline, or the default. */
  method MinTimeout(s: Scheduler) returns (usecs: nat)
    modifies s`clock
    ensures (old(SleepKept(s)) ==> SleepKept(s)) && s.clock >= old(s.clock)
    ensures s.sleeping == map[] ==> usecs == 3000000
    ensures forall d :: d in s.sleeping ==> s.clock + usecs <= d || usecs == 0
    ensures usecs == 0 ==> exists d :: d in s.sleeping && d <= s.clock
    ensures s.sleeping != map[] && usecs > 0 ==> s.clock + usecs in s.sleeping
  {
    var now := s.ReadClock();
    if s.sleeping == map[] {
      return DEFAULT_TIMEOUT;
    }
    var min := Least(s);
    if min > now {
      return min - now;
    }
    return 0;
  }

  /**
   The milliseconds that epoll is asked to wait for a timeout in microseconds: through a timespec whose
   nanoseconds, from one second on, come from the last three digits only, and a conversion to an int.
   */
  function TimeoutMs(usecs: nat): int {
    var sec := usecs / 1000000;
    var nsec := if sec != 0 then usecs % 1000 * 1000 else usecs * 1000;
    (sec as real * 1000.0 + nsec as real / 1000000.0).Floor
  }

  /** Whole milliseconds below a second, whole seconds from there on. */
  lemma TimeoutRounds(usecs: nat)
    ensures TimeoutMs(usecs) == if usecs < 1000000 then usecs / 1000 else usecs / 1000000 * 1000
  {
    var sec := usecs / 1000000;
    var nsec := if sec != 0 then usecs % 1000 * 1000 else usecs * 1000;
    FloorOf(sec * 1000, nsec);
  }

  lemma FloorOf(ms: nat, nsec: nat)
    ensures (ms as real + nsec as real / 1000000.0).Floor == ms + nsec / 1000000
  {
    var q, r := nsec / 1000000, nsec % 1000000;
    assert nsec == q * 1000000 + r;
    assert nsec as real / 1000000.0 == q as real + r as real / 1000000.0;
  }

  /**
   epoll never waits past the earliest deadline and falls short of it by less than a second; by less than
   a millisecond exactly when the time is below a second or within a millisecond above a whole second.
   */
  lemma TimeoutShort(usecs: nat)
    ensures TimeoutMs(usecs) * 1000 <= usecs < TimeoutMs(usecs) * 1000 + 1000000
    ensures usecs < TimeoutMs(usecs) * 1000 + 1000 <==> usecs < 1000000 || usecs % 1000000 < 1000
  {
    TimeoutRounds(usecs);
  }

  /**
   The start of nty_schedule_epoll: whether epoll is called, and with what timeout. It is when nobody is
   ready and no sleeper is due. Then it waits for the time to the earliest deadline, in whole milliseconds if
   that is below a second and in whole seconds otherwise, and for three seconds when nobody sleeps.
   */
  method EpollTimeout(s: Scheduler) returns (waits: bool, ms: int)
    modifies s`clock
    ensures (old(SleepKept(s)) ==> SleepKept(s)) && s.clock >= old(s.clock)
    ensures waits <==> s.ready == [] && forall d :: d in s.sleeping ==> d > s.clock
    ensures waits && s.sleeping == map[] ==> ms == 3000
    ensures waits ==> forall d: nat :: Earliest(s.sleeping, d) ==>
      ms == if d - s.clock < 1000000 then (d - s.clock) / 1000 else (d - s.clock) / 1000000 * 1000
    ensures waits ==> ms >= 0 && forall d :: d in s.sleeping ==> s.clock + ms * 1000 <= d
    ensures waits && s.sleeping != map[] ==> exists d :: d in s.sleeping && d < s.clock + ms * 1000 + 1000000
  {
    var usecs := MinTimeout(s);
    if usecs != 0 && s.ready == [] {
      TimeoutShort(usecs);
      TimeoutRounds(usecs);
      return true, TimeoutMs(usecs);
    }
    return false, 0;
  }

  /** A wait of nearly two seconds is cut to one. */
  lemma TimeoutOneSecondShort()
    ensures TimeoutMs(1999999) == 1000
  {
    TimeoutRounds(1999999);
  }
}

/**
 The run loop, with coroutines that create others, yield, wait for one descriptor each and end. Nobody
 sleeps for a positive time here, so that the sleep tree stays empty.
 */
module ScheduleRun {
  import opened Schedule
  import opened ScheduleRules
  import Sleep = ScheduleSleep
  import opened Sequences

  // ---------- what a step leaves as it was ----------

  /** The ready queue, all that was ever put there, the wait tree, all turns given, calls of epoll and fates so far. */
  datatype View = View(ready: seq<Coroutine>, arrivals: seq<Coroutine>, waiting: map<int, Coroutine>, turns: seq<Turn>,
                       reports: seq<Report>, fates: Fates)

  ghost function Look(s: Scheduler): View
    reads s`ready, s`arrivals, s`waiting, s`turns, s`reports, s`fates
  {
    View(s.ready, s.arrivals, s.waiting, s.turns, s.reports, s.fates)
  }

  /** What has happened to a coroutine is not undone. */
  ghost predicate Grown(f: Fates, f': Fates) {
    f.created <= f'.created && f.begun <= f'.begun && f.ended <= f'.ended && f.marked <= f'.marked
  }

  /**
   The queue lost its first `n`, and whatever arrived since is behind the others, in the order it arrived. epoll
   was not called.
   */
  ghost predicate Advanced(v: View, n: nat, v': View) {
    var ok :=
      && n <= |v.ready| && v.arrivals <= v'.arrivals && Grown(v.fates, v'.fates) && v'.reports == v.reports
      && v'.ready == v.ready[n..] + v'.arrivals[|v.arrivals|..];
    ok
  }

  lemma AdvancedOn(v: View, n: nat, v': View, k: nat, v'': View)
    requires Advanced(v, n, v') && Advanced(v', k, v'') && n + k <= |v.ready|
    ensures Advanced(v, n + k, v'')
  {
    var a, b := v'.arrivals[|v.arrivals|..], v''.arrivals[|v'.arrivals|..];
    assert v''.arrivals == v'.arrivals + b && v''.arrivals[|v.arrivals|..] == a + b;
    assert v'.ready[k..] == v.ready[n + k..] + a;
    assert v''.ready == v.ready[n + k..] + (a + b);
  }

  /** What `co` leaves as it was while it runs: later arrivals queue behind, other waiters stay, nobody gets a turn. */
  ghost predicate Undisturbed(v: View, co: Coroutine, v': View) {
    var ok :=
      && Advanced(v, 0, v') && v'.turns == v.turns && OthersWait(v.waiting, co, v'.waiting);
    ok
  }

  ghost predicate OthersWait(waiting: map<int, Coroutine>, co: Coroutine, waiting': map<int, Coroutine>) {
    forall fd :: fd in waiting && waiting[fd] != co ==> fd in waiting' && waiting'[fd] == waiting[fd]
  }

  lemma UndisturbedOn(v: View, co: Coroutine, v': View, v'': View)
    requires Undisturbed(v, co, v') && Undisturbed(v', co, v'')
    ensures Undisturbed(v, co, v'')
  {
    AdvancedOn(v, 0, v', 0, v'');
  }

  lemma Arrived(v: View, co: Coroutine, arrived: seq<Coroutine>, v': View)
    requires v'.ready == v.ready + arrived && v'.arrivals == v.arrivals + arrived && v'.turns == v.turns
    requires v'.reports == v.reports && OthersWait(v.waiting, co, v'.waiting) && Grown(v.fates, v'.fates)
    ensures Undisturbed(v, co, v')
  {
    assert v.ready[0..] == v.ready && (v.arrivals + arrived)[|v.arrivals|..] == arrived;
  }

  lemma UndisturbedSince(v: View, co: Coroutine, v': View, v'': View)
    requires v' == v.(waiting := v'.waiting, fates := v'.fates) && OthersWait(v.waiting, co, v'.waiting)
    requires Grown(v.fates, v'.fates) && Undisturbed(v', co, v'')
    ensures Undisturbed(v, co, v'')
  {
  }

  lemma UndisturbedAt(v: View)
    ensures Advanced(v, 0, v)
  {
    assert v.ready[0..] + v.arrivals[|v.arrivals|..] == v.ready;
  }

  /** The coroutine arrives at the end of the queue, if there is one. */
  ghost predicate Queues(v: View, co: Coroutine?, v': View) {
    if co == null then v'.ready == v.ready && v'.arrivals == v.arrivals
    else v'.ready == v.ready + [co] && v'.arrivals == v.arrivals + [co]
  }

  /** A coroutine with this body is created and queued. */
  ghost predicate Creates(v: View, body: seq<Call>, child: Coroutine, v': View) {
    && child.body == body && child !in v.fates.created && Queues(v, child, v') && v'.waiting == v.waiting
    && v'.fates == v.fates.(created := v.fates.created + {child})
  }

  /**
   What a call of `co` does, if `ops` calls of renice came before it since it last went on: whether it suspends,
   who is queued, who waits, and who is created or marked.
   */
  ghost predicate Effect(v: View, co: Coroutine, ops: nat, call: Call, suspended: bool, v': View) {
    && v'.turns == v.turns && v'.reports == v.reports
    && match call
       case Create(body) => !suspended && v'.arrivals != [] && Creates(v, body, v'.arrivals[|v'.arrivals| - 1], v')
       case Renice =>
         && (suspended <==> ops == 4) && Queues(v, if suspended then co else null, v')
         && v'.waiting == v.waiting && v'.fates == v.fates
       case Sleep0 => suspended && Queues(v, co, v') && v'.waiting == v.waiting && v'.fates == v.fates
       case Poll(fd, _) =>
         && (suspended <==> fd !in v.waiting) && Queues(v, null, v')
         && v'.waiting == (if suspended then v.waiting[fd := co] else v.waiting) && v'.fates == v.fates
       case MarkEof(k) =>
         && !suspended && Queues(v, null, v') && v'.waiting == v.waiting
         && v'.fates == v.fates.(marked := v.fates.marked + if k < |v.ready| then {v.ready[k]} else {})
  }

  /** So it leaves the others alone. */
  lemma CallUndisturbs(v: View, co: Coroutine, ops: nat, call: Call, suspended: bool, v': View)
    requires Effect(v, co, ops, call, suspended, v')
    ensures Undisturbed(v, co, v')
  {
    match call
    case Create(_) => Arrived(v, co, [v'.arrivals[|v'.arrivals| - 1]], v');
    case Renice => Arrived(v, co, if suspended then [co] else [], v');
    case Sleep0 => Arrived(v, co, [co], v');
    case Poll(_, _) => Arrived(v, co, [], v');
    case MarkEof(_) => Arrived(v, co, [], v');
  }

  /** The calls of `co` since it last went on lead from each view to the next; only the last may have suspended it. */
  ghost predicate Performed(views: seq<View>, co: Coroutine, calls: seq<Call>, suspended: bool) {
    var ok :=
      && |views| == |calls| + 1
      && forall i :: 0 <= i < |calls| ==>
           Effect(views[i], co, Renices(calls[..i]), calls[i], suspended && i == |calls| - 1, views[i + 1]);
    ok
  }

  lemma PerformedOn(views: seq<View>, co: Coroutine, calls: seq<Call>, call: Call, suspended: bool, v: View)
    requires Performed(views, co, calls, false) && Effect(views[|calls|], co, Renices(calls), call, suspended, v)
    ensures Performed(views + [v], co, calls + [call], suspended)
  {
    forall i | 0 <= i < |calls| + 1
      ensures (calls + [call])[..i] == calls[..i]
    {
    }
    assert calls[..|calls|] == calls;
  }

  /** How a turn begins: the coroutine, with its context set up, leaves the wait tree if it waited for a descriptor. */
  ghost function GoneOn(v: View, co: Coroutine, point: Point, fd: int): View {
    v.(waiting := if point == Polling then v.waiting - {fd} else v.waiting,
       fates := v.fates.(begun := v.fates.begun + {co}))
  }

  /** And how it ends: the coroutine is suspended, or has ended. */
  ghost function SwitchedBack(v: View, co: Coroutine, suspended: bool): View {
    if suspended then v else v.(fates := v.fates.(ended := v.fates.ended + {co}))
  }

  // ---------- what a running coroutine can do ----------

  /** nty_coroutine_create */
  method Create(s: Scheduler, ghost co: Coroutine, body: seq<Call>) returns (child: Coroutine)
    requires Active(s, co)
    modifies s`live, s`ready, s`arrivals, s`spawned, s`fates
    ensures Active(s, co) && fresh(child) && child.body == body && child.script == body
    ensures s.live == old(s.live) + {child} && child !in old(s.fates).created
    ensures Effect(old(Look(s)), co, 0, Call.Create(body), false, Look(s)) && ScriptsKept(s, co)
  {
    child := s.Spawn(body);
    StillActive(s, co, child);
  }

  /** nty_coroutine_yield, up to the switch: renices count anew. */
  method Yield(co: Coroutine, point: Point)
    modifies co`ops, co`point
    ensures co.ops == 0 && co.point == point
  {
    co.ops := 0;
    co.point := point;
  }

  twostate lemma NowQueued(s: Scheduler, new co: Coroutine)
    requires co in old(s.live)
    requires old(Active(s, co)) && Others(s, co) && s.live == old(s.live) && s.fates == old(s.fates)
    requires s.waiting == old(s.waiting) && s.ready == old(s.ready) + [co] && s.sleeping == old(s.sleeping)
    requires s.polled == old(s.polled) && s.spawned == old(s.spawned)
    requires co.status == old(co.status) && co.point == Queued && co.ops == 0 && co.script == old(co.script)
    ensures InOrder(s, null)
  {
    PlacedQueued(s, co);
    FatesStay(s, co);
    ScriptsStay(s, co);
  }

  /** nty_coroutine_sleep(0): the coroutine goes to the end of the ready queue and yields. */
  method Requeue(s: Scheduler, co: Coroutine)
    requires Active(s, co)
    modifies s`ready, s`arrivals, co`ops, co`point
    ensures InOrder(s, null) && co.point == Queued && Effect(old(Look(s)), co, 0, Sleep0, true, Look(s))
    ensures ScriptsKept(s, co)
  {
    s.Enqueue(co);
    Yield(co, Queued);
    NowQueued(s, co);
  }

  /** nty_coroutine_renice: it yields after four that did not since the coroutine last went on, and these only count. */
  method Renice(s: Scheduler, co: Coroutine) returns (yielded: bool)
    requires Active(s, co)
    modifies s`ready, s`arrivals, co`ops, co`point
    ensures yielded <==> old(co.ops) == 4
    ensures if yielded then InOrder(s, null) && co.point == Queued else Active(s, co) && co.ops == old(co.ops) + 1
    ensures Effect(old(Look(s)), co, old(co.ops), Call.Renice, yielded, Look(s)) && ScriptsKept(s, co)
  {
    co.ops := co.ops + 1;
    if co.ops < 5 {
      Counts(s, co);
      return false;
    }
    s.Enqueue(co);
    Yield(co, Queued);
    NowQueued(s, co);
    return true;
  }

  /** The coroutine has only counted a renice, or taken its next call. */
  twostate lemma Counts(s: Scheduler, new co: Coroutine)
    requires co in old(s.live)
    requires old(Active(s, co)) && Others(s, co) && s.live == old(s.live) && s.fates == old(s.fates)
    requires s.waiting == old(s.waiting) && s.ready == old(s.ready) && s.sleeping == old(s.sleeping)
    requires s.polled == old(s.polled) && s.spawned == old(s.spawned)
    requires co.status == old(co.status) && co.point == Running && co.fd == old(co.fd) && co.ops < 5
    ensures Active(s, co)
  {
    FatesStay(s, co);
    ScriptsStay(s, co);
    PlacedStays(s, co);
  }

  /**
   nty_schedule_sched_wait, for timeout 1. A wait for reading sets no status bit, and one for writing sets the
   bit of the other.
   */
  method SchedWait(s: Scheduler, co: Coroutine, fd: int, read: bool)
    requires WAIT_READ !in co.status && WAIT_WRITE !in co.status && fd !in s.waiting
    modifies s`waiting, co`status, co`fd
    ensures s.waiting == old(s.waiting)[fd := co] && co.fd == fd
    ensures Effect(old(Look(s)), co, 0, Call.Poll(fd, read), true, Look(s))
    ensures co.status == if read then old(co.status) else old(co.status) + {WAIT_READ}
  {
    if !read {
      co.status := co.status + {WAIT_READ};
    }
    co.fd := fd;
    s.waiting := s.waiting[fd := co];
  }

  /** nty_poll_inner up to the yield, for one descriptor and timeout 1: what nty_schedule_sched_wait asserts holds. */
  method Poll(s: Scheduler, co: Coroutine, fd: int, read: bool)
    requires Active(s, co) && fd !in s.waiting
    modifies s`waiting, s`polled, co`status, co`fd, co`ops, co`point
    ensures InOrder(s, null) && co.point == Polling && ScriptsKept(s, co)
    ensures Effect(old(Look(s)), co, 0, Call.Poll(fd, read), true, Look(s))
    ensures co.status == if read then old(co.status) else old(co.status) + {WAIT_READ}
  {
    s.polled := s.polled + {fd};
    SchedWait(s, co, fd, read);
    Yield(co, Polling);
    NowWaiting(s, co);
  }

  /** nty_poll_inner after the yield: nty_schedule_desched_wait clears the whole status, so it finds no sleeper. */
  method PollEnd(s: Scheduler, co: Coroutine)
    requires OnItsWay(s, co) && co.point == Polling
    modifies s`waiting, s`polled, co`status, co`point
    ensures Active(s, co) && s.waiting == old(s.waiting) - {old(co.fd)} && co.status == {}
  {
    s.polled := s.polled - {co.fd};
    var found := s.waiting[co.fd];
    s.waiting := s.waiting - {co.fd};
    found.status := {};
    if SLEEPING in found.status {
      // nty_schedule_desched_sleepdown would take the coroutine out of the sleep tree here
      assert false;
    }
    co.point := Running;
    NowBack(s, co);
  }

  /** nty_coroutine_free of a coroutine that is in no container. It has ended, or was marked. */
  method Free(s: Scheduler, co: Coroutine)
    requires InOrder(s, co) && co in s.live && (co in s.fates.ended || co in s.fates.marked)
    requires co !in s.ready && forall fd :: fd in s.waiting ==> s.waiting[fd] != co
    modifies s`live, s`spawned
    ensures InOrder(s, null) && s.live == old(s.live) - {co}
  {
    s.spawned := s.spawned - 1;
    s.live := s.live - {co};
    NowFreed(s, co);
  }

  /** One library call of a running coroutine, which may suspend it. It waits for no descriptor that has a waiter. */
  method MakeCall(s: Scheduler, co: Coroutine, call: Call) returns (suspended: bool)
    requires Active(s, co)
    modifies s, s.live
    ensures fresh(s.live - old(s.live)) && old(s.live) <= s.live
    ensures if suspended then co.point != Ended && InOrder(s, null) else Active(s, co)
    ensures Effect(old(Look(s)), co, old(co.ops), call, suspended, Look(s))
    ensures !suspended ==> co.ops == old(co.ops) + if IsRenice(call) then 1 else 0
    ensures co.script == old(co.script) && ScriptsKept(s, co)
  {
    suspended := false;
    match call {
      case Create(body) =>
        var child := Create(s, co, body);
      case Renice =>
        suspended := Renice(s, co);
      case Sleep0 =>
        Requeue(s, co);
        suspended := true;
      case Poll(fd, read) =>
        if fd !in s.waiting {
          Poll(s, co, fd, read);
          suspended := true;
        }
      case MarkEof(k) =>
        if k < |s.ready| {
          Mark(s, co, k, s.ready[k]);
        }
    }
  }

  /** The next call of the body is taken. */
  method NextCall(s: Scheduler, co: Coroutine) returns (call: Call)
    requires Active(s, co) && co.script != []
    modifies co`script
    ensures Active(s, co) && [call] + co.script == old(co.script)
  {
    call := co.script[0];
    co.script := co.script[1..];
    Counts(s, co);
  }

  /** A stretch of calls under way. */
  ghost predicate Calling(s: Scheduler, v: View, co: Coroutine, calls: seq<Call>)
    reads s, s.live, co
  {
    var ok := Active(s, co) && Undisturbed(v, co, Look(s)) && GoesOn(calls) && co.ops == Renices(calls);
    ok
  }

  ghost predicate Called(s: Scheduler, v: View, co: Coroutine, calls: seq<Call>, suspended: bool)
    reads s, s.live, co
  {
    var ok :=
      && Stretch(calls, suspended)
      && if suspended then co.point != Ended && InOrder(s, null) && Undisturbed(v, co, Look(s))
         else Calling(s, v, co, calls);
    ok
  }

  /**
   A body from one resumption to the next suspension: its calls one after the other, each with its effect, up to
   the first that suspends, or to its end. It may also set the end-of-file bit of a queued coroutine, as the field
   is there for all to write.
   */
  method Body(s: Scheduler, co: Coroutine)
      returns (suspended: bool, ghost calls: seq<Call>, ghost views: seq<View>)
    requires Active(s, co) && co.ops == 0
    modifies s, s.live
    ensures Performed(views, co, calls, suspended) && views[0] == old(Look(s))
    ensures Look(s) == SwitchedBack(views[|calls|], co, suspended)
    ensures fresh(s.live - old(s.live)) && old(s.live) <= s.live && Undisturbed(old(Look(s)), co, Look(s))
    ensures calls + co.script == old(co.script) && Stretch(calls, suspended) && ScriptsKept(s, co)
    ensures s.fates.ended == old(s.fates).ended + if suspended then {} else {co}
    ensures if suspended then co.point != Ended && InOrder(s, null) else InOrder(s, co) && EndedIn(s, co)
  {
    suspended, calls, views := Calls(s, co);
    if !suspended {
      End(s, co);
    }
  }

  lemma OneMoreCall(calls: seq<Call>, left: seq<Call>, call: Call, left': seq<Call>)
    requires left == [call] + left'
    ensures calls + left == calls + [call] + left'
  {
  }

  /** The loop of the body. */
  method Calls(s: Scheduler, co: Coroutine)
      returns (suspended: bool, ghost calls: seq<Call>, ghost views: seq<View>)
    requires Active(s, co) && co.ops == 0
    modifies s, s.live
    ensures Performed(views, co, calls, suspended) && views[0] == old(Look(s)) && views[|calls|] == Look(s)
    ensures fresh(s.live - old(s.live)) && old(s.live) <= s.live && Undisturbed(old(Look(s)), co, Look(s))
    ensures calls + co.script == old(co.script) && Stretch(calls, suspended) && ScriptsKept(s, co)
    ensures s.fates.ended == old(s.fates).ended
    ensures if suspended then co.point != Ended && InOrder(s, null) else Active(s, co) && co.script == []
  {
    ghost var v := Look(s);
    suspended, calls, views := false, [], [v];
    UndisturbedAt(v);
    while co.script != [] && !suspended
      invariant fresh(s.live - old(s.live)) && old(s.live) <= s.live
      invariant calls + co.script == old(co.script) && ScriptsKept(s, co) && s.fates.ended == old(s.fates).ended
      invariant Called(s, v, co, calls, suspended)
      invariant Performed(views, co, calls, suspended) && views[0] == v && views[|calls|] == Look(s)
      decreases |co.script|
    {
      ghost var left := co.script;
      ghost var call;
      suspended, call := CallOne(s, v, co, calls);
      OneMoreCall(calls, left, call, co.script);
      PerformedOn(views, co, calls, call, suspended, Look(s));
      calls, views := calls + [call], views + [Look(s)];
    }
  }

  /** One round of the body. */
  method CallOne(s: Scheduler, ghost v: View, co: Coroutine, ghost before: seq<Call>)
      returns (suspended: bool, ghost call: Call)
    requires Calling(s, v, co, before) && co.script != []
    modifies s, s.live
    ensures fresh(s.live - old(s.live)) && old(s.live) <= s.live && [call] + co.script == old(co.script)
    ensures ScriptsKept(s, co) && s.fates.ended == old(s.fates).ended && old(s.fates).created <= s.fates.created
    ensures Called(s, v, co, before + [call], suspended)
    ensures Effect(old(Look(s)), co, Renices(before), call, suspended, Look(s))
  {
    ghost var v0 := Look(s);
    var next := NextCall(s, co);
    ghost var ops := co.ops;
    suspended := MakeCall(s, co, next);
    call := next;
    CallUndisturbs(v0, co, ops, call, suspended, Look(s));
    UndisturbedOn(v, co, v0, Look(s));
    StretchOn(v0, co, before, call, suspended, Look(s));
  }

  /** A stretch of calls and one more. */
  lemma StretchOn(v: View, co: Coroutine, before: seq<Call>, call: Call, suspended: bool, v': View)
    requires GoesOn(before) && Effect(v, co, Renices(before), call, suspended, v')
    ensures Stretch(before + [call], suspended)
    ensures Renices(before + [call]) == Renices(before) + if IsRenice(call) then 1 else 0
  {
    assert (before + [call])[..|before|] == before;
  }

  /** The body has returned. */
  method End(s: Scheduler, co: Coroutine)
    requires Active(s, co) && co.script == []
    modifies s`fates, co`status, co`ops, co`point
    ensures InOrder(s, co) && EndedIn(s, co) && co.status == old(co.status) + {EXITED, FDEOF, DETACH}
    ensures s.fates == old(s.fates).(ended := old(s.fates).ended + {co})
  {
    s.fates := s.fates.(ended := s.fates.ended + {co});
    co.status := co.status + {EXITED, FDEOF, DETACH};
    Yield(co, Ended);
    NowEnded(s, co);
  }

  ghost predicate EndedIn(s: Scheduler, co: Coroutine)
    reads s`ready, s`waiting, s`live, s`fates, co
  {
    && co.point == Ended && co in s.fates.ended && EXITED in co.status && DETACH in co.status && co in s.live
    && co !in s.ready && forall fd :: fd in s.waiting ==> s.waiting[fd] != co
  }

  /** Whose turn it was, with which bits, and whether it was resumed. */
  ghost predicate IsTurn(turn: Turn, co: Coroutine, status: set<Bit>, resumed: bool) {
    turn.co == co && turn.status == status && turn.resumed == resumed
  }

  /** The body goes on, and its stretch of calls is recorded. */
  method RunBody(s: Scheduler, co: Coroutine, ghost status: set<Bit>) returns (ghost turn: Turn, ghost views: seq<View>)
    requires Active(s, co) && co.ops == 0 && Told(s)
    modifies s, s.live
    ensures Performed(views, co, turn.calls, co.point != Ended) && views[0] == old(Look(s))
    ensures Look(s) == SwitchedBack(views[|turn.calls|], co, co.point != Ended).(turns := s.turns)
    ensures fresh(s.live - old(s.live)) && co in s.live && Told(s)
    ensures Undisturbed(old(Look(s)).(turns := s.turns), co, Look(s))
    ensures s.turns == old(s.turns) + [turn] && IsTurn(turn, co, status, true)
    ensures turn.calls + co.script == old(co.script) && Stretch(turn.calls, co.point != Ended)
    ensures if co.point == Ended then InOrder(s, co) && EndedIn(s, co) else InOrder(s, null)
  {
    ghost var suspended, calls;
    suspended, calls, views := Body(s, co);
    turn := Turn(co, status, true, calls);
    s.turns := s.turns + [turn];
    ToldTurn(s, co, turn);
  }

  /** A queued coroutine gets the end-of-file bit. */
  method Mark(s: Scheduler, ghost co: Coroutine, k: nat, other: Coroutine)
    requires Active(s, co) && k < |s.ready| && other == s.ready[k]
    modifies s`fates, other`status
    ensures Active(s, co) && Effect(old(Look(s)), co, 0, MarkEof(k), false, Look(s)) && ScriptsKept(s, co)
    ensures other.status == old(other.status) + {FDEOF}
  {
    other.status := other.status + {FDEOF};
    s.fates := s.fates.(marked := s.fates.marked + {other});
    PlacedMarked(s, co, other);
    FatesMarked(s, other);
    ScriptsStay(s, other);
  }

  /** Suspended, and not marked in the queue. */
  ghost predicate Resumable(co: Coroutine)
    reads co
  {
    co.point == Polling || (co.point == Queued && FDEOF !in co.status)
  }

  /** The switch to a coroutine, which goes on where it was suspended. Its context has been set up by then. */
  method Continue(s: Scheduler, co: Coroutine)
    requires OnItsWay(s, co) && Resumable(co)
    modifies s`waiting, s`polled, s`fates, co`status, co`point
    ensures Active(s, co) && OthersWait(old(s.waiting), co, s.waiting)
    ensures Look(s) == GoneOn(old(Look(s)), co, old(co.point), old(co.fd))
  {
    Renew(s, co);
    if co.point == Polling {
      PollEnd(s, co);
    } else {
      Begin(s, co);
    }
  }

  /** A new coroutine gets a context and becomes a ready one, once. */
  method Renew(s: Scheduler, co: Coroutine)
    requires OnItsWay(s, co) && Resumable(co)
    modifies s`fates, co`status
    ensures OnItsWay(s, co) && Resumable(co)
    ensures co.status == if NEW in old(co.status) then {READY} else old(co.status)
    ensures co in old(s.fates).begun <==> NEW !in old(co.status)
    ensures s.fates == old(s.fates).(begun := old(s.fates).begun + {co})
  {
    if NEW in co.status {
      s.fates := s.fates.(begun := s.fates.begun + {co});
      co.status := {READY};
      PlacedRenewed(s, co);
      FatesBegun(s, co);
      ScriptsStay(s, co);
    }
  }

  method Begin(s: Scheduler, co: Coroutine)
    requires OnItsWay(s, co) && co.point == Queued && FDEOF !in co.status && NEW !in co.status
    modifies co`point
    ensures Active(s, co)
  {
    co.point := Running;
    PlacedBegun(s, co);
    FatesStay(s, co);
    ScriptsStay(s, co);
  }

  /** The switch back: a coroutine that has ended is freed, and no other. */
  method Finish(s: Scheduler, co: Coroutine)
    requires co in s.live
    requires (co.point != Ended && InOrder(s, null)) || (InOrder(s, co) && EndedIn(s, co))
    requires Told(s)
    modifies s`live, s`spawned
    ensures Settled(s) && s.live <= old(s.live)
    ensures s.live == if co.point == Ended then old(s.live) - {co} else old(s.live)
  {
    assert co.point != Ended ==> InPlace(s, co);
    if EXITED in co.status {
      if DETACH in co.status {
        Free(s, co);
        ToldEnded(s, co);
      }
    }
  }

  /** The switch to a coroutine, until it switches back. */
  method GoOn(s: Scheduler, co: Coroutine) returns (ghost turn: Turn, ghost views: seq<View>)
    requires OnItsWay(s, co) && Resumable(co) && Told(s)
    modifies s, s.live
    ensures Performed(views, co, turn.calls, co.point != Ended)
    ensures views[0] == GoneOn(old(Look(s)), co, old(co.point), old(co.fd))
    ensures Look(s) == SwitchedBack(views[|turn.calls|], co, co.point != Ended).(turns := s.turns)
    ensures fresh(s.live - old(s.live)) && co in s.live && Told(s)
    ensures Undisturbed(old(Look(s)).(turns := s.turns), co, Look(s)) && co in s.fates.begun
    ensures s.turns == old(s.turns) + [turn] && IsTurn(turn, co, old(co.status), true)
    ensures turn.calls + co.script == old(co.script) && Stretch(turn.calls, co.point != Ended)
    ensures if co.point == Ended then InOrder(s, co) && EndedIn(s, co) else InOrder(s, null)
  {
    ghost var status, v := co.status, Look(s);
    Continue(s, co);
    ToldStays(s);
    ghost var v1 := Look(s);
    turn, views := RunBody(s, co, status);
    UndisturbedSince(v, co, v1, Look(s).(turns := v.turns));
  }

  /**
   nty_coroutine_resume, until the coroutine is suspended again or has been freed: its turn. It is freed exactly
   when it made all the calls of its body that were left and none of them suspended it.
   */
  method Resume(s: Scheduler, co: Coroutine) returns (ghost turn: Turn, ghost views: seq<View>)
    requires OnItsWay(s, co) && Resumable(co) && Told(s)
    modifies s, s.live
    ensures Performed(views, co, turn.calls, co in s.live)
    ensures views[0] == GoneOn(old(Look(s)), co, old(co.point), old(co.fd))
    ensures Look(s) == SwitchedBack(views[|turn.calls|], co, co in s.live).(turns := s.turns)
    ensures Settled(s) && fresh(s.live - old(s.live))
    ensures Undisturbed(old(Look(s)).(turns := s.turns), co, Look(s)) && co in s.fates.begun
    ensures s.turns == old(s.turns) + [turn] && IsTurn(turn, co, old(co.status), true)
    ensures turn.calls + co.script == old(co.script) && Stretch(turn.calls, co in s.live)
    ensures co !in s.live ==> co in s.fates.ended && co.script == []
  {
    turn, views := GoOn(s, co);
    Finish(s, co);
  }

  // ---------- the loops of nty_schedule_run ----------

  /** The head of the ready queue is taken. */
  method Dequeue(s: Scheduler) returns (co: Coroutine)
    requires Settled(s) && s.ready != []
    modifies s`ready
    ensures co == old(s.ready)[0] && s.ready == old(s.ready)[1..]
    ensures OnItsWay(s, co) && co.point == Queued && Told(s)
  {
    co := s.ready[0];
    FirstOf(s.ready);
    s.ready := s.ready[1..];
    NowTaken(s, co);
  }

  lemma FirstOf(ready: seq<Coroutine>)
    requires ready != []
    ensures ready == [ready[0]] + ready[1..]
  {
  }

  /**
   Turns given to the front part of a queue, in order: each coroutine was resumed, but for the last if it
   had the end-of-file bit when its turn came.
   */
  ghost predicate InTurn(start: seq<Coroutine>, taken: seq<Turn>) {
    var ok :=
      && |taken| <= |start|
      && (forall k :: 0 <= k < |taken| ==> taken[k].co == start[k])
      && (forall k :: 0 <= k < |taken| ==> (taken[k].resumed <==> FDEOF !in taken[k].status))
      && (forall k :: 0 <= k < |taken| - 1 ==> taken[k].resumed);
    ok
  }

  /** The turn that ends a pass: it freed a coroutine. */
  predicate Stopped(taken: seq<Turn>) { taken != [] && !taken[|taken| - 1].resumed }

  /** The turns of one pass over the queue, and what it left. Only a marked coroutine ends it early. */
  ghost predicate Passed(v: View, taken: seq<Turn>, v': View) {
    && v'.turns == v.turns + taken && InTurn(v.ready, taken) && (|taken| == |v.ready| || Stopped(taken))
    && (Stopped(taken) ==> taken[|taken| - 1].co in v'.fates.marked)
    && Advanced(v, |taken|, v')
  }

  /**
   One pass over the ready queue. It resumes exactly the coroutines queued at its start, in order, or the
   front part of them up to the first that has the end-of-file bit when its turn comes, which is freed.
   Whatever the coroutines queue meanwhile, themselves included, is left behind those not reached, in the
   order it arrived.
   */
  method ReadyPass(s: Scheduler) returns (ghost taken: seq<Turn>)
    requires Settled(s)
    modifies s, s.live
    ensures fresh(s.live - old(s.live)) && PassOver(s, old(Look(s)), taken)
  {
    ghost var v := Look(s);
    taken := [];
    var last := if s.ready == [] then null else s.ready[|s.ready| - 1];
    PassStarts(s, last);
    while s.ready != []
      invariant fresh(s.live - old(s.live)) && Passing(s, v, taken, last)
      decreases |v.ready| - |taken|
    {
      var co, eof;
      co, eof, taken := PassRound(s, v, taken, last);
      if eof {
        return;
      }
      if co == last {
        return;
      }
    }
    PassNobody(s, v, taken, last);
  }

  /** The pass under way: the front part of the queue, but not all of it unless it was empty, has been resumed. */
  ghost predicate Passing(s: Scheduler, v: View, taken: seq<Turn>, last: Coroutine?)
    reads s, s.live
  {
    var ok :=
      && Settled(s) && InPass(v, taken, Look(s))
      && if v.ready == [] then s.ready == []
         else |taken| < |v.ready| && s.ready != [] && last == v.ready[|v.ready| - 1];
    ok
  }

  /** The pass is over, and everybody is in place; whoever ended it early has been freed. */
  ghost predicate PassOver(s: Scheduler, v: View, taken: seq<Turn>)
    reads s, s.live
  {
    var ok :=
      Settled(s) && Passed(v, taken, Look(s)) && (Stopped(taken) ==> taken[|taken| - 1].co !in s.live);
    ok
  }

  /** The front part of the queue, where no coroutine is twice, has been resumed. */
  ghost predicate InPass(v: View, taken: seq<Turn>, v': View) {
    var ok :=
      && NoDuplicates(v.ready) && v'.turns == v.turns + taken && InTurn(v.ready, taken) && !Stopped(taken)
      && Advanced(v, |taken|, v');
    ok
  }

  lemma PassStarts(s: Scheduler, last: Coroutine?)
    requires Settled(s) && last == if s.ready == [] then null else s.ready[|s.ready| - 1]
    ensures Passing(s, Look(s), [], last)
  {
    UndisturbedAt(Look(s));
  }

  /** There was nobody in the queue. */
  lemma PassNobody(s: Scheduler, v: View, taken: seq<Turn>, last: Coroutine?)
    requires Passing(s, v, taken, last) && s.ready == []
    ensures PassOver(s, v, taken)
  {
    PassEnds(v, taken, Look(s));
  }

  /** No coroutine is queued twice, so the one queued last is met only at its place, and then the pass is over. */
  lemma PassEnds(v: View, taken: seq<Turn>, v': View)
    requires InPass(v, taken, v')
    ensures taken != [] ==> (taken[|taken| - 1].co == v.ready[|v.ready| - 1] <==> |taken| == |v.ready|)
    ensures |taken| == |v.ready| ==> Passed(v, taken, v')
    ensures |taken| < |v.ready| ==> v'.ready != []
  {
  }

  /** One round of the pass: the next coroutine of the queue as it was is freed or resumed. */
  method PassRound(s: Scheduler, ghost v: View, ghost before: seq<Turn>, ghost last: Coroutine?)
      returns (co: Coroutine, eof: bool, ghost taken: seq<Turn>)
    requires Passing(s, v, before, last) && s.ready != []
    modifies s, s.live
    ensures fresh(s.live - old(s.live)) && |before| < |v.ready| && co == v.ready[|before|]
    ensures |taken| == |before| + 1 && before <= taken
    ensures IsTurn(taken[|before|], co, old(v.ready[|before|].status), !eof)
    ensures if eof || co == last then PassOver(s, v, taken) else Passing(s, v, taken, last) && s.ready != []
  {
    ghost var v0 := Look(s);
    PassFirst(v, before, v0);
    ghost var turn;
    co, eof, turn := TakeTurn(s);
    taken := before + [turn];
    PassNext(v, before, v0, turn, Look(s));
    if !eof { PassEnds(v, taken, Look(s)); }
  }

  /** The first coroutine of the queue is taken, and freed or resumed. */
  method TakeTurn(s: Scheduler) returns (co: Coroutine, eof: bool, ghost turn: Turn)
    requires Settled(s) && s.ready != []
    modifies s, s.live
    ensures Settled(s) && fresh(s.live - old(s.live)) && co == old(s.ready)[0] && (eof ==> co !in s.live)
    ensures IsTurn(turn, co, old(s.ready[0].status), !eof) && (eof <==> FDEOF in turn.status)
    ensures eof ==> co in s.fates.marked
    ensures Advanced(old(Look(s)), 1, Look(s)) && s.turns == old(s.turns) + [turn]
  {
    ghost var v := Look(s);
    co := Dequeue(s);
    eof := FDEOF in co.status;
    if eof {
      turn := FreeMarked(s, co);
    } else {
      ghost var views;
      turn, views := Resume(s, co);
    }
    AdvancedFirst(v, Look(s));
  }

  /** A coroutine that was marked in the queue is freed at its turn. */
  method FreeMarked(s: Scheduler, co: Coroutine) returns (ghost turn: Turn)
    requires OnItsWay(s, co) && co.point == Queued && FDEOF in co.status && Told(s)
    modifies s`live, s`spawned, s`turns
    ensures Settled(s) && s.live == old(s.live) - {co} && co in s.fates.marked
    ensures Undisturbed(old(Look(s)).(turns := s.turns), co, Look(s))
    ensures s.turns == old(s.turns) + [turn] && IsTurn(turn, co, co.status, false)
  {
    Free(s, co);
    turn := Turn(co, co.status, false, []);
    s.turns := s.turns + [turn];
    ToldMarked(s, co, turn);
    UndisturbedAt(Look(s));
  }

  lemma AdvancedFirst(v: View, v': View)
    requires v.ready != []
    requires Advanced(v.(ready := v.ready[1..], turns := v'.turns), 0, v')
    ensures Advanced(v, 1, v')
  {
    assert v.ready[1..][0..] == v.ready[1..];
  }

  lemma PassFirst(v: View, before: seq<Turn>, v0: View)
    requires InPass(v, before, v0) && |before| < |v.ready|
    ensures v0.ready != [] && v0.ready[0] == v.ready[|before|]
  {
  }

  lemma PassNext(v: View, before: seq<Turn>, v0: View, turn: Turn, v': View)
    requires InPass(v, before, v0) && |before| < |v.ready| && turn.co == v.ready[|before|]
    requires (turn.resumed <==> FDEOF !in turn.status) && (!turn.resumed ==> turn.co in v'.fates.marked)
    requires v'.turns == v0.turns + [turn] && Advanced(v0, 1, v')
    ensures var taken := before + [turn]; if turn.resumed then InPass(v, taken, v') else Passed(v, taken, v')
  {
    AdvancedOn(v, |before|, v0, 1, v');
  }

  /** The events of one batch: each of a registered descriptor, one for each at most. */
  predicate Batch(fds: set<int>, events: seq<Event>) {
    var ok :=
      && (forall i :: 0 <= i < |events| ==> events[i].fd in fds)
      && (forall i, j :: 0 <= i < j < |events| ==> events[i].fd != events[j].fd);
    ok
  }

  /** What epoll reports of the events that there are: the first for each registered descriptor. */
  function Deliver(fds: set<int>, offer: seq<Event>): (events: seq<Event>)
    ensures Batch(fds, events) && forall e :: e in events ==> e in offer
    ensures forall e :: e in offer && e.fd in fds ==> e.fd in Fds(events)
  {
    if offer == [] then [] else
      var events, e := Deliver(fds, offer[..|offer| - 1]), offer[|offer| - 1];
      if e.fd in fds && e.fd !in Fds(events) then events + [e] else events
  }

  function Fds(events: seq<Event>): set<int> { set e | e in events :: e.fd }

  /**
   What epoll did: nothing while a coroutine is ready, and else it waited up to three seconds and reported what
   there was for the descriptors that have a waiter.
   */
  ghost predicate Asked(v: View, offer: seq<Event>, events: seq<Event>, v': View) {
    if v.ready != [] then events == [] && v' == v
    else events == Deliver(v.waiting.Keys, offer) && v' == v.(reports := v.reports + [Report(3000, events)])
  }

  /** nty_schedule_epoll, when these are the events there are. Nobody writes to the eventfd, so it does not fire. */
  method Epoll(s: Scheduler, offer: seq<Event>) returns (events: seq<Event>)
    requires s.sleeping == map[] && s.polled == s.waiting.Keys
    modifies s`clock, s`reports
    ensures Batch(s.polled, events) && Asked(old(Look(s)), offer, events, Look(s))
  {
    events := [];
    var waits, ms := Sleep.EpollTimeout(s);
    if waits {
      events := Deliver(s.polled, offer);
      s.reports := s.reports + [Report(ms, events)];
    }
  }

  /** The turn of the coroutine that waited for the descriptor of an event. */
  ghost predicate Answer(waiting: map<int, Coroutine>, event: Event, turn: Turn) {
    event.fd in waiting && IsTurn(turn, waiting[event.fd], if event.eof then {FDEOF} else {}, true)
  }

  /** The turns answer the last events, from the last one on towards the front. */
  ghost predicate AllAnswered(waiting: map<int, Coroutine>, events: seq<Event>, answers: seq<Turn>) {
    var ok :=
      |answers| <= |events|
      && forall k :: 0 <= k < |answers| ==> Answer(waiting, events[|events| - 1 - k], answers[k]);
    ok
  }

  /** The turns of the coroutines that waited for the descriptors of a batch, from the last event to the first. */
  ghost predicate Answered(v: View, events: seq<Event>, answers: seq<Turn>, v': View) {
    && v'.turns == v.turns + answers && |answers| == |events|
    && AllAnswered(v.waiting, events, answers) && Advanced(v, 0, v')
  }

  /**
   The loop over a batch of events, last one first. The look-up of every event finds a coroutine, whatever
   the ones before it did, and that is the one that waited for the descriptor when the batch was taken.
   */
  method EventPass(s: Scheduler, events: seq<Event>) returns (ghost answers: seq<Turn>)
    requires Settled(s) && Batch(s.polled, events)
    modifies s, s.live
    ensures Settled(s) && fresh(s.live - old(s.live)) && Answered(old(Look(s)), events, answers, Look(s))
  {
    ghost var v := Look(s);
    answers := [];
    var left: nat := |events|;
    AnswersStart(s, events);
    while left > 0
      invariant left <= |events| && Settled(s) && fresh(s.live - old(s.live))
      invariant Answering(v, events, left, answers, Look(s))
    {
      answers := AnswerOne(s, v, events, left, answers);
      left := left - 1;
    }
    AnswersEnd(v, events, answers, Look(s));
  }

  /** The round for the last event that is left. */
  method AnswerOne(s: Scheduler, ghost v: View, events: seq<Event>, left: nat, ghost before: seq<Turn>)
      returns (ghost answers: seq<Turn>)
    requires Settled(s) && 0 < left <= |events| && Answering(v, events, left, before, Look(s))
    modifies s, s.live
    ensures Settled(s) && fresh(s.live - old(s.live)) && Answering(v, events, left - 1, answers, Look(s))
  {
    ghost var v0 := Look(s);
    NextWaits(v, events, left, before, v0);
    ghost var turn := EventRound(s, events[left - 1]);
    AnswerNext(v, events, left, before, v0, turn, Look(s));
    answers := before + [turn];
  }

  lemma AnswersEnd(v: View, events: seq<Event>, answers: seq<Turn>, v': View)
    requires Answering(v, events, 0, answers, v')
    ensures Answered(v, events, answers, v')
  {
  }

  /** The loop over a batch under way: the last events have been answered, for the others the coroutines still wait. */
  ghost predicate Answering(v: View, events: seq<Event>, left: nat, answers: seq<Turn>, v': View) {
    var ok :=
      && Batch(v.waiting.Keys, events) && OnePlaceEach(v.waiting) && |answers| == |events| - left
      && StillWait(v.waiting, events, left, v'.waiting) && v'.turns == v.turns + answers
      && AllAnswered(v.waiting, events, answers) && Advanced(v, 0, v');
    ok
  }

  lemma AnswersStart(s: Scheduler, events: seq<Event>)
    requires Settled(s) && Batch(s.polled, events)
    ensures Answering(Look(s), events, |events|, [], Look(s))
  {
    EachOnce(s);
    UndisturbedAt(Look(s));
  }

  lemma NextWaits(v: View, events: seq<Event>, left: nat, answers: seq<Turn>, v0: View)
    requires left > 0 && Answering(v, events, left, answers, v0)
    ensures left <= |events| && events[left - 1].fd in v0.waiting
  {
  }

  /** One event: nty_schedule_search_wait finds the coroutine that waits for its descriptor, and it is resumed. */
  method EventRound(s: Scheduler, event: Event) returns (ghost turn: Turn)
    requires Settled(s) && event.fd in s.waiting
    modifies s, s.live
    ensures Settled(s) && fresh(s.live - old(s.live)) && Answer(old(s.waiting), event, turn)
    ensures Undisturbed(old(Look(s)).(turns := s.turns), turn.co, Look(s)) && s.turns == old(s.turns) + [turn]
  {
    var co := s.waiting[event.fd];
    co.status := {};
    if event.eof {
      co.status := co.status + {FDEOF};
    }
    Found(s, co);
    ghost var views;
    turn, views := Resume(s, co);
  }

  /** The coroutine that an event is for stays where it is until it is resumed. */
  twostate lemma Found(s: Scheduler, new co: Coroutine)
    requires co in old(s.live)
    requires old(Settled(s)) && old(co.point) == Polling && Others(s, co) && s.live == old(s.live)
    requires s.ready == old(s.ready) && s.waiting == old(s.waiting) && s.sleeping == old(s.sleeping)
    requires s.polled == old(s.polled) && s.spawned == old(s.spawned) && s.fates == old(s.fates)
    requires s.turns == old(s.turns) && co.status <= {FDEOF} && co.point == Polling && co.fd == old(co.fd)
    requires co.ops == old(co.ops) && co.script == old(co.script)
    ensures OnItsWay(s, co) && Told(s)
  {
    FatesStay(s, co);
    ScriptsStay(s, co);
    ToldStays(s);
  }

  /** The coroutines that waited for the descriptors of the first events still do. */
  ghost predicate StillWait(waiting: map<int, Coroutine>, events: seq<Event>, left: nat,
                            waiting': map<int, Coroutine>)
  {
    var ok :=
      left <= |events| && forall i :: 0 <= i < left ==> Awaits(waiting, events[i].fd, waiting');
    ok
  }

  ghost predicate Awaits(waiting: map<int, Coroutine>, fd: int, waiting': map<int, Coroutine>) {
    fd in waiting && fd in waiting' && waiting'[fd] == waiting[fd]
  }

  lemma AnswerNext(v: View, events: seq<Event>, left: nat, answers: seq<Turn>, v0: View, turn: Turn, v': View)
    requires 0 < left <= |events| && Answering(v, events, left, answers, v0) && v'.turns == v0.turns + [turn]
    requires Answer(v0.waiting, events[left - 1], turn) && Undisturbed(v0.(turns := v'.turns), turn.co, v')
    ensures Answering(v, events, left - 1, answers + [turn], v')
  {
    AdvancedOn(v, 0, v0, 0, v');
    assert Awaits(v.waiting, events[left - 1].fd, v0.waiting);
    StillWaitNext(v.waiting, events, left - 1, v0.waiting, turn.co, v'.waiting);
    assert AllAnswered(v.waiting, events, answers + [turn]);
  }

  lemma StillWaitNext(waiting: map<int, Coroutine>, events: seq<Event>, left: nat, waiting0: map<int, Coroutine>,
                      co: Coroutine, waiting': map<int, Coroutine>)
    requires left < |events| && Batch(waiting.Keys, events) && OnePlaceEach(waiting)
    requires StillWait(waiting, events, left + 1, waiting0) && OthersWait(waiting0, co, waiting')
    requires co == waiting[events[left].fd]
    ensures StillWait(waiting, events, left, waiting')
  {
    forall i | 0 <= i < left
      ensures Awaits(waiting, events[i].fd, waiting')
    {
      assert Awaits(waiting, events[i].fd, waiting0) && events[i].fd != events[left].fd;
    }
  }

  lemma EachOnce(s: Scheduler)
    requires Settled(s)
    ensures OnePlaceEach(s.waiting) && s.polled == s.waiting.Keys
  {
  }

  /** Nobody waits for two descriptors. */
  ghost predicate OnePlaceEach(waiting: map<int, Coroutine>) {
    var ok := forall fd, fd' :: fd in waiting && fd' in waiting && waiting[fd] == waiting[fd'] ==> fd == fd';
    ok
  }

  /** The queue and the trees are empty. */
  ghost predicate Over(s: Scheduler)
    reads s`ready, s`sleeping, s`waiting
  {
    var ok := s.waiting == map[] && s.sleeping == map[] && s.ready == [];
    ok
  }

  /** nty_schedule_isdone */
  method IsDone(s: Scheduler) returns (done: bool)
    requires Settled(s)
    ensures (done <==> Over(s)) && Settled(s) && Look(s) == old(Look(s))
    ensures done ==> s.live == {} && s.spawned == 0
  {
    done := s.waiting == map[] && s.sleeping == map[] && s.ready == [];
    if done { NobodyLeft(s); }
  }

  /**
   Then nobody is left: all that were created have ended, or were marked in the queue, and not both. Those that
   ended made in their turns the calls of their bodies, each once and in order.
   */
  lemma NobodyLeft(s: Scheduler)
    requires Settled(s) && Over(s)
    ensures s.live == {} && s.spawned == 0
    ensures s.fates.created == s.fates.ended + s.fates.marked && s.fates.ended !! s.fates.marked
    ensures forall co :: co in s.fates.ended ==> co in s.fates.begun && CallsOf(s.turns, co) == co.body
  {
    assert forall co :: co in s.live ==> InPlace(s, co);
    forall co | co in s.fates.ended
      ensures CallsOf(s.turns, co) == co.body
    {
      BodyMade(s, co);
    }
  }

  /**
   What one round found, the turns of its pass, what that left, the events there were then and those reported,
   what was so when epoll had been asked, and the turns they gave.
   */
  datatype Round = Round(before: View, taken: seq<Turn>, between: View, offer: seq<Event>, events: seq<Event>,
                         asked: View, answers: seq<Turn>, after: View)

  /** A round passes through the queue, asks epoll if nobody is ready then, and answers every event of its report. */
  ghost predicate Complete(r: Round) {
    var ok :=
      && (r.before.ready != [] || r.before.waiting != map[])
      && Passed(r.before, r.taken, r.between)
      && Batch(r.between.waiting.Keys, r.events) && Asked(r.between, r.offer, r.events, r.asked)
      && Answered(r.asked, r.events, r.answers, r.after);
    ok
  }

  /** Complete rounds from `v` to `v'`, each beginning with what the one before it left. */
  ghost predicate Rounds(v: View, log: seq<Round>, v': View) {
    if log == [] then v' == v else
      var r := log[|log| - 1];
      Rounds(v, log[..|log| - 1], r.before) && Complete(r) && v' == r.after
  }

  lemma OneMoreRound(v: View, log: seq<Round>, r: Round)
    requires Rounds(v, log, r.before) && Complete(r)
    ensures Rounds(v, log + [r], r.after)
  {
    assert (log + [r])[..|log|] == log;
  }

  /** All turns that the rounds gave, in order. */
  ghost function TurnsOf(log: seq<Round>): seq<Turn> {
    if log == [] then [] else
      var r := log[|log| - 1];
      TurnsOf(log[..|log| - 1]) + r.taken + r.answers
  }

  lemma RoundTurns(r: Round)
    requires Complete(r)
    ensures r.after.turns == r.before.turns + r.taken + r.answers
  {
  }

  /** Nobody has a turn outside the two loops of a round. */
  lemma {:induction false} TurnsGiven(v: View, log: seq<Round>, v': View)
    requires Rounds(v, log, v')
    ensures v'.turns == v.turns + TurnsOf(log)
    decreases |log|
  {
    if log != [] {
      var front, r := log[..|log| - 1], log[|log| - 1];
      TurnsGiven(v, front, r.before);
      RoundTurns(r);
      Regroup(v.turns, TurnsOf(front), r.taken, r.answers);
    }
  }

  lemma Regroup(a: seq<Turn>, b: seq<Turn>, c: seq<Turn>, d: seq<Turn>)
    ensures a + b + c + d == a + (b + c + d)
  {
  }

  /** Every turn is a resumption, and every pass takes the whole queue it finds. */
  ghost predicate Uncut(log: seq<Round>) {
    var ok :=
      && (forall t :: t in TurnsOf(log) ==> t.resumed)
      && (forall r :: r in log ==> |r.taken| == |r.before.ready| && !Stopped(r.taken));
    ok
  }

  /** When nobody was ever marked, every turn was a resumption and every round took the whole queue. */
  lemma {:induction false} NobodyMarked(v: View, log: seq<Round>, v': View)
    requires Rounds(v, log, v') && v'.fates.marked == {}
    ensures v.fates.marked == {} && Uncut(log)
    decreases |log|
  {
    if log != [] {
      var front, r := log[..|log| - 1], log[|log| - 1];
      RoundUnmarked(r);
      NobodyMarked(v, front, r.before);
      assert log == front + [r];
    }
  }

  lemma RoundUnmarked(r: Round)
    requires Complete(r) && r.after.fates.marked == {}
    ensures r.before.fates.marked == {} && |r.taken| == |r.before.ready| && !Stopped(r.taken)
    ensures forall t :: t in r.taken || t in r.answers ==> t.resumed
  {
    assert r.between.fates.marked <= r.asked.fates.marked <= r.after.fates.marked;
    PassUnmarked(r.before, r.taken, r.between);
    AllResumed(r.asked.waiting, r.events, r.answers);
  }

  lemma PassUnmarked(v: View, taken: seq<Turn>, v': View)
    requires Passed(v, taken, v') && v'.fates.marked == {}
    ensures v.fates.marked == {} && |taken| == |v.ready| && !Stopped(taken) && forall t :: t in taken ==> t.resumed
  {
    forall t | t in taken
      ensures t.resumed
    {
      var k :| 0 <= k < |taken| && taken[k] == t;
    }
  }

  lemma AllResumed(waiting: map<int, Coroutine>, events: seq<Event>, answers: seq<Turn>)
    requires AllAnswered(waiting, events, answers)
    ensures forall t :: t in answers ==> t.resumed
  {
    forall t | t in answers
      ensures t.resumed
    {
      var k :| 0 <= k < |answers| && answers[k] == t;
      assert Answer(waiting, events[|events| - 1 - k], answers[k]);
    }
  }

  /** The rounds from `v` to `v'` and all turns given on the way. */
  ghost predicate Ran(v: View, log: seq<Round>, v': View) {
    var ok := Rounds(v, log, v') && v'.turns == v.turns + TurnsOf(log);
    ok
  }

  lemma RanOn(v: View, log: seq<Round>, r: Round)
    requires Ran(v, log, r.before) && Complete(r)
    ensures Ran(v, log + [r], r.after)
  {
    OneMoreRound(v, log, r);
    TurnsGiven(v, log + [r], r.after);
  }

  /** The events there were in each round. */
  ghost predicate Offered(offers: seq<seq<Event>>, log: seq<Round>) {
    var ok := |log| <= |offers| && forall i :: 0 <= i < |log| ==> log[i].offer == offers[i];
    ok
  }

  /** The loop of nty_schedule_run under way: the rounds so far. */
  ghost predicate Rounding(v: View, offers: seq<seq<Event>>, log: seq<Round>, now: View) {
    var ok := Ran(v, log, now) && Offered(offers, log);
    ok
  }

  /** One round, and then the test whether to go on. */
  method NextRound(s: Scheduler, offers: seq<seq<Event>>, n: nat, ghost v: View, ghost before: seq<Round>)
      returns (ghost log: seq<Round>, done: bool)
    requires Settled(s) && !Over(s) && Rounding(v, offers, before, Look(s)) && n == |before| < |offers|
    modifies s, s.live
    ensures fresh(s.live - old(s.live)) && Settled(s) && (done <==> Over(s))
    ensures Rounding(v, offers, log, Look(s)) && |log| == n + 1
  {
    ghost var r := RunRound(s, offers[n]);
    RoundingOn(v, offers, before, r);
    log := before + [r];
    done := IsDone(s);
  }

  lemma RoundingOn(v: View, offers: seq<seq<Event>>, before: seq<Round>, r: Round)
    requires Rounding(v, offers, before, r.before) && Complete(r)
    requires |before| < |offers| && r.offer == offers[|before|]
    ensures Rounding(v, offers, before + [r], r.after)
  {
    RanOn(v, before, r);
  }

  /** One round, with the events that there are for epoll. */
  method RunRound(s: Scheduler, offer: seq<Event>) returns (ghost r: Round)
    requires Settled(s) && !Over(s)
    modifies s, s.live
    ensures Settled(s) && fresh(s.live - old(s.live))
    ensures Complete(r) && r.before == old(Look(s)) && r.after == Look(s) && r.offer == offer
  {
    ghost var before := Look(s);
    // nobody sleeps, so nty_schedule_expired finds nobody
    assert s.sleeping == map[];
    ghost var taken := ReadyPass(s);
    ghost var between := Look(s);
    EachOnce(s);
    var events := Epoll(s, offer);
    ghost var asked := Look(s);
    ghost var answers := EventPass(s, events);
    r := Round(before, taken, between, offer, events, asked, answers, Look(s));
  }

  /**
   nty_schedule_run, for any number of rounds, with the events there are for epoll in each. Each round is complete,
   and between them no coroutine is lost. The loop ends only when all have been freed: then every coroutine ever
   created has run its whole body, but for those that got the end-of-file bit in the queue, which no library step
   gives them there, and these have not ended.
   */
  method Run(s: Scheduler, offers: seq<seq<Event>>) returns (done: bool, ghost log: seq<Round>)
    requires Settled(s)
    modifies s, s.live
    ensures Settled(s) && Ran(old(Look(s)), log, Look(s))
    ensures Offered(offers, log) && (!done ==> |log| == |offers|)
    ensures done ==> s.live == {} && s.spawned == 0 && s.ready == [] && s.waiting == map[]
    ensures done ==> s.fates.created == s.fates.ended + s.fates.marked && s.fates.ended !! s.fates.marked
    ensures done ==> forall co :: co in s.fates.ended ==> co in s.fates.begun && CallsOf(s.turns, co) == co.body
    ensures s.fates.marked == {} ==> Uncut(log) && (done ==> s.fates.created == s.fates.ended)
  {
    done, log := RunRounds(s, offers);
    if done { NobodyLeft(s); }
    RunUncut(old(Look(s)), log, Look(s));
  }

  method RunRounds(s: Scheduler, offers: seq<seq<Event>>) returns (done: bool, ghost log: seq<Round>)
    requires Settled(s)
    modifies s, s.live
    ensures Settled(s) && Ran(old(Look(s)), log, Look(s)) && (done <==> Over(s))
    ensures Offered(offers, log) && (!done ==> |log| == |offers|)
  {
    ghost var v := Look(s);
    log := [];
    done := IsDone(s);
    var n := 0;
    while n < |offers| && !done
      invariant n <= |offers| && fresh(s.live - old(s.live)) && Settled(s) && (done <==> Over(s))
      invariant |log| == n && Rounding(v, offers, log, Look(s))
    {
      log, done := NextRound(s, offers, n, v, log);
      n := n + 1;
    }
  }

  lemma RunUncut(v: View, log: seq<Round>, v': View)
    requires Ran(v, log, v')
    ensures v'.fates.marked == {} ==> Uncut(log)
  {
    if v'.fates.marked == {} { NobodyMarked(v, log, v'); }
  }
}

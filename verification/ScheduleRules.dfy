/**
 What holds between the steps of the scheduler as long as nobody sleeps for a positive time: where the
 coroutines are, and what has become of them.
 */
module ScheduleRules {
  import opened Schedule
  import opened Sequences

  /** The bits that the assertion in nty_schedule_sched_wait reads. */
  const WAIT_READ: Bit := 0
  const WAIT_WRITE: Bit := 1

  /** A coroutine taken from where it was suspended, or running. */
  ghost predicate Moving(s: Scheduler, co: Coroutine)
    reads s`ready, s`waiting, s`live, co
  {
    var ok :=
      && co in s.live && co !in s.ready && EXITED !in co.status
      && (forall fd :: fd in s.waiting && s.waiting[fd] == co ==> co.point == Polling && co.fd == fd)
      && (co.point == Polling ==> co.fd in s.waiting && s.waiting[co.fd] == co)
      && (co.point != Polling ==> Clear(co.status));
    ok
  }

  /** The wait bits are clear. */
  predicate Clear(status: set<Bit>) { WAIT_READ !in status && WAIT_WRITE !in status }

  /** The coroutine is in the queue, with the wait bits clear, or in the wait tree under its descriptor. */
  ghost predicate InPlace(s: Scheduler, co: Coroutine)
    reads s`ready, s`waiting, co
  {
    && EXITED !in co.status
    && (co.point == Queued || co.point == Polling)
    && (co.point == Queued ==> co in s.ready && Clear(co.status))
    && (co.point == Polling ==> co.fd in s.waiting && s.waiting[co.fd] == co)
  }

  /** Every suspended coroutine but the one on its way is in its place, and nothing else is there. */
  ghost predicate Placed(s: Scheduler, moving: Coroutine?)
    reads s`ready, s`waiting, s`live, s.live
  {
    var ok :=
      && NoDuplicates(s.ready)
      && (forall co :: co in s.ready ==> co in s.live && co != moving && co.point == Queued)
      && (forall fd :: fd in s.waiting ==>
            s.waiting[fd] in s.live && s.waiting[fd].fd == fd && s.waiting[fd].point == Polling)
      && (forall co :: co in s.live && co != moving ==> InPlace(s, co));
    ok
  }

  /** The sets and counters beside the queue and the trees. */
  ghost predicate Counted(s: Scheduler)
    reads s`sleeping, s`polled, s`waiting, s`spawned, s`live
  {
    var ok := s.sleeping == map[] && s.polled == s.waiting.Keys && s.spawned == |s.live|;
    ok
  }

  /** Where a live coroutine stands tells what has happened to it. */
  ghost predicate Fate(f: Fates, co: Coroutine)
    reads co
  {
    && (co in f.begun <==> NEW !in co.status) && (co.point != Queued ==> co in f.begun)
    && (co in f.ended <==> co.point == Ended)
    && (co in f.marked <==> co.point == Queued && FDEOF in co.status)
    && (co.point == Running ==> FDEOF !in co.status)
  }

  /** Every coroutine created is live, has ended or was marked, and nobody both ended and was marked. */
  ghost predicate Fated(s: Scheduler)
    reads s`live, s`fates, s.live
  {
    var ok :=
      && s.fates.created == s.live + s.fates.ended + s.fates.marked && s.fates.ended !! s.fates.marked
      && s.fates.ended <= s.fates.begun <= s.fates.created
      && (forall co :: co in s.live ==> Fate(s.fates, co));
    ok
  }

  /** Renices are counted from the last suspension on, and no call is left when the body has returned. */
  ghost predicate Scripted(co: Coroutine)
    reads co
  {
    && co.ops < 5 && (co.point == Queued || co.point == Polling ==> co.ops == 0)
    && (co.point == Ended ==> co.script == [])
  }

  ghost predicate AllScripted(s: Scheduler)
    reads s`live, s.live
  {
    var ok := forall co :: co in s.live ==> Scripted(co);
    ok
  }

  /** All of the above, while `moving`, if anybody, is out of its place. */
  ghost predicate InOrder(s: Scheduler, moving: Coroutine?)
    reads s`ready, s`sleeping, s`waiting, s`polled, s`spawned, s`live, s`fates, s.live
  {
    var ok := Placed(s, moving) && Counted(s) && Fated(s) && AllScripted(s);
    ok
  }

  predicate IsRenice(call: Call) { call.Renice? }

  function Renices(calls: seq<Call>): nat {
    if calls == [] then 0 else
      Renices(calls[..|calls| - 1]) + if IsRenice(calls[|calls| - 1]) then 1 else 0
  }

  /** None of these calls suspends: no sleep(0) and fewer than five renices. */
  predicate GoesOn(calls: seq<Call>) { Sleep0 !in calls && Renices(calls) < 5 }

  /** The calls from one suspension to the next, or to the end: the fifth renice suspends, and no earlier one does. */
  predicate Stretch(calls: seq<Call>, suspended: bool) {
    if !suspended then GoesOn(calls) else
      && calls != [] && GoesOn(calls[..|calls| - 1])
      && match calls[|calls| - 1]
         case Sleep0 => true
         case Poll(_, _) => true
         case Renice => Renices(calls[..|calls| - 1]) == 4
         case _ => false
  }

  /** The calls that a coroutine made in its turns, in order. */
  ghost function CallsOf(turns: seq<Turn>, co: Coroutine): seq<Call> {
    if turns == [] then [] else
      CallsOf(turns[..|turns| - 1], co) + if turns[|turns| - 1].co == co then turns[|turns| - 1].calls else []
  }

  /** Every turn is a stretch of calls, or none if the coroutine was freed at once. */
  predicate Proper(t: Turn) {
    if t.resumed then Stretch(t.calls, true) || Stretch(t.calls, false) else t.calls == []
  }

  /** The calls that the turns record, and then those still to make, are the calls of the body. */
  ghost predicate Tells(turns: seq<Turn>, co: Coroutine, script: seq<Call>) {
    CallsOf(turns, co) + script == co.body
  }

  ghost predicate Recorded(f: Fates, t: Turn) { t.co in f.created && Proper(t) }

  /**
   The turns tell the story of every body: the calls made so far and those still to make are its calls, in order,
   and whoever has ended and was freed has made them all.
   */
  ghost predicate Told(s: Scheduler)
    reads s`live, s`fates, s`turns, s.live
  {
    var ok :=
      && (forall co {:trigger Tells(s.turns, co, co.script)} :: co in s.live ==> Tells(s.turns, co, co.script))
      && (forall co {:trigger Tells(s.turns, co, [])} ::
            co in s.fates.ended && co !in s.live ==> Tells(s.turns, co, []))
      && (forall t {:trigger Recorded(s.fates, t)} :: t in s.turns ==> Recorded(s.fates, t));
    ok
  }

  /** Between turns. */
  ghost predicate Settled(s: Scheduler)
    reads s`ready, s`sleeping, s`waiting, s`polled, s`spawned, s`live, s`fates, s`turns, s.live
  {
    var ok := InOrder(s, null) && Told(s);
    ok
  }

  /** Between suspensions, while `co` is taken from its place or runs. */
  ghost predicate OnItsWay(s: Scheduler, co: Coroutine)
    reads s`ready, s`sleeping, s`waiting, s`polled, s`spawned, s`live, s`fates, s.live, co
  {
    var ok := InOrder(s, co) && Moving(s, co);
    ok
  }

  /** While `co` runs. */
  ghost predicate Active(s: Scheduler, co: Coroutine)
    reads s`ready, s`sleeping, s`waiting, s`polled, s`spawned, s`live, s`fates, s.live, co
  {
    OnItsWay(s, co) && co.point == Running
  }

  /**
   The turns of a coroutine, and then what is left, make up its body: no call of it is skipped, made twice or made
   out of order. Nothing is left when it has ended and was freed.
   */
  lemma BodyMade(s: Scheduler, co: Coroutine)
    requires Settled(s)
    ensures co in s.live ==> CallsOf(s.turns, co) + co.script == co.body
    ensures co in s.fates.ended && co !in s.live ==> CallsOf(s.turns, co) == co.body
  {
    if co in s.live {
      assert Tells(s.turns, co, co.script);
    } else if co in s.fates.ended {
      assert Tells(s.turns, co, []);
    }
  }

  lemma {:induction false} RenicesGrow(calls: seq<Call>, i: nat)
    requires i <= |calls|
    ensures Renices(calls[..i]) <= Renices(calls)
  {
    if i < |calls| {
      RenicesGrow(calls[..|calls| - 1], i);
      assert calls[..|calls| - 1][..i] == calls[..i];
    } else {
      assert calls[..i] == calls;
    }
  }

  /** In a stretch of calls from one suspension to the next, a renice suspends exactly if it is the fifth. */
  lemma FifthRenice(calls: seq<Call>, suspended: bool, i: nat)
    requires Stretch(calls, suspended) && i < |calls| && IsRenice(calls[i])
    ensures suspended && i == |calls| - 1 <==> Renices(calls[..i + 1]) == 5
  {
    if i < |calls| - 1 {
      RenicesGrow(calls[..|calls| - 1], i + 1);
      assert calls[..|calls| - 1][..i + 1] == calls[..i + 1];
      RenicesGrow(calls, i + 1);
    } else {
      assert calls[..i + 1] == calls;
    }
  }

  /** Every turn was such a stretch. */
  lemma TurnStretch(s: Scheduler, t: Turn)
    requires Settled(s) && t in s.turns && t.resumed
    ensures Stretch(t.calls, true) || Stretch(t.calls, false)
  {
    assert Recorded(s.fates, t);
  }

  /** No coroutine is lost: a suspended one is in the ready queue or in the wait tree, and not in both. */
  lemma InOnePlace(s: Scheduler, co: Coroutine)
    requires Settled(s) && co in s.live
    ensures co in s.ready <==> !(co.fd in s.waiting && s.waiting[co.fd] == co)
    ensures forall fd :: fd in s.waiting && s.waiting[fd] == co ==> co.fd == fd
  {
    assert InPlace(s, co);
    assert forall fd :: fd in s.waiting ==> s.waiting[fd].point == Polling && s.waiting[fd].fd == fd;
  }

  // ---------- what a step of one coroutine keeps ----------

  /** No coroutine that was live has changed, but for `co`. */
  twostate predicate Others(s: Scheduler, co: Coroutine?)
    reads s`live, s.live
  {
    forall x :: x in s.live && x in old(s.live) && x != co ==>
      && x.status == old(x.status) && x.fd == old(x.fd) && x.point == old(x.point)
      && x.ops == old(x.ops) && x.script == old(x.script)
  }

  twostate lemma ScriptsStay(s: Scheduler, new co: Coroutine)
    requires co in old(s.live)
    requires old(AllScripted(s)) && s.live <= old(s.live) && Others(s, co) && Scripted(co)
    ensures AllScripted(s)
  {
  }

  /** Nobody but `co` made a call, and the new ones have all theirs before them. */
  twostate predicate ScriptsKept(s: Scheduler, co: Coroutine)
    reads s`live, s.live
  {
    var ok := forall x :: x in s.live && x != co ==>
      if x in old(s.live) then x.script == old(x.script) else x !in old(s.fates.created) && x.script == x.body;
    ok
  }

  lemma {:induction false} NoCalls(turns: seq<Turn>, co: Coroutine)
    requires forall t :: t in turns ==> t.co != co
    ensures CallsOf(turns, co) == []
  {
    if turns != [] {
      assert turns[|turns| - 1] in turns;
      NoCalls(turns[..|turns| - 1], co);
    }
  }

  lemma OneMoreTurn(turns: seq<Turn>, turn: Turn, co: Coroutine)
    ensures CallsOf(turns + [turn], co) == CallsOf(turns, co) + if turn.co == co then turn.calls else []
  {
    assert (turns + [turn])[..|turns|] == turns;
  }

  lemma StillRecorded(turns: seq<Turn>, f: Fates, f': Fates)
    requires (forall t :: t in turns ==> Recorded(f, t)) && f.created <= f'.created
    ensures forall t :: t in turns ==> Recorded(f', t) && t.co in f.created
  {
    forall t | t in turns
      ensures Recorded(f', t) && t.co in f.created
    {
      assert Recorded(f, t);
    }
  }

  /** The turn of `co` is recorded. */
  twostate lemma ToldTurn(s: Scheduler, new co: Coroutine, new turn: Turn)
    requires co in old(s.live) && co in s.live
    requires old(Told(s)) && old(Fated(s)) && old(s.live) <= s.live && ScriptsKept(s, co)
    requires s.turns == old(s.turns) + [turn] && turn.co == co && Proper(turn)
    requires turn.calls + co.script == old(co.script)
    requires old(s.fates).created <= s.fates.created && s.fates.ended <= old(s.fates).ended + {co}
    ensures Told(s)
  {
    StillRecorded(old(s.turns), old(s.fates), s.fates);
    forall x | x in s.live
      ensures Tells(s.turns, x, x.script)
    {
      OneMoreTurn(old(s.turns), turn, x);
      if x !in old(s.live) {
        NoCalls(old(s.turns), x);
      } else {
        assert old(Tells(s.turns, x, x.script));
      }
    }
    forall x | x in s.fates.ended && x !in s.live
      ensures Tells(s.turns, x, [])
    {
      OneMoreTurn(old(s.turns), turn, x);
      assert old(Tells(s.turns, x, []));
    }
  }

  /** The coroutine was freed at once, and had not ended. */
  twostate lemma ToldMarked(s: Scheduler, new co: Coroutine, new turn: Turn)
    requires co in old(s.live)
    requires old(Told(s)) && old(Fated(s)) && s.live == old(s.live) - {co} && s.fates == old(s.fates)
    requires co !in s.fates.ended && s.turns == old(s.turns) + [turn] && turn == Turn(co, turn.status, false, [])
    requires forall x :: x in s.live ==> x.script == old(x.script)
    ensures Told(s)
  {
    StillRecorded(old(s.turns), old(s.fates), s.fates);
    forall x | x in s.live
      ensures Tells(s.turns, x, x.script)
    {
      OneMoreTurn(old(s.turns), turn, x);
      assert old(Tells(s.turns, x, x.script));
    }
    forall x | x in s.fates.ended && x !in s.live
      ensures Tells(s.turns, x, [])
    {
      OneMoreTurn(old(s.turns), turn, x);
      assert old(Tells(s.turns, x, []));
    }
  }

  twostate lemma ToldEnded(s: Scheduler, new co: Coroutine)
    requires co in old(s.live)
    requires old(Told(s)) && s.live == old(s.live) - {co} && s.turns == old(s.turns) && s.fates == old(s.fates)
    requires old(co.script) == [] && forall x :: x in s.live ==> x.script == old(x.script)
    ensures Told(s)
  {
    StillRecorded(s.turns, old(s.fates), s.fates);
    assert old(Tells(s.turns, co, co.script));
    forall x | x in s.live
      ensures Tells(s.turns, x, x.script)
    {
      assert old(Tells(s.turns, x, x.script));
    }
    forall x | x in s.fates.ended && x !in s.live
      ensures Tells(s.turns, x, [])
    {
      assert x != co ==> old(Tells(s.turns, x, []));
    }
  }

  /** Nobody made a call or had a turn. */
  twostate lemma ToldStays(s: Scheduler)
    requires old(Told(s)) && s.live == old(s.live) && s.turns == old(s.turns)
    requires s.fates.created == old(s.fates).created && s.fates.ended == old(s.fates).ended
    requires forall x :: x in s.live ==> x.script == old(x.script)
    ensures Told(s)
  {
    StillRecorded(s.turns, old(s.fates), s.fates);
    forall x | x in s.live
      ensures Tells(s.turns, x, x.script)
    {
      assert old(Tells(s.turns, x, x.script));
    }
    forall x | x in s.fates.ended && x !in s.live
      ensures Tells(s.turns, x, [])
    {
      assert old(Tells(s.turns, x, []));
    }
  }

  /** Where only `co` changed, its own fate is what there is to show. */
  twostate lemma FatesStay(s: Scheduler, new co: Coroutine)
    requires co in old(s.live)
    requires old(Fated(s)) && s.live == old(s.live) && s.fates == old(s.fates) && Fate(s.fates, co) && Others(s, co)
    ensures Fated(s)
  {
  }

  twostate lemma FatesCreated(s: Scheduler, new child: Coroutine)
    requires old(Fated(s)) && s.live == old(s.live) + {child} && child !in old(s.fates.created)
    requires s.fates == old(s.fates).(created := old(s.fates).created + {child})
    requires child.point == Queued && child.status == {NEW} && old(s.fates).begun <= old(s.fates).created
    requires Others(s, null)
    ensures Fated(s)
  {
  }

  twostate lemma FatesBegun(s: Scheduler, new co: Coroutine)
    requires co in old(s.live)
    requires old(Fated(s)) && s.live == old(s.live) && Others(s, co)
    requires s.fates == old(s.fates).(begun := old(s.fates).begun + {co})
    requires co.point == old(co.point) && NEW !in co.status && (FDEOF in co.status <==> FDEOF in old(co.status))
    ensures Fated(s)
  {
    assert old(Fate(s.fates, co));
  }

  twostate lemma FatesEnded(s: Scheduler, new co: Coroutine)
    requires co in old(s.live)
    requires old(Fated(s)) && s.live == old(s.live) && co in s.live && old(co.point) == Running && co.point == Ended
    requires s.fates == old(s.fates).(ended := old(s.fates).ended + {co}) && Others(s, co) && NEW !in co.status
    ensures Fated(s)
  {
    assert old(Fate(s.fates, co));
  }

  twostate lemma FatesMarked(s: Scheduler, new co: Coroutine)
    requires co in old(s.live)
    requires old(Fated(s)) && s.live == old(s.live) && co in s.live && old(co.point) == Queued && co.point == Queued
    requires s.fates == old(s.fates).(marked := old(s.fates).marked + {co}) && Others(s, co)
    requires co.status == old(co.status) + {FDEOF}
    ensures Fated(s)
  {
    assert old(Fate(s.fates, co));
  }

  /** The running coroutine goes on. */
  twostate lemma PlacedStays(s: Scheduler, new co: Coroutine)
    requires co in old(s.live)
    requires old(Placed(s, co)) && old(Moving(s, co)) && Others(s, co)
    requires s.live == old(s.live) && s.waiting == old(s.waiting) && s.ready == old(s.ready)
    requires co.status == old(co.status) && co.point == old(co.point) && co.fd == old(co.fd)
    ensures Placed(s, co) && Moving(s, co)
  {
  }

  /** The moving coroutine has gone to the end of the queue. */
  twostate lemma PlacedQueued(s: Scheduler, new co: Coroutine)
    requires co in old(s.live)
    requires old(Placed(s, co)) && old(Moving(s, co)) && old(co.point) == Running && Others(s, co)
    requires s.live == old(s.live) && s.waiting == old(s.waiting) && s.ready == old(s.ready) + [co]
    requires co.status == old(co.status) && co.point == Queued
    ensures Placed(s, null)
  {
  }

  twostate lemma PlacedCreated(s: Scheduler, new co: Coroutine, new child: Coroutine)
    requires co in old(s.live)
    requires old(Placed(s, co)) && old(Moving(s, co)) && child !in old(s.live)
    requires child.point == Queued && child.status == {NEW} && s.live == old(s.live) + {child}
    requires s.waiting == old(s.waiting) && s.ready == old(s.ready) + [child]
    requires Others(s, null)
    ensures Placed(s, co) && Moving(s, co)
  {
  }

  /** A coroutine goes on after it has created another. */
  twostate lemma StillActive(s: Scheduler, new co: Coroutine, new child: Coroutine)
    requires co in old(s.live)
    requires old(Active(s, co)) && child.point == Queued && child.status == {NEW}
    requires child !in old(s.live) && child !in old(s.fates.created)
    requires s.live == old(s.live) + {child} && s.ready == old(s.ready) + [child] && s.spawned == old(s.spawned) + 1
    requires s.waiting == old(s.waiting) && s.sleeping == old(s.sleeping) && s.polled == old(s.polled)
    requires s.fates == old(s.fates).(created := old(s.fates).created + {child})
    requires Others(s, null) && child.ops == 0
    ensures Active(s, co)
  {
    PlacedCreated(s, co, child);
    FatesCreated(s, child);
  }

  /** The first of the queue is on its way. */
  twostate lemma PlacedTaken(s: Scheduler, new co: Coroutine)
    requires co in old(s.live)
    requires old(Placed(s, null)) && Others(s, null) && s.live == old(s.live) && s.waiting == old(s.waiting)
    requires old(s.ready) == [co] + s.ready
    ensures Placed(s, co) && Moving(s, co) && co.point == Queued
  {
    assert old(InPlace(s, co)) && old(s.ready)[0] == co;
    assert forall i :: 0 <= i < |s.ready| ==> s.ready[i] == old(s.ready)[i + 1];
  }

  twostate lemma NowTaken(s: Scheduler, new co: Coroutine)
    requires co in old(s.live)
    requires old(Settled(s)) && old(s.ready) == [co] + s.ready && Others(s, null) && s.live == old(s.live)
    requires s.waiting == old(s.waiting) && s.sleeping == old(s.sleeping) && s.polled == old(s.polled)
    requires s.spawned == old(s.spawned) && s.fates == old(s.fates) && s.turns == old(s.turns)
    ensures OnItsWay(s, co) && co.point == Queued && Told(s)
  {
    PlacedTaken(s, co);
    FatesStay(s, co);
    ScriptsStay(s, co);
    ToldStays(s);
  }

  /** The moving coroutine is entered in the wait tree. */
  twostate lemma PlacedWaiting(s: Scheduler, new co: Coroutine)
    requires co in old(s.live)
    requires old(Placed(s, co)) && old(Moving(s, co)) && old(co.point) == Running && Others(s, co)
    requires s.live == old(s.live) && s.ready == old(s.ready)
    requires co.fd !in old(s.waiting) && s.waiting == old(s.waiting)[co.fd := co]
    requires EXITED !in co.status && co.point == Polling
    ensures Placed(s, null)
  {
  }

  /** A coroutine is suspended in a wait. */
  twostate lemma NowWaiting(s: Scheduler, new co: Coroutine)
    requires co in old(s.live)
    requires old(Active(s, co)) && Others(s, co) && s.live == old(s.live) && s.ready == old(s.ready)
    requires s.spawned == old(s.spawned) && s.sleeping == old(s.sleeping) && s.fates == old(s.fates)
    requires co.fd !in old(s.waiting) && s.waiting == old(s.waiting)[co.fd := co] && s.polled == old(s.polled) + {co.fd}
    requires EXITED !in co.status && co.point == Polling && co.ops == 0 && co.script == old(co.script)
    requires NEW in co.status <==> NEW in old(co.status)
    ensures InOrder(s, null)
  {
    PlacedWaiting(s, co);
    FatesStay(s, co);
    ScriptsStay(s, co);
  }

  /** The moving coroutine leaves the wait tree. */
  twostate lemma PlacedBack(s: Scheduler, new co: Coroutine)
    requires co in old(s.live)
    requires old(Placed(s, co)) && old(Moving(s, co)) && old(co.point) == Polling && Others(s, co)
    requires s.live == old(s.live) && s.ready == old(s.ready) && s.waiting == old(s.waiting) - {old(co.fd)}
    requires co.status == {} && co.point == Running
    ensures Placed(s, co) && Moving(s, co)
  {
  }

  /** A coroutine goes on after a wait. */
  twostate lemma NowBack(s: Scheduler, new co: Coroutine)
    requires co in old(s.live)
    requires old(OnItsWay(s, co)) && old(co.point) == Polling && Others(s, co) && s.live == old(s.live)
    requires s.ready == old(s.ready) && s.waiting == old(s.waiting) - {old(co.fd)} && s.fates == old(s.fates)
    requires s.spawned == old(s.spawned) && s.sleeping == old(s.sleeping) && s.polled == old(s.polled) - {old(co.fd)}
    requires co.status == {} && co.point == Running && co.ops == old(co.ops) && co.script == old(co.script)
    ensures Active(s, co)
  {
    PlacedBack(s, co);
    FatesStay(s, co);
    ScriptsStay(s, co);
  }

  twostate lemma PlacedMarked(s: Scheduler, new co: Coroutine, new other: Coroutine)
    requires co in old(s.live) && other in old(s.live)
    requires old(Placed(s, co)) && old(Moving(s, co)) && Others(s, other) && other in s.ready
    requires s.live == old(s.live) && s.ready == old(s.ready) && s.waiting == old(s.waiting)
    requires other.status == old(other.status) + {FDEOF} && other.point == old(other.point)
    ensures Placed(s, co) && Moving(s, co)
  {
    assert old(InPlace(s, other));
  }

  twostate lemma PlacedFreed(s: Scheduler, new co: Coroutine)
    requires co in old(s.live)
    requires old(Placed(s, co)) && Others(s, null) && s.live == old(s.live) - {co}
    requires s.ready == old(s.ready) && s.waiting == old(s.waiting)
    requires forall fd :: fd in s.waiting ==> s.waiting[fd] != co
    ensures Placed(s, null)
  {
  }

  twostate lemma FatesFreed(s: Scheduler, new co: Coroutine)
    requires co in old(s.live) && (co in s.fates.ended || co in s.fates.marked)
    requires old(Fated(s)) && Others(s, null) && s.live == old(s.live) - {co} && s.fates == old(s.fates)
    ensures Fated(s)
  {
  }

  twostate lemma NowFreed(s: Scheduler, new co: Coroutine)
    requires co in old(s.live) && (co in s.fates.ended || co in s.fates.marked)
    requires old(InOrder(s, co)) && Others(s, null) && s.live == old(s.live) - {co} && s.fates == old(s.fates)
    requires s.ready == old(s.ready) && s.waiting == old(s.waiting) && s.sleeping == old(s.sleeping)
    requires s.polled == old(s.polled) && s.spawned == old(s.spawned) - 1
    requires forall fd :: fd in s.waiting ==> s.waiting[fd] != co
    ensures InOrder(s, null)
  {
    PlacedFreed(s, co);
    FatesFreed(s, co);
  }

  twostate lemma PlacedRenewed(s: Scheduler, new co: Coroutine)
    requires co in old(s.live)
    requires old(Placed(s, co)) && old(Moving(s, co)) && Others(s, co)
    requires s.live == old(s.live) && s.ready == old(s.ready) && s.waiting == old(s.waiting)
    requires co.status == {READY} && co.fd == old(co.fd) && co.point == old(co.point)
    ensures Placed(s, co) && Moving(s, co)
  {
  }

  twostate lemma PlacedBegun(s: Scheduler, new co: Coroutine)
    requires co in old(s.live)
    requires old(Placed(s, co)) && old(Moving(s, co)) && Others(s, co) && old(co.point) == Queued
    requires s.live == old(s.live) && s.ready == old(s.ready) && s.waiting == old(s.waiting)
    requires co.status == old(co.status) && co.point == Running
    ensures Placed(s, co) && Moving(s, co)
  {
  }

  twostate lemma PlacedEnded(s: Scheduler, new co: Coroutine)
    requires co in old(s.live)
    requires old(Placed(s, co)) && old(Moving(s, co)) && old(co.point) == Running && Others(s, co)
    requires s.live == old(s.live) && s.ready == old(s.ready) && s.waiting == old(s.waiting)
    ensures Placed(s, co)
  {
  }

  /** A body has returned. */
  twostate lemma NowEnded(s: Scheduler, new co: Coroutine)
    requires co in old(s.live)
    requires old(Active(s, co)) && Others(s, co) && s.live == old(s.live) && s.ready == old(s.ready)
    requires s.waiting == old(s.waiting) && s.sleeping == old(s.sleeping) && s.polled == old(s.polled)
    requires s.spawned == old(s.spawned) && s.fates == old(s.fates).(ended := old(s.fates).ended + {co})
    requires co.status == old(co.status) + {EXITED, FDEOF, DETACH} && co.point == Ended
    requires co.ops == 0 && co.script == []
    ensures InOrder(s, co)
  {
    PlacedEnded(s, co);
    FatesEnded(s, co);
    ScriptsStay(s, co);
  }
}

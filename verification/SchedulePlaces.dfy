/**
 Coroutines that also sleep for a positive time. Such a sleep does not yield, so that a coroutine can be in
 the sleep tree and in the ready queue at once, and its expiry resumes it while it is queued. The order of
 turns is left open here: any queued, waiting or expired coroutine may be resumed next.
 */
module SchedulePlaces {
  import opened Schedule
  import opened Sequences
  import S = ScheduleSleep

  /**
   The ready queue, the sleep tree with the deadlines, the wait tree, the descriptor that each coroutine
   suspended in nty_poll_inner waits for, and who runs.
   */
  datatype State = State(ready: seq<Coroutine>, sleepers: S.Sleepers, waiting: map<int, Coroutine>,
                         polling: map<Coroutine, int>, running: Coroutine?)

  /** Steps of the scheduler, to resume a coroutine, and of the coroutine that runs. */
  datatype Step =
    | Create(co: Coroutine)
    | Take | Expire(deadline: nat) | Answer(fd: int)
    | Sleep(msecs: nat) | Yield | Wait(fd: int) | End

  /** A coroutine that was suspended in nty_poll_inner leaves the wait tree first. */
  ghost function Resumed(v: State, co: Coroutine): State {
    v.(running := co, polling := v.polling - {co},
       waiting := if co in v.polling then v.waiting - {v.polling[co]} else v.waiting)
  }

  ghost predicate BySomeone(v: State, step: Step) {
    && (step.Take? || step.Expire? || step.Answer? ==> v.running == null)
    && (step.Sleep? || step.Yield? || step.Wait? || step.End? ==> v.running != null)
  }

  /** The step leads from `v` to `v'`. Nobody starts to wait for a descriptor that has a waiter, which is asserted. */
  ghost predicate Does(v: State, step: Step, v': State) {
    && BySomeone(v, step)
    && match step
       case Create(co) =>
         && S.Does(v.sleepers, S.Call.Create(co), v'.sleepers)
         && v' == v.(ready := v.ready + [co], sleepers := v'.sleepers)
       case Take => v.ready != [] && v' == Resumed(v.(ready := v.ready[1..]), v.ready[0])
       case Expire(d) =>
         && S.Does(v.sleepers, S.Call.Expire(d), v'.sleepers)
         && v' == Resumed(v.(sleepers := v'.sleepers), v.sleepers.sleeping[d])
       case Answer(fd) => fd in v.waiting && v' == Resumed(v, v.waiting[fd])
       case Sleep(msecs) =>
         S.Does(v.sleepers, S.Call.Sleep(v.running, msecs), v'.sleepers) && v' == v.(sleepers := v'.sleepers)
       case Yield => v' == v.(ready := v.ready + [v.running], running := null)
       case Wait(fd) =>
         && fd !in v.waiting
         && v' == v.(waiting := v.waiting[fd := v.running], polling := v.polling[v.running := fd], running := null)
       case End =>
         && S.Does(v.sleepers, S.Call.End(v.running), v'.sleepers)
         && v' == v.(sleepers := v'.sleepers, running := null)
  }

  /** Every live coroutine but the one that runs is in one place, and nothing else is anywhere. */
  ghost predicate Placed(v: State) { Queued(v) && Polled(v) && Housed(v) && S.Kept(v.sleepers) }

  ghost predicate Queued(v: State) {
    var ok :=
      && NoDuplicates(v.ready)
      && forall co :: co in v.ready ==> co in v.sleepers.deadlines && co != v.running && co !in v.polling;
    ok
  }

  ghost predicate Polled(v: State) {
    var ok :=
      && (forall fd :: fd in v.waiting ==> v.waiting[fd] in v.polling && v.polling[v.waiting[fd]] == fd)
      && (forall co :: co in v.polling ==>
            && co in v.sleepers.deadlines && co != v.running
            && v.polling[co] in v.waiting && v.waiting[v.polling[co]] == co);
    ok
  }

  ghost predicate Housed(v: State) {
    var ok :=
      && (v.running != null ==> v.running in v.sleepers.deadlines)
      && forall co :: co in v.sleepers.deadlines ==> co == v.running || co in v.ready || co in v.polling;
    ok
  }

  /** No expiry resumes a coroutine that is queued, and nobody ends while in the sleep tree. */
  ghost predicate Guarded(v: State, step: Step) {
    && (step.Expire? && step.deadline in v.sleepers.sleeping ==> v.sleepers.sleeping[step.deadline] !in v.ready)
    && (step.End? && v.running != null ==> !S.Asleep(v.sleepers, v.running))
  }

  lemma ResumedPlaced(v: State, co: Coroutine)
    requires v.running == null && Queued(v) && Polled(v) && co !in v.ready && co in v.sleepers.deadlines
    requires forall x :: x in v.sleepers.deadlines ==> x == co || x in v.ready || x in v.polling
    ensures Queued(Resumed(v, co)) && Polled(Resumed(v, co)) && Housed(Resumed(v, co))
  {
  }

  lemma CreateStep(v: State, co: Coroutine, v': State)
    requires Placed(v) && Does(v, Step.Create(co), v')
    ensures Placed(v')
  {
    S.StepKept(v.sleepers, S.Call.Create(co), v'.sleepers);
    assert co !in v.ready && co !in v.polling;
  }

  lemma TakeStep(v: State, v': State)
    requires Placed(v) && Does(v, Take, v')
    ensures Placed(v')
  {
    var co, rest := v.ready[0], v.(ready := v.ready[1..]);
    assert v.ready == [co] + rest.ready;
    assert forall i :: 0 <= i < |rest.ready| ==> rest.ready[i] == v.ready[i + 1];
    ResumedPlaced(rest, co);
  }

  /** An expiry breaks the places exactly when the sleeper is in the ready queue. */
  lemma ExpireStep(v: State, d: nat, v': State)
    requires Placed(v) && Does(v, Expire(d), v')
    ensures Placed(v') <==> v.sleepers.sleeping[d] !in v.ready
  {
    var co := v.sleepers.sleeping[d];
    S.StepKept(v.sleepers, S.Call.Expire(d), v'.sleepers);
    if co in v.ready {
      assert co in v'.ready && co == v'.running;
    } else {
      ResumedPlaced(v.(sleepers := v'.sleepers), co);
    }
  }

  lemma AnswerStep(v: State, fd: int, v': State)
    requires Placed(v) && Does(v, Answer(fd), v')
    ensures Placed(v')
  {
    ResumedPlaced(v, v.waiting[fd]);
  }

  lemma SleepStep(v: State, msecs: nat, v': State)
    requires Placed(v) && Does(v, Sleep(msecs), v')
    ensures Placed(v')
  {
    S.StepKept(v.sleepers, S.Call.Sleep(v.running, msecs), v'.sleepers);
  }

  lemma YieldStep(v: State, v': State)
    requires Placed(v) && Does(v, Yield, v')
    ensures Placed(v')
  {
    assert v.running !in v.ready && v.running !in v.polling;
  }

  lemma WaitStep(v: State, fd: int, v': State)
    requires Placed(v) && Does(v, Wait(fd), v')
    ensures Placed(v')
  {
    assert v.running !in v.ready && v.running !in v.polling;
  }

  lemma EndStep(v: State, v': State)
    requires Placed(v) && Does(v, End, v')
    ensures Placed(v') <==> !S.Asleep(v.sleepers, v.running)
  {
    S.StepKept(v.sleepers, S.Call.End(v.running), v'.sleepers);
    assert v.running !in v.ready && v.running !in v.polling;
  }

  /** A step keeps everybody in one place exactly when it is guarded. */
  lemma StepPlaced(v: State, step: Step, v': State)
    requires Placed(v) && Does(v, step, v')
    ensures Placed(v') <==> Guarded(v, step)
  {
    match step
    case Create(co) => CreateStep(v, co, v');
    case Take => TakeStep(v, v');
    case Expire(d) => ExpireStep(v, d, v');
    case Answer(fd) => AnswerStep(v, fd, v');
    case Sleep(msecs) => SleepStep(v, msecs, v');
    case Yield => YieldStep(v, v');
    case Wait(fd) => WaitStep(v, fd, v');
    case End => EndStep(v, v');
  }

  const NEW_SLEEPERS := S.Sleepers(map[], map[], 0)

  /** A run from a new scheduler. */
  ghost predicate Run(vs: seq<State>, steps: seq<Step>) {
    && |vs| == |steps| + 1 && vs[0] == State([], NEW_SLEEPERS, map[], map[], null)
    && forall i :: 0 <= i < |steps| ==> Does(vs[i], steps[i], vs[i + 1])
  }

  lemma {:induction false} RunStays(vs: seq<State>, steps: seq<Step>, i: nat)
    requires Run(vs, steps) && i < |vs| && forall k :: 0 <= k < i ==> Guarded(vs[k], steps[k])
    ensures Placed(vs[i])
  {
    if i > 0 {
      RunStays(vs, steps, i - 1);
      assert Does(vs[i - 1], steps[i - 1], vs[i - 1 + 1]);
      StepPlaced(vs[i - 1], steps[i - 1], vs[i]);
    }
  }

  /** Throughout a run everybody is in one place exactly when every step is guarded. */
  lemma RunPlaced(vs: seq<State>, steps: seq<Step>)
    requires Run(vs, steps)
    ensures (forall i :: 0 <= i < |vs| ==> Placed(vs[i]))
      <==> (forall i :: 0 <= i < |steps| ==> Guarded(vs[i], steps[i]))
  {
    if forall i :: 0 <= i < |steps| ==> Guarded(vs[i], steps[i]) {
      forall i | 0 <= i < |vs|
        ensures Placed(vs[i])
      {
        RunStays(vs, steps, i);
      }
    } else {
      var i :| 0 <= i < |steps| && !Guarded(vs[i], steps[i]);
      if Placed(vs[i]) {
        StepPlaced(vs[i], steps[i], vs[i + 1]);
        assert !Placed(vs[i + 1]);
      }
    }
  }

  ghost predicate Waits(v: State, co: Coroutine) { exists fd :: fd in v.waiting && v.waiting[fd] == co }

  /** A suspended coroutine is in the ready queue or in the wait tree, and there once. */
  lemma InOnePlace(v: State, co: Coroutine)
    requires Placed(v) && co in v.sleepers.deadlines && co != v.running
    ensures co in v.ready <==> !Waits(v, co)
    ensures forall fd, fd' :: fd in v.waiting && fd' in v.waiting && v.waiting[fd] == co == v.waiting[fd'] ==> fd == fd'
  {
    if co in v.ready {
      assert forall fd :: fd in v.waiting ==> v.waiting[fd] in v.polling;
    } else {
      var fd := v.polling[co];
      assert fd in v.waiting && v.waiting[fd] == co;
    }
  }

  /** No coroutine is lost in such a run. */
  lemma RunOnePlace(vs: seq<State>, steps: seq<Step>, i: nat, co: Coroutine)
    requires Run(vs, steps) && i < |vs| && forall k :: 0 <= k < i ==> Guarded(vs[k], steps[k])
    requires co in vs[i].sleepers.deadlines && co != vs[i].running
    ensures NoDuplicates(vs[i].ready) && (co in vs[i].ready <==> !Waits(vs[i], co))
  {
    RunStays(vs, steps, i);
    InOnePlace(vs[i], co);
  }

  // ---------- what the coroutines themselves can see to ----------

  /** Nobody yields or ends while in the sleep tree; waiting for a descriptor is fine. */
  ghost predicate Careful(v: State, step: Step) {
    (step.Yield? || step.End?) && v.running != null ==> !S.Asleep(v.sleepers, v.running)
  }

  ghost predicate QueuedAwake(v: State) { forall co :: co in v.ready ==> !S.Asleep(v.sleepers, co) }

  lemma StepCareful(v: State, step: Step, v': State)
    requires Placed(v) && QueuedAwake(v) && Does(v, step, v') && Careful(v, step)
    ensures Guarded(v, step) && QueuedAwake(v')
  {
    forall co | co in v'.ready
      ensures !S.Asleep(v'.sleepers, co)
    {
      if step.Create? && co == step.co {
        assert forall d :: d in v.sleepers.sleeping ==> v.sleepers.sleeping[d] in v.sleepers.deadlines;
      } else if step.Yield? && co == v.running {
      } else {
        assert co in v.ready && co != v.running;
      }
    }
  }

  /** If everybody is careful, every step is guarded, so that nobody is ever in two places. */
  lemma {:induction false} CarefulRun(vs: seq<State>, steps: seq<Step>, i: nat)
    requires Run(vs, steps) && i < |vs| && forall k :: 0 <= k < i ==> Careful(vs[k], steps[k])
    ensures Placed(vs[i]) && QueuedAwake(vs[i]) && forall k :: 0 <= k < i ==> Guarded(vs[k], steps[k])
  {
    if i > 0 {
      CarefulRun(vs, steps, i - 1);
      assert Does(vs[i - 1], steps[i - 1], vs[i - 1 + 1]);
      StepCareful(vs[i - 1], steps[i - 1], vs[i]);
      StepPlaced(vs[i - 1], steps[i - 1], vs[i]);
    }
  }

  /** A coroutine before it sleeps for a millisecond, while it does, and when it has expired. */
  ghost function Awake(co: Coroutine): S.Sleepers { S.Sleepers(map[co := 0], map[], 0) }

  ghost function Sleeping(co: Coroutine): S.Sleepers { S.Sleepers(map[co := 1000], map[1000 := co], 0) }

  ghost function Woken(co: Coroutine): S.Sleepers { S.Sleepers(map[co := 1000], map[], 1000) }

  ghost function Alone(ready: seq<Coroutine>, sleepers: S.Sleepers, running: Coroutine?): State {
    State(ready, sleepers, map[], map[], running)
  }

  lemma Starts(co: Coroutine)
    ensures Does(Alone([], NEW_SLEEPERS, null), Step.Create(co), Alone([co], Awake(co), null))
    ensures Does(Alone([co], Awake(co), null), Take, Alone([], Awake(co), co))
  {
  }

  lemma FallsAsleep(co: Coroutine)
    ensures Does(Alone([], Awake(co), co), Sleep(1), Alone([], Sleeping(co), co))
    ensures Does(Alone([], Sleeping(co), co), Yield, Alone([co], Sleeping(co), null))
  {
  }

  lemma WokenQueued(co: Coroutine)
    ensures Does(Alone([co], Sleeping(co), null), Expire(1000), Alone([co], Woken(co), co))
    ensures !Guarded(Alone([co], Sleeping(co), null), Expire(1000))
    ensures Does(Alone([co], Woken(co), co), Yield, Alone([co, co], Woken(co), null))
  {
  }

  /** A coroutine sleeps for a millisecond and yields; its expiry finds it queued, and it yields once more. */
  lemma QueuedTwice(co: Coroutine) returns (vs: seq<State>, steps: seq<Step>)
    ensures Run(vs, steps) && vs[|vs| - 1].ready == [co, co]
    ensures exists i :: 0 <= i < |steps| && !Guarded(vs[i], steps[i])
  {
    Starts(co);
    FallsAsleep(co);
    WokenQueued(co);
    steps := [Step.Create(co), Take, Sleep(1), Yield, Expire(1000), Yield];
    vs := [Alone([], NEW_SLEEPERS, null), Alone([co], Awake(co), null), Alone([], Awake(co), co),
           Alone([], Sleeping(co), co), Alone([co], Sleeping(co), null), Alone([co], Woken(co), co),
           Alone([co, co], Woken(co), null)];
    assert !Guarded(vs[4], steps[4]);
  }
}

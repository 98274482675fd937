/**
 Coroutines and their scheduler. The ready queue is a sequence and the two trees are maps, by deadline
 and by file descriptor; the modules about queues and trees justify that.
 */
module Schedule {
  /** The bits of a coroutine's status that the scheduler sets or reads. */
  type Bit = nat

  const NEW: Bit := 2
  const READY: Bit := 3
  const EXITED: Bit := 4
  const SLEEPING: Bit := 6
  const FDEOF: Bit := 8
  const DETACH: Bit := 9

  /** Where a coroutine stands: in the ready queue, or about to be; in the wait tree; running; at its end. */
  datatype Point = Queued | Polling | Running | Ended

  /**
   The library calls of a coroutine's body: nty_coroutine_create of another, renice, sleep(0), a wait for one
   descriptor, and the setting of the end-of-file bit of a coroutine in the queue.
   */
  datatype Call = Create(body: seq<Call>) | Renice | Sleep0 | Poll(fd: int, read: bool) | MarkEof(queued: nat)

  class Coroutine {
    /** The calls that its function makes in all, and those it has still to make. */
    const body: seq<Call>
    var script: seq<Call>
    /** The bits that are set. */
    var status: set<Bit>
    /** The deadline it sleeps until, or last slept until. */
    var sleepUsecs: nat
    var fd: int
    var ops: nat
    var point: Point

    constructor (calls: seq<Call>)
      ensures status == {NEW} && sleepUsecs == 0 && fd == -1 && ops == 0 && point == Queued
      ensures body == calls && script == calls
    {
      body, script := calls, calls;
      status, sleepUsecs, fd, ops, point := {NEW}, 0, -1, 0, Queued;
    }
  }

  /**
   A turn given to a coroutine: its status when it came, whether it was resumed, or else freed at once, and the
   calls it then made.
   */
  datatype Turn = Turn(co: Coroutine, status: set<Bit>, resumed: bool, calls: seq<Call>)

  /** An event from epoll: a registered descriptor and whether the other end has hung up. */
  datatype Event = Event(fd: int, eof: bool)

  /** A call of epoll_wait: the timeout in milliseconds and the events it reported. */
  datatype Report = Report(ms: int, events: seq<Event>)

  /** A sleeper that expired: its deadline, the reading of the clock, and the sleep tree it was taken from. */
  datatype Expiry = Expiry(co: Coroutine, deadline: nat, reading: nat, sleeping: map<nat, Coroutine>)

  /**
   The coroutines ever created, those whose context has been set up, those whose bodies have returned, and those
   that got the end-of-file bit while they were queued.
   */
  datatype Fates =
    Fates(created: set<Coroutine>, begun: set<Coroutine>, ended: set<Coroutine>, marked: set<Coroutine>)

  class Scheduler {
    var ready: seq<Coroutine>
    /** The sleep tree, by deadline. */
    var sleeping: map<nat, Coroutine>
    /** The wait tree, by descriptor. */
    var waiting: map<int, Coroutine>
    /** The descriptors registered with epoll, but for the eventfd. */
    var polled: set<int>
    var spawned: int
    /** The last reading of the clock, in microseconds since the scheduler was made. */
    var clock: nat
    /** The coroutines that have been created and not freed. */
    ghost var live: set<Coroutine>
    /** All that was ever put at the end of the ready queue, all turns, expiries and calls of epoll, in order. */
    ghost var arrivals: seq<Coroutine>
    ghost var turns: seq<Turn>
    ghost var expiries: seq<Expiry>
    ghost var reports: seq<Report>
    ghost var fates: Fates

    constructor ()
      ensures ready == [] && sleeping == map[] && waiting == map[] && polled == {} && spawned == 0 && live == {}
      ensures arrivals == [] && turns == [] && expiries == [] && reports == [] && fates == Fates({}, {}, {}, {})
    {
      ready, sleeping, waiting, polled, spawned, clock, live := [], map[], map[], {}, 0, 0, {};
      arrivals, turns, expiries, reports, fates := [], [], [], [], Fates({}, {}, {}, {});
    }

    /** Puts a coroutine at the end of the ready queue. */
    method Enqueue(co: Coroutine)
      modifies this`ready, this`arrivals
      ensures ready == old(ready) + [co] && arrivals == old(arrivals) + [co]
    {
      ready := ready + [co];
      arrivals := arrivals + [co];
    }

    /** nty_coroutine_create */
    method Spawn(body: seq<Call>) returns (co: Coroutine)
      modifies this`live, this`ready, this`arrivals, this`spawned, this`fates
      ensures fresh(co) && co.status == {NEW} && co.sleepUsecs == 0 && co.ops == 0 && co.point == Queued
      ensures co.body == body && co.script == body && live == old(live) + {co} && spawned == old(spawned) + 1
      ensures fates == old(fates).(created := old(fates).created + {co})
      ensures ready == old(ready) + [co] && arrivals == old(arrivals) + [co]
    {
      co := new Coroutine(body);
      spawned := spawned + 1;
      Enqueue(co);
      live := live + {co};
      fates := fates.(created := fates.created + {co});
    }

    /** Reads the clock, which does not run backwards. */
    method ReadClock() returns (now: nat)
      modifies this`clock
      ensures now == clock >= old(clock)
    {
      now :| now >= clock;
      clock := now;
    }
  }
}

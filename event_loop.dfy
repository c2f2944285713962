/**
 * The watcher's event loop as the program runs it: one object owning the
 * pending state `lastChange`, updated in place pass by pass. Every method is
 * proved to follow the state machine of module Debounce; the log and the
 * syncs it performs are recorded in the ghost `trace`.
 */
module EventLoop {
  import opened Wrappers
  import opened Relevance
  import opened Debounce

  class Watcher {
    /** The watched repository root. */
    const root: Path
    /** The time of the latest relevant change not yet synchronised. */
    var lastChange: Option<nat>
    /** The latest clock reading the loop has taken. */
    ghost var clock: nat
    /** Everything observable the loop has done so far. */
    ghost var trace: seq<Action>

    ghost predicate Valid()
      reads this
    {
      lastChange.Some? ==> lastChange.value <= clock
    }

    /** Start-up: log that the service started; nothing is pending. */
    constructor (root: Path, startedAt: nat)
      ensures Valid()
      ensures this.root == root && lastChange == None && clock == startedAt
      ensures trace == [Log(StartedMessage)]
    {
      this.root := root;
      lastChange := None;
      clock := startedAt;
      trace := [Log(StartedMessage)];
    }

    /**
     * The top of the loop at time `now`: sync and clear the pending state if
     * the push interval has elapsed, otherwise say how long to wait.
     */
    method Poll(now: nat) returns (w: Wait)
      requires Valid() && clock <= now
      modifies this
      ensures Valid() && clock == now
      ensures w == Timeout(old(lastChange), now)
      ensures lastChange == AfterPoll(old(lastChange), now)
      ensures trace == old(trace) + (if w.FireNow? then [Sync(now)] else [])
    {
      clock := now;
      match lastChange
      case Some(t) =>
        var elapsed := now - t;
        if elapsed >= PushInterval {
          trace := trace + [Sync(now)];
          lastChange := None;
          return FireNow;
        }
        w := WaitFor(PushInterval - elapsed);
      case None =>
        w := NoDeadline;
    }

    /** Acting on what the wait returned at time `now`; false when the channel closed. */
    method Deliver(now: nat, r: Recv) returns (running: bool)
      requires Valid() && clock <= now
      modifies this
      ensures Valid() && clock == now
      ensures lastChange == Handle(root, old(lastChange), now, r).last
      ensures trace == old(trace) + Handle(root, old(lastChange), now, r).acts
      ensures running == Handle(root, old(lastChange), now, r).running
    {
      clock := now;
      running := true;
      match r
      case Received(event) =>
        if IsChangeKind(event.kind) {
          var relevant := AnyRelevant(root, event.paths);
          if relevant {
            lastChange := Some(now);
            trace := trace + [LogChange(now, event)];
          }
        }
      case NotifyError(error) =>
        trace := trace + [LogNotifyError(now, error)];
      case TimedOut =>
        if lastChange.Some? {
          trace := trace + [Sync(now)];
          lastChange := None;
        }
      case Disconnected =>
        running := false;
    }

    /**
     * One delivery: the top of the loop at `d.polled`, which may sync and
     * `continue` to the top again (now Idle, so with no deadline), then the
     * wait and what it returned at `d.at`.
     */
    method Pass(d: Delivery) returns (running: bool)
      requires Valid() && clock <= d.polled <= d.at
      modifies this
      ensures Valid() && clock == d.at
      ensures Step(lastChange, trace, running) == Resume(old(trace), Iterate(root, old(lastChange), d))
    {
      var w := Poll(d.polled);
      if w.FireNow? {
        w := Poll(d.polled);
        assert w == NoDeadline;
      }
      running := Deliver(d.at, d.recv);
    }

    /**
     * The loop over a stretch of deliveries. It stops early, logging the
     * shutdown, when the channel closes.
     */
    method Run(ds: seq<Delivery>) returns (running: bool)
      requires Valid() && Monotone(clock, ds)
      modifies this
      ensures Valid()
      ensures Step(lastChange, trace, running) == Resume(old(trace), RunLoop(root, old(lastChange), ds))
    {
      ghost var whole := Resume(trace, RunLoop(root, lastChange, ds));
      var pending := ds;
      running := true;
      while pending != [] && running
        invariant Valid()
        invariant running ==> Monotone(clock, pending)
        invariant running ==> whole == Resume(trace, RunLoop(root, lastChange, pending))
        invariant !running ==> whole == Step(lastChange, trace + [Log(ShutdownMessage)], false)
        decreases |pending|
      {
        RunLoopUnfold(root, lastChange, pending, trace, whole);
        running := Pass(pending[0]);
        pending := pending[1..];
      }
      if !running {
        trace := trace + [Log(ShutdownMessage)];
      }
    }
  }

  /** What is left of the loop after one more pass. */
  lemma RunLoopUnfold(root: Path, last: Option<nat>, pending: seq<Delivery>, done: seq<Action>, whole: Step)
    requires pending != [] && whole == Resume(done, RunLoop(root, last, pending))
    ensures var s := Iterate(root, last, pending[0]);
      if s.running then whole == Resume(done + s.acts, RunLoop(root, s.last, pending[1..]))
      else whole == Step(s.last, done + s.acts + [Log(ShutdownMessage)], false)
  {
  }

  /**
   * The loop preserves the debounce guarantee: after any stretch of
   * deliveries on which the channel times out no earlier than the wait the
   * loop asked for, the syncs it performed each follow a relevant change by
   * at least the push interval, none comes less than that interval after
   * any change logged before it, and the pending state is that of the
   * latest unsynchronised change.
   */
  method LoopIsDebounced(w: Watcher, ds: seq<Delivery>)
    requires w.Valid() && Monotone(w.clock, ds) && KeepsWaits(w.root, w.lastChange, ds)
    modifies w
    ensures |old(w.trace)| <= |w.trace| && Debounced(w.trace[|old(w.trace)|..], old(w.lastChange))
    ensures |old(w.trace)| <= |w.trace| && PendingAfter(w.trace[|old(w.trace)|..], old(w.lastChange)) == w.lastChange
    ensures |old(w.trace)| <= |w.trace| && SyncsWait(w.trace[|old(w.trace)|..])
  {
    KeepsWaitsHonest(w.root, w.lastChange, w.clock, ds);
    RunDebounced(w.root, w.lastChange, ds);
    TimedDebounce(w.root, w.lastChange, w.clock, ds);
    var _ := w.Run(ds);
    assert w.trace[|old(w.trace)|..] == RunLoop(w.root, old(w.lastChange), ds).acts;
  }
}

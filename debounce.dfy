/**
 * The debounce state machine of the watcher's event loop, as pure functions.
 *
 * The only state is `last`, the time of the latest relevant change not yet
 * synchronised: None is Idle, Some(t) is Pending since t. Time is counted in
 * whole seconds. The channel of file-system notifications is an abstract
 * sequence of deliveries, each telling what one `recv_timeout` call returned
 * and when.
 */
module Debounce {
  import opened Wrappers
  import opened Relevance

  /** The quiet period after the latest relevant change: four and a half minutes. */
  const PushInterval: nat := 4 * 60 + 30

  const StartedMessage: string := "Service started."
  const ShutdownMessage: string := "Service shutting down normally."

  /** The kinds of file-system notification (their sub-kinds play no part). */
  datatype EventKind = Any | Access | Create | Modify | Remove | Other

  /** One notification: its kind and the absolute paths it concerns. */
  datatype Event = Event(kind: EventKind, paths: seq<Path>)

  /** What one wait on the notification channel returns. */
  datatype Recv = Received(event: Event) | NotifyError(error: string) | TimedOut | Disconnected

  /**
   * One pass through the loop as the environment drives it: the clock reading
   * `polled` taken at the top of the loop, and what the wait that follows
   * returned at time `at`.
   */
  datatype Delivery = Delivery(polled: nat, at: nat, recv: Recv)

  /** How long the loop waits: not at all (sync now), a number of seconds, or forever. */
  datatype Wait = FireNow | WaitFor(ticks: nat) | NoDeadline

  /** What the loop does that can be observed: a sync, or a log entry. */
  datatype Action =
    | Sync(at: nat)
    | LogChange(at: nat, event: Event)
    | LogNotifyError(at: nat, error: string)
    | Log(message: string)

  /** The state after some input, what was done, and whether the loop goes on. */
  datatype Step = Step(last: Option<nat>, acts: seq<Action>, running: bool)

  // ---------------------------------------------------------------------------
  // Classifying events

  /** Rust's `Path::strip_prefix`, component-wise. */
  function StripPrefix(path: Path, root: Path): (rest: Option<Path>)
    ensures rest.Some? <==> |root| <= |path| && path[..|root|] == root
    ensures rest.Some? ==> root + rest.value == path
  {
    if |root| <= |path| && path[..|root|] == root then Some(path[|root|..]) else None
  }

  /** A path counts when it lies under the root and the filter accepts the rest of it. */
  predicate RelevantUnder(root: Path, path: Path) {
    match StripPrefix(path, root)
    case Some(rest) => Relevant(rest)
    case None => false
  }

  /** Whether some path of a notification counts, scanning them in order. */
  function AnyRelevant(root: Path, paths: seq<Path>): (b: bool)
    ensures b <==> exists i :: 0 <= i < |paths| && RelevantUnder(root, paths[i])
  {
    if paths == [] then false
    else if RelevantUnder(root, paths[0]) then true
    else
      var b := AnyRelevant(root, paths[1..]);
      assert forall i :: 1 <= i < |paths| ==> paths[i] == paths[1..][i - 1];
      b
  }

  predicate IsChangeKind(kind: EventKind) {
    kind.Modify? || kind.Create? || kind.Remove?
  }

  /**
   * A notification counts toward a sync exactly when it is a modification,
   * creation or removal, and one of its paths lies under the root with a
   * relevant remainder.
   */
  predicate Counts(root: Path, e: Event) {
    IsChangeKind(e.kind) && AnyRelevant(root, e.paths)
  }

  lemma CountsIff(root: Path, e: Event)
    ensures Counts(root, e) <==>
      (e.kind.Modify? || e.kind.Create? || e.kind.Remove?) &&
      exists i :: 0 <= i < |e.paths| &&
        |root| <= |e.paths[i]| && e.paths[i][..|root|] == root && Relevant(e.paths[i][|root|..])
  {
  }

  // ---------------------------------------------------------------------------
  // One pass through the loop

  /**
   * The top of the loop: how long to wait, given the pending state and the
   * clock. The elapsed time saturates at zero, as `Instant::elapsed` does.
   */
  function Timeout(last: Option<nat>, now: nat): (w: Wait)
    ensures w.NoDeadline? <==> last.None?
    ensures w.FireNow? <==> last.Some? && now >= last.value + PushInterval
    ensures w.WaitFor? ==> 0 < w.ticks <= PushInterval
    ensures w.WaitFor? && last.value <= now ==> now + w.ticks == last.value + PushInterval
  {
    match last
    case None => NoDeadline
    case Some(t) =>
      var elapsed := if now >= t then now - t else 0;
      if elapsed >= PushInterval then FireNow else WaitFor(PushInterval - elapsed)
  }

  /** Handling what the wait returned, at time `at`. */
  function Handle(root: Path, last: Option<nat>, at: nat, r: Recv): Step {
    match r
    case Received(e) =>
      if Counts(root, e) then Step(Some(at), [LogChange(at, e)], true) else Step(last, [], true)
    case NotifyError(err) => Step(last, [LogNotifyError(at, err)], true)
    case TimedOut => if last.Some? then Step(None, [Sync(at)], true) else Step(last, [], true)
    case Disconnected => Step(last, [], false)
  }

  /** The transitions on what the wait returned. */
  lemma HandleTransitions(root: Path, last: Option<nat>, at: nat, r: Recv)
    ensures Handle(root, last, at, r).running <==> !r.Disconnected?
    // a relevant change (re)starts the window from now, pending or not
    ensures r.Received? && Counts(root, r.event) ==>
      Handle(root, last, at, r) == Step(Some(at), [LogChange(at, r.event)], true)
    // irrelevant notifications, errors and closing leave the state alone
    ensures r.Received? && !Counts(root, r.event) ==> Handle(root, last, at, r) == Step(last, [], true)
    ensures r.NotifyError? ==> Handle(root, last, at, r) == Step(last, [LogNotifyError(at, r.error)], true)
    ensures r.Disconnected? ==> Handle(root, last, at, r) == Step(last, [], false)
    // a timeout syncs whenever a change is pending, without looking at the clock again;
    // while Idle it changes nothing
    ensures r.TimedOut? ==>
      Handle(root, last, at, r) == if last.Some? then Step(None, [Sync(at)], true) else Step(None, [], true)
  {
  }

  /** The state after the top of the loop: a sync fires there when the window has passed. */
  function AfterPoll(last: Option<nat>, polled: nat): Option<nat> {
    if Timeout(last, polled).FireNow? then None else last
  }

  /**
   * One delivery: the top of the loop (which may sync and `continue`, after
   * which the loop is Idle and waits with no deadline), then the wait's result.
   */
  function Iterate(root: Path, last: Option<nat>, d: Delivery): Step {
    var fired := Timeout(last, d.polled).FireNow?;
    var s := Handle(root, AfterPoll(last, d.polled), d.at, d.recv);
    Step(s.last, (if fired then [Sync(d.polled)] else []) + s.acts, s.running)
  }

  /** The trace `done` followed by what the rest of the loop does. */
  function Resume(done: seq<Action>, rest: Step): Step {
    Step(rest.last, done + rest.acts, rest.running)
  }

  /** One pass `s` followed by the rest of the loop, unless the channel closed in it. */
  function Then(s: Step, rest: Step): Step {
    if s.running then Resume(s.acts, rest) else Step(s.last, s.acts + [Log(ShutdownMessage)], false)
  }

  /** The loop over a finite stretch of deliveries; closing the channel ends it with a log entry. */
  function RunLoop(root: Path, last: Option<nat>, ds: seq<Delivery>): Step
    decreases |ds|
  {
    if ds == [] then Step(last, [], true)
    else
      var s := Iterate(root, last, ds[0]);
      Then(s, RunLoop(root, s.last, ds[1..]))
  }

  // ---------------------------------------------------------------------------
  // What the environment guarantees

  /** Clock readings never go back: each wait starts after the previous one ended. */
  ghost predicate Monotone(clock: nat, ds: seq<Delivery>)
    decreases |ds|
  {
    ds == [] || (clock <= ds[0].polled <= ds[0].at && Monotone(ds[0].at, ds[1..]))
  }

  /**
   * The channel reports a timeout only once the wait the loop asked for has
   * passed: a `recv_timeout` that was given `WaitFor(ticks)` at `polled`
   * times out no earlier than `polled + ticks`. With no deadline there is
   * nothing to keep.
   */
  ghost predicate KeepsWaits(root: Path, last: Option<nat>, ds: seq<Delivery>)
    decreases |ds|
  {
    ds == [] ||
    var w := Timeout(AfterPoll(last, ds[0].polled), ds[0].polled);
    (ds[0].recv.TimedOut? && w.WaitFor? ==> ds[0].at >= ds[0].polled + w.ticks) &&
    KeepsWaits(root, Iterate(root, last, ds[0]).last, ds[1..])
  }

  /**
   * What the debounce proof uses: a timeout is reported no earlier than the
   * pending change plus the push interval. It follows from `KeepsWaits`
   * and a clock that never goes back (`KeepsWaitsHonest`).
   */
  ghost predicate Honest(root: Path, last: Option<nat>, ds: seq<Delivery>)
    decreases |ds|
  {
    ds == [] ||
    var pending := AfterPoll(last, ds[0].polled);
    (ds[0].recv.TimedOut? && pending.Some? ==> ds[0].at >= pending.value + PushInterval) &&
    Honest(root, Iterate(root, last, ds[0]).last, ds[1..])
  }

  /** Waits that are kept on a clock that never goes back make every timeout honest. */
  lemma {:induction false} KeepsWaitsHonest(root: Path, last: Option<nat>, clock: nat, ds: seq<Delivery>)
    requires Monotone(clock, ds) && (last.Some? ==> last.value <= clock) && KeepsWaits(root, last, ds)
    ensures Honest(root, last, ds)
    decreases |ds|
  {
    if ds != [] {
      var d := ds[0];
      var pending := AfterPoll(last, d.polled);
      if d.recv.TimedOut? && pending.Some? {
        // the window had not passed at the top of the loop, so the loop waited for the rest of it
        assert Timeout(last, d.polled).WaitFor?;
        assert d.at >= pending.value + PushInterval;
      }
      var s := Iterate(root, last, d);
      assert s.last.Some? ==> s.last.value <= d.at;
      KeepsWaitsHonest(root, s.last, d.at, ds[1..]);
    }
  }

  // ---------------------------------------------------------------------------
  // The debounce property

  /**
   * A trace is debounced when every sync has a logged relevant change since
   * the previous sync (or since `since`, the change pending at the start), and
   * comes at least the push interval after the latest such change.
   */
  ghost predicate Debounced(acts: seq<Action>, since: Option<nat>)
    decreases |acts|
  {
    acts == [] ||
    match acts[0]
    case Sync(t) => since.Some? && t >= since.value + PushInterval && Debounced(acts[1..], None)
    case LogChange(t, _) => Debounced(acts[1..], Some(t))
    case _ => Debounced(acts[1..], since)
  }

  /** The change pending after a trace: the latest change not followed by a sync. */
  function PendingAfter(acts: seq<Action>, since: Option<nat>): Option<nat>
    decreases |acts|
  {
    if acts == [] then since
    else
      match acts[0]
      case Sync(_) => PendingAfter(acts[1..], None)
      case LogChange(t, _) => PendingAfter(acts[1..], Some(t))
      case _ => PendingAfter(acts[1..], since)
  }

  lemma {:induction false} DebouncedAppend(a: seq<Action>, b: seq<Action>, since: Option<nat>)
    ensures Debounced(a + b, since) <==> Debounced(a, since) && Debounced(b, PendingAfter(a, since))
    ensures PendingAfter(a + b, since) == PendingAfter(b, PendingAfter(a, since))
    decreases |a|
  {
    if a == [] {
      assert a + b == b;
    } else {
      assert (a + b)[0] == a[0];
      assert (a + b)[1..] == a[1..] + b;
      match a[0]
      case Sync(_) => DebouncedAppend(a[1..], b, None);
      case LogChange(t, _) => DebouncedAppend(a[1..], b, Some(t));
      case _ => DebouncedAppend(a[1..], b, since);
    }
  }

  /** One delivery keeps the trace debounced and the state equal to the pending change. */
  lemma IterateDebounced(root: Path, last: Option<nat>, d: Delivery)
    requires d.recv.TimedOut? && AfterPoll(last, d.polled).Some? ==>
      d.at >= AfterPoll(last, d.polled).value + PushInterval
    ensures Debounced(Iterate(root, last, d).acts, last)
    ensures PendingAfter(Iterate(root, last, d).acts, last) == Iterate(root, last, d).last
  {
    var fired := Timeout(last, d.polled).FireNow?;
    var top: seq<Action> := if fired then [Sync(d.polled)] else [];
    var s := Handle(root, AfterPoll(last, d.polled), d.at, d.recv);
    assert Debounced(top, last) && PendingAfter(top, last) == AfterPoll(last, d.polled) by {
      if fired {
        assert top[1..] == [];
        assert PendingAfter(top, last) == PendingAfter([], None);
      }
    }
    assert Debounced(s.acts, AfterPoll(last, d.polled)) && PendingAfter(s.acts, AfterPoll(last, d.polled)) == s.last by {
      var p := AfterPoll(last, d.polled);
      if s.acts != [] {
        assert s.acts[1..] == [];
        if s.acts[0].Sync? {
          assert PendingAfter(s.acts, p) == PendingAfter([], None);
        } else if s.acts[0].LogChange? {
          assert PendingAfter(s.acts, p) == PendingAfter([], Some(s.acts[0].at));
        } else {
          assert PendingAfter(s.acts, p) == PendingAfter([], p);
        }
      }
    }
    DebouncedAppend(top, s.acts, last);
  }

  /**
   * The debounce guarantee of the whole loop: every sync follows a relevant
   * change, no two syncs share one, and none comes before the push interval
   * has elapsed since the latest change. The final state is the pending change.
   */
  lemma {:induction false} RunDebounced(root: Path, last: Option<nat>, ds: seq<Delivery>)
    requires Honest(root, last, ds)
    ensures Debounced(RunLoop(root, last, ds).acts, last)
    ensures PendingAfter(RunLoop(root, last, ds).acts, last) == RunLoop(root, last, ds).last
    decreases |ds|
  {
    if ds != [] {
      var s := Iterate(root, last, ds[0]);
      IterateDebounced(root, last, ds[0]);
      if !s.running {
        DebouncedAppend(s.acts, [Log(ShutdownMessage)], last);
        assert [Log(ShutdownMessage)][1..] == [];
      } else {
        RunDebounced(root, s.last, ds[1..]);
        DebouncedAppend(s.acts, RunLoop(root, s.last, ds[1..]).acts, last);
      }
    }
  }

  // ---------------------------------------------------------------------------
  // Time order of the trace

  /** When an action happened; the shutdown entry carries no time of its own. */
  function TimeOf(a: Action): Option<nat> {
    match a
    case Sync(t) => Some(t)
    case LogChange(t, _) => Some(t)
    case LogNotifyError(t, _) => Some(t)
    case Log(_) => None
  }

  /** The timed actions of a trace come in time order. */
  ghost predicate InOrder(acts: seq<Action>) {
    forall i, j :: 0 <= i < j < |acts| && TimeOf(acts[i]).Some? && TimeOf(acts[j]).Some? ==>
      TimeOf(acts[i]).value <= TimeOf(acts[j]).value
  }

  ghost predicate NotBefore(acts: seq<Action>, t: nat) {
    forall i :: 0 <= i < |acts| && TimeOf(acts[i]).Some? ==> t <= TimeOf(acts[i]).value
  }

  ghost predicate NotAfter(acts: seq<Action>, t: nat) {
    forall i :: 0 <= i < |acts| && TimeOf(acts[i]).Some? ==> TimeOf(acts[i]).value <= t
  }

  lemma InOrderAppend(a: seq<Action>, b: seq<Action>, lo: nat, mid: nat)
    requires InOrder(a) && InOrder(b) && NotBefore(a, lo) && NotAfter(a, mid) && NotBefore(b, mid) && lo <= mid
    ensures InOrder(a + b) && NotBefore(a + b, lo)
  {
    var ab := a + b;
    forall i, j | 0 <= i < j < |ab| && TimeOf(ab[i]).Some? && TimeOf(ab[j]).Some?
      ensures TimeOf(ab[i]).value <= TimeOf(ab[j]).value
    {
      if j < |a| {
        assert ab[i] == a[i] && ab[j] == a[j];
      } else if i >= |a| {
        assert ab[i] == b[i - |a|] && ab[j] == b[j - |a|];
      } else {
        assert ab[i] == a[i] && ab[j] == b[j - |a|];
      }
    }
    forall i | 0 <= i < |ab| && TimeOf(ab[i]).Some? ensures lo <= TimeOf(ab[i]).value {
      if i < |a| { assert ab[i] == a[i]; } else { assert ab[i] == b[i - |a|]; }
    }
  }

  /** One pass acts between the clock reading at its top and the moment its wait returned. */
  lemma IterateInOrder(root: Path, last: Option<nat>, clock: nat, d: Delivery)
    requires clock <= d.polled <= d.at
    ensures InOrder(Iterate(root, last, d).acts)
    ensures NotBefore(Iterate(root, last, d).acts, clock) && NotAfter(Iterate(root, last, d).acts, d.at)
  {
    var top: seq<Action> := if Timeout(last, d.polled).FireNow? then [Sync(d.polled)] else [];
    var s := Handle(root, AfterPoll(last, d.polled), d.at, d.recv);
    assert |s.acts| <= 1 && forall i :: 0 <= i < |s.acts| ==> TimeOf(s.acts[i]) == Some(d.at);
    assert |top| <= 1 && forall i :: 0 <= i < |top| ==> TimeOf(top[i]) == Some(d.polled);
    InOrderAppend(top, s.acts, clock, d.polled);
  }

  /**
   * With a clock that never goes back, the loop's trace is in time order and
   * nothing in it happens before the run started.
   */
  lemma {:induction false} RunInOrder(root: Path, last: Option<nat>, clock: nat, ds: seq<Delivery>)
    requires Monotone(clock, ds)
    ensures InOrder(RunLoop(root, last, ds).acts) && NotBefore(RunLoop(root, last, ds).acts, clock)
    decreases |ds|
  {
    if ds != [] {
      var s := Iterate(root, last, ds[0]);
      IterateInOrder(root, last, clock, ds[0]);
      if !s.running {
        assert TimeOf([Log(ShutdownMessage)][0]).None?;
        InOrderAppend(s.acts, [Log(ShutdownMessage)], clock, ds[0].at);
      } else {
        RunInOrder(root, s.last, ds[0].at, ds[1..]);
        InOrderAppend(s.acts, RunLoop(root, s.last, ds[1..]).acts, clock, ds[0].at);
      }
    }
  }

  lemma InOrderTail(acts: seq<Action>)
    requires acts != [] && InOrder(acts)
    ensures InOrder(acts[1..])
    ensures TimeOf(acts[0]).Some? ==> NotBefore(acts[1..], TimeOf(acts[0]).value)
  {
    var rest := acts[1..];
    forall i, j | 0 <= i < j < |rest| && TimeOf(rest[i]).Some? && TimeOf(rest[j]).Some?
      ensures TimeOf(rest[i]).value <= TimeOf(rest[j]).value
    {
      assert rest[i] == acts[i + 1] && rest[j] == acts[j + 1];
    }
    if TimeOf(acts[0]).Some? {
      forall i | 0 <= i < |rest| && TimeOf(rest[i]).Some? ensures TimeOf(acts[0]).value <= TimeOf(rest[i]).value {
        assert rest[i] == acts[i + 1];
      }
    }
  }

  /** In time order, once a change at `s` is pending every later sync is at least the push interval after `s`. */
  lemma {:induction false} SyncsAfter(acts: seq<Action>, s: nat)
    requires Debounced(acts, Some(s)) && InOrder(acts) && NotBefore(acts, s)
    ensures forall j :: 0 <= j < |acts| && acts[j].Sync? ==> s + PushInterval <= acts[j].at
    decreases |acts|
  {
    if acts != [] {
      var rest := acts[1..];
      InOrderTail(acts);
      if acts[0].Sync? {
        forall j | 0 <= j < |acts| && acts[j].Sync? ensures s + PushInterval <= acts[j].at {
          if j > 0 {
            assert TimeOf(acts[0]).value <= TimeOf(acts[j]).value;
          }
        }
      } else {
        var s' := if acts[0].LogChange? then acts[0].at else s;
        assert NotBefore(rest, s') by {
          if !acts[0].LogChange? {
            forall i | 0 <= i < |rest| && TimeOf(rest[i]).Some? ensures s' <= TimeOf(rest[i]).value {
              assert rest[i] == acts[i + 1];
            }
          }
        }
        assert s <= s' by {
          if acts[0].LogChange? { assert TimeOf(acts[0]).Some?; }
        }
        SyncsAfter(rest, s');
        forall j | 0 <= j < |acts| && acts[j].Sync? ensures s + PushInterval <= acts[j].at {
          assert acts[j] == rest[j - 1];
        }
      }
    }
  }

  /** No sync comes less than the push interval after an earlier logged change. */
  ghost predicate SyncsWait(acts: seq<Action>) {
    forall i, j :: 0 <= i < j < |acts| && acts[i].LogChange? && acts[j].Sync? ==>
      acts[i].at + PushInterval <= acts[j].at
  }

  /** A debounced trace in time order keeps every sync at least the push interval after every earlier change. */
  lemma {:induction false} SyncsWaitOf(acts: seq<Action>, since: Option<nat>)
    requires Debounced(acts, since) && InOrder(acts)
    ensures SyncsWait(acts)
    decreases |acts|
  {
    if acts != [] {
      var rest := acts[1..];
      InOrderTail(acts);
      var next := if acts[0].Sync? then None else if acts[0].LogChange? then Some(acts[0].at) else since;
      SyncsWaitOf(rest, next);
      if acts[0].LogChange? {
        SyncsAfter(rest, acts[0].at);
      }
      forall i, j | 0 <= i < j < |acts| && acts[i].LogChange? && acts[j].Sync?
        ensures acts[i].at + PushInterval <= acts[j].at
      {
        if i == 0 {
          assert acts[j] == rest[j - 1];
        } else {
          assert acts[i] == rest[i - 1] && acts[j] == rest[j - 1];
        }
      }
    }
  }

  /**
   * The debounce guarantee in time: with a clock that never goes back and
   * waits that are kept, no sync happens less than the push interval after
   * any relevant change logged before it, so changes less than that apart
   * never sync in between.
   */
  lemma TimedDebounce(root: Path, last: Option<nat>, clock: nat, ds: seq<Delivery>)
    requires Monotone(clock, ds) && (last.Some? ==> last.value <= clock) && KeepsWaits(root, last, ds)
    ensures SyncsWait(RunLoop(root, last, ds).acts)
  {
    KeepsWaitsHonest(root, last, clock, ds);
    RunDebounced(root, last, ds);
    RunInOrder(root, last, clock, ds);
    SyncsWaitOf(RunLoop(root, last, ds).acts, last);
  }

  predicate NoSync(acts: seq<Action>) {
    forall i :: 0 <= i < |acts| ==> !acts[i].Sync?
  }

  predicate NoneCount(root: Path, ds: seq<Delivery>) {
    forall i :: 0 <= i < |ds| ==> !(ds[i].recv.Received? && Counts(root, ds[i].recv.event))
  }

  /** While Idle, notifications that do not count never sync and never leave Idle. */
  lemma {:induction false} IdleStaysQuiet(root: Path, ds: seq<Delivery>)
    requires NoneCount(root, ds)
    ensures NoSync(RunLoop(root, None, ds).acts)
    ensures RunLoop(root, None, ds).last == None
    decreases |ds|
  {
    if ds != [] {
      var s := Iterate(root, None, ds[0]);
      assert !(ds[0].recv.Received? && Counts(root, ds[0].recv.event));
      if s.running {
        assert NoneCount(root, ds[1..]) by {
          forall i | 0 <= i < |ds[1..]| ensures !(ds[1..][i].recv.Received? && Counts(root, ds[1..][i].recv.event)) {
            assert ds[1..][i] == ds[i + 1];
          }
        }
        IdleStaysQuiet(root, ds[1..]);
      }
    }
  }

  /**
   * Quiescence: once a change is pending and the wait times out, exactly one
   * sync fires, at that moment, and as long as nothing relevant arrives no
   * further sync follows.
   */
  lemma FiresOnceThenQuiet(root: Path, since: nat, ds: seq<Delivery>)
    requires ds != [] && ds[0].recv.TimedOut?
    requires ds[0].polled < since + PushInterval
    requires NoneCount(root, ds)
    ensures RunLoop(root, Some(since), ds).acts != []
    ensures RunLoop(root, Some(since), ds).acts[0] == Sync(ds[0].at)
    ensures NoSync(RunLoop(root, Some(since), ds).acts[1..])
    ensures RunLoop(root, Some(since), ds).last == None
  {
    assert NoneCount(root, ds[1..]) by {
      forall i | 0 <= i < |ds[1..]| ensures !(ds[1..][i].recv.Received? && Counts(root, ds[1..][i].recv.event)) {
        assert ds[1..][i] == ds[i + 1];
      }
    }
    IdleStaysQuiet(root, ds[1..]);
    var rest := RunLoop(root, None, ds[1..]);
    assert RunLoop(root, Some(since), ds).acts == [Sync(ds[0].at)] + rest.acts;
    assert RunLoop(root, Some(since), ds).acts[1..] == rest.acts;
  }

  /**
   * A burst of changes: a.txt at 0 s, logs/x.log at 1 s (ignored), b.txt at
   * 2 s. The loop becomes Pending at 0, restarts the window at 2, and the wait
   * it then sets expires at 272 s, where the single sync fires.
   */
  lemma BurstScenario()
    ensures
      var root: Path := ["srv", "cdn"];
      var a := Event(Modify, [root + ["a.txt"]]);
      var x := Event(Create, [root + ["logs", "x.log"]]);
      var b := Event(Modify, [root + ["b.txt"]]);
      var ds := [
        Delivery(0, 0, Received(a)),
        Delivery(0, 1, Received(x)),
        Delivery(1, 2, Received(b)),
        Delivery(2, 272, TimedOut),
        Delivery(272, 900, Disconnected)];
      Timeout(Some(2), 2) == WaitFor(PushInterval) &&
      RunLoop(root, None, ds) == Step(None, [LogChange(0, a), LogChange(2, b), Sync(272), Log(ShutdownMessage)], false)
  {
    var root: Path := ["srv", "cdn"];
    var a := Event(Modify, [root + ["a.txt"]]);
    var x := Event(Create, [root + ["logs", "x.log"]]);
    var b := Event(Modify, [root + ["b.txt"]]);
    assert (root + ["a.txt"])[..|root|] == root && (root + ["a.txt"])[|root|..] == ["a.txt"];
    assert (root + ["b.txt"])[..|root|] == root && (root + ["b.txt"])[|root|..] == ["b.txt"];
    assert (root + ["logs", "x.log"])[|root|..] == ["logs", "x.log"];
    assert RelevantUnder(root, root + ["a.txt"]);
    assert RelevantUnder(root, root + ["b.txt"]);
    assert !RelevantUnder(root, root + ["logs", "x.log"]);
    assert Counts(root, a) && Counts(root, b) && !Counts(root, x);
    BurstRun(root, a, x, b);
  }

  /** The burst above, for any two relevant changes around an irrelevant one. */
  lemma BurstRun(root: Path, a: Event, x: Event, b: Event)
    requires Counts(root, a) && !Counts(root, x) && Counts(root, b)
    ensures
      RunLoop(root, None, [
        Delivery(0, 0, Received(a)), Delivery(0, 1, Received(x)), Delivery(1, 2, Received(b)),
        Delivery(2, 272, TimedOut), Delivery(272, 900, Disconnected)])
      == Step(None, [LogChange(0, a), LogChange(2, b), Sync(272), Log(ShutdownMessage)], false)
  {
    var d0, d1 := Delivery(0, 0, Received(a)), Delivery(0, 1, Received(x));
    var rest := [Delivery(1, 2, Received(b)), Delivery(2, 272, TimedOut), Delivery(272, 900, Disconnected)];
    var tail := [LogChange(2, b), Sync(272), Log(ShutdownMessage)];
    BurstTail(root, b);
    assert Iterate(root, Some(0), d1) == Step(Some(0), [], true);
    RunLoopCons(root, Some(0), d1, rest);
    assert RunLoop(root, Some(0), [d1] + rest) == Step(None, tail, false);
    assert Iterate(root, None, d0) == Step(Some(0), [LogChange(0, a)], true);
    RunLoopCons(root, None, d0, [d1] + rest);
    assert [d0] + ([d1] + rest) == [d0, d1] + rest;
  }

  /** The second relevant change restarts the window; it expires at 272 and the channel then closes. */
  lemma BurstTail(root: Path, b: Event)
    requires Counts(root, b)
    ensures
      RunLoop(root, Some(0), [Delivery(1, 2, Received(b)), Delivery(2, 272, TimedOut), Delivery(272, 900, Disconnected)])
      == Step(None, [LogChange(2, b), Sync(272), Log(ShutdownMessage)], false)
  {
    var d2, d3, d4 := Delivery(1, 2, Received(b)), Delivery(2, 272, TimedOut), Delivery(272, 900, Disconnected);
    assert Iterate(root, None, d4) == Step(None, [], false);
    RunLoopCons(root, None, d4, []);
    assert RunLoop(root, None, [d4]) == Step(None, [Log(ShutdownMessage)], false);
    assert Iterate(root, Some(2), d3) == Step(None, [Sync(272)], true);
    RunLoopCons(root, Some(2), d3, [d4]);
    assert RunLoop(root, Some(2), [d3] + [d4]) == Step(None, [Sync(272), Log(ShutdownMessage)], false);
    assert Iterate(root, Some(0), d2) == Step(Some(2), [LogChange(2, b)], true);
    RunLoopCons(root, Some(0), d2, [d3] + [d4]);
    assert [d2] + ([d3] + [d4]) == [d2, d3, d4];
  }

  /** Unfolds the loop over one delivery followed by the rest. */
  lemma RunLoopCons(root: Path, last: Option<nat>, d: Delivery, rest: seq<Delivery>)
    ensures RunLoop(root, last, [d] + rest) ==
      Then(Iterate(root, last, d), RunLoop(root, Iterate(root, last, d).last, rest))
  {
    assert ([d] + rest)[0] == d && ([d] + rest)[1..] == rest;
  }

  /** A generated page changing on its own never makes the loop pending, so nothing fires. */
  lemma GeneratedPageScenario(root: Path, ds: seq<Delivery>)
    requires forall i :: 0 <= i < |ds| ==>
      ds[i].recv.Received? && ds[i].recv.event == Event(Modify, [root + [IndexPage]])
    ensures NoSync(RunLoop(root, None, ds).acts)
    ensures RunLoop(root, None, ds).last == None
  {
    assert (root + [IndexPage])[|root|..] == [IndexPage];
    assert !RelevantUnder(root, root + [IndexPage]);
    assert !Counts(root, Event(Modify, [root + [IndexPage]]));
    IdleStaysQuiet(root, ds);
  }
}

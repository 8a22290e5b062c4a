/**
 * The polling state machine of the client, as pure functions over a
 * `PollState` value: which interval handle the client currently stores,
 * which intervals the browser still has scheduled, and the progress values
 * the callbacks have received so far. The class in `ApiClient` is proved
 * against these functions; the lemmas here are about whole runs.
 */
module Polling {
  import opened Wrappers

  /** A browser interval handle. Browsers hand out positive integers, so a
      stored handle is always truthy. */
  type TimerId = n: int | n > 0 witness 1

  /** The poll interval used when the caller gives none, in milliseconds. */
  const DefaultIntervalMs: int := 2000

  /** The parsed body of the status endpoint. `status` is `None` when the
      body carries no string `status` field; the other fields are opaque. */
  datatype StatusReport = StatusReport(status: Option<string>, fields: map<string, string>)

  /** What the status request of one tick produced: the parsed body, or a
      failure (transport error, non-2xx answer, malformed JSON). */
  datatype Fetch = Ok(report: StatusReport) | Err

  /** How the progress callback finished when it was called. */
  datatype CallbackOutcome = Returned | Threw

  /** What one scheduled interval closes over: the batch it asks about,
      whether a progress callback was given, and its period. */
  datatype PollSession = PollSession(batchId: string, hasCallback: bool, intervalMs: int)

  /** One call of a progress callback: which interval made it, with what. */
  datatype Delivery = Delivery(timer: TimerId, report: StatusReport)

  /** `current` is the client's `pollingInterval` field; `timers` are the
      intervals the browser still runs; `delivered` logs every callback call. */
  datatype PollState = PollState(
    current: Option<TimerId>,
    timers: map<TimerId, PollSession>,
    delivered: seq<Delivery>)

  /** A freshly constructed client: no handle, nothing scheduled. */
  const Initial: PollState := PollState(None, map[], [])

  /** The statuses that end a poll; the comparison is exact (case-sensitive). */
  predicate IsTerminal(r: StatusReport) {
    r.status == Some("completed") || r.status == Some("failed")
  }

  /** A tick whose fetch returns a terminal status (the callback permitting). */
  predicate Terminates(f: Fetch) {
    f.Ok? && IsTerminal(f.report)
  }

  /** The object invariant: a stored handle names an interval still running. */
  predicate Consistent(s: PollState) {
    s.current.Some? ==> s.current.value in s.timers
  }

  /** `stopPolling`: clear the stored interval, if there is one, and forget it. */
  function AfterStop(s: PollState): (t: PollState)
    ensures t.current == None
    ensures t.delivered == s.delivered
    ensures s.current == None ==> t == s
    ensures s.current.Some? ==> s.current.value !in t.timers
    ensures forall g :: g in s.timers && s.current != Some(g) ==> g in t.timers && t.timers[g] == s.timers[g]
    ensures forall g :: g in t.timers ==> g in s.timers
  {
    match s.current
    case None => s
    case Some(h) => PollState(None, s.timers - {h}, s.delivered)
  }

  /** `pollExtractionStatus`: the browser schedules a new interval `h` and the
      client stores its handle, without clearing the one it stored before. */
  function AfterStart(s: PollState, h: TimerId, session: PollSession): (t: PollState)
    requires h !in s.timers
    ensures t.current == Some(h) && h in t.timers && t.timers[h] == session
    ensures t.delivered == s.delivered
    ensures forall g :: g in s.timers ==> g in t.timers && t.timers[g] == s.timers[g]
    ensures forall g :: g in t.timers ==> g in s.timers || g == h
  {
    PollState(Some(h), s.timers[h := session], s.delivered)
  }

  /** Does the tick stop polling? Only a terminal status does, and only when
      the callback (if any) returned: its exception skips the check. */
  predicate TickStops(session: PollSession, fetch: Fetch, callback: CallbackOutcome) {
    Terminates(fetch) && !(session.hasCallback && callback == Threw)
  }

  /** One firing of interval `h`: fetch the status, hand it to the callback,
      then stop polling on a terminal status. Every failure is swallowed. */
  function AfterTick(s: PollState, h: TimerId, fetch: Fetch, callback: CallbackOutcome): (t: PollState)
    requires h in s.timers
    ensures fetch.Err? ==> t == s
    ensures fetch.Ok? ==> t.delivered == s.delivered + (if s.timers[h].hasCallback then [Delivery(h, fetch.report)] else [])
    ensures TickStops(s.timers[h], fetch, callback) ==> t.current == None && (s.current.Some? ==> s.current.value !in t.timers)
    ensures TickStops(s.timers[h], fetch, callback) ==>
              forall g :: g in s.timers && s.current != Some(g) ==> g in t.timers && t.timers[g] == s.timers[g]
    ensures forall g :: g in t.timers ==> g in s.timers
    ensures !TickStops(s.timers[h], fetch, callback) ==> t.current == s.current && t.timers == s.timers
  {
    match fetch
    case Err => s
    case Ok(report) =>
      var session := s.timers[h];
      var s1 := if session.hasCallback then s.(delivered := s.delivered + [Delivery(h, report)]) else s;
      if session.hasCallback && callback == Threw then s1
      else if IsTerminal(report) then AfterStop(s1)
      else s1
  }

  /** Everything that can happen to a client: a poll is started with the
      handle the browser returns, an interval fires, or `stopPolling` runs. */
  datatype Event =
    | Started(handle: TimerId, session: PollSession)
    | Ticked(handle: TimerId, fetch: Fetch, callback: CallbackOutcome)
    | Stopped

  /** One event. The browser never returns the handle of a running interval
      and never fires a cleared one, so such events change nothing. */
  function Step(s: PollState, e: Event): PollState {
    match e
    case Started(h, session) => if h in s.timers then s else AfterStart(s, h, session)
    case Ticked(h, fetch, callback) => if h in s.timers then AfterTick(s, h, fetch, callback) else s
    case Stopped => AfterStop(s)
  }

  function Run(s: PollState, events: seq<Event>): PollState
    decreases |events|
  {
    if events == [] then s else Run(Step(s, events[0]), events[1..])
  }

  /** Interval `h` firing once per fetch result, its callback always returning. */
  function Ticks(h: TimerId, results: seq<Fetch>): seq<Event>
    decreases |results|
  {
    if results == [] then [] else [Ticked(h, results[0], Returned)] + Ticks(h, results[1..])
  }

  /** The fetch results up to and including the first terminal one. */
  function UntilTerminal(results: seq<Fetch>): seq<Fetch>
    decreases |results|
  {
    if results == [] then []
    else if Terminates(results[0]) then [results[0]]
    else [results[0]] + UntilTerminal(results[1..])
  }

  predicate HasTerminal(results: seq<Fetch>) {
    exists i :: 0 <= i < |results| && Terminates(results[i])
  }

  /** The status reports among the fetch results, in order. */
  function Reports(results: seq<Fetch>): seq<StatusReport>
    decreases |results|
  {
    if results == [] then []
    else (if results[0].Ok? then [results[0].report] else []) + Reports(results[1..])
  }

  function Deliveries(h: TimerId, reports: seq<StatusReport>): seq<Delivery>
    decreases |reports|
  {
    if reports == [] then [] else [Delivery(h, reports[0])] + Deliveries(h, reports[1..])
  }

  // ---------------------------------------------------------------------
  // Single steps

  /** Stopping is idempotent, and stopping a client that never polled is a no-op. */
  lemma StopIdempotent(s: PollState)
    ensures AfterStop(AfterStop(s)) == AfterStop(s)
    ensures AfterStop(Initial) == Initial
  {
  }

  /** Every step keeps the stored handle pointing at a running interval. */
  lemma StepConsistent(s: PollState, e: Event)
    requires Consistent(s)
    ensures Consistent(Step(s, e))
  {
  }

  // ---------------------------------------------------------------------
  // Whole runs

  lemma {:induction false} RunConsistent(s: PollState, events: seq<Event>)
    requires Consistent(s)
    ensures Consistent(Run(s, events))
    decreases |events|
  {
    if events != [] {
      StepConsistent(s, events[0]);
      RunConsistent(Step(s, events[0]), events[1..]);
    }
  }

  /** The delivery log only grows: no event takes back a delivered status. */
  lemma {:induction false} RunExtendsDeliveries(s: PollState, events: seq<Event>)
    ensures s.delivered <= Run(s, events).delivered
    decreases |events|
  {
    if events != [] {
      RunExtendsDeliveries(Step(s, events[0]), events[1..]);
    }
  }

  /** An interval that is running but not the stored handle can never be
      cleared again: `stopPolling` only clears the stored handle, and no
      later start can store it. It keeps firing with its own session. */
  lemma {:induction false} LeakedTimerNeverCleared(s: PollState, h: TimerId, events: seq<Event>)
    requires h in s.timers && s.current != Some(h)
    ensures h in Run(s, events).timers
    ensures Run(s, events).timers[h] == s.timers[h]
    ensures Run(s, events).current != Some(h)
    decreases |events|
  {
    if events != [] {
      LeakedTimerNeverCleared(Step(s, events[0]), h, events[1..]);
    }
  }

  /** Starting a poll while another is stored leaks the old interval: it runs
      on through any later events, out of reach of `stopPolling`. */
  lemma RestartLeaksPreviousTimer(s: PollState, h: TimerId, session: PollSession, events: seq<Event>)
    requires Consistent(s) && s.current.Some?
    requires h !in s.timers
    ensures var t := Run(AfterStart(s, h, session), events);
      s.current.value in t.timers && t.timers[s.current.value] == s.timers[s.current.value]
  {
    LeakedTimerNeverCleared(AfterStart(s, h, session), s.current.value, events);
  }

  /** A leaked interval that sees a terminal status stops the stored poll, not
      itself: the stored interval is cleared and the leaked one keeps running. */
  lemma LeakedTerminalTickStopsCurrentPoll(s: PollState, leaked: TimerId, r: StatusReport)
    requires leaked in s.timers && s.current.Some? && s.current.value != leaked
    requires IsTerminal(r)
    ensures var t := AfterTick(s, leaked, Ok(r), Returned);
      t.current == None && s.current.value !in t.timers && leaked in t.timers
  {
  }

  /** A cleared interval never fires, so its ticks change nothing. Each
      single tick is already the identity by the guard of `Step`; this lifts
      that definition to any sequence of ticks, as used by `PollsUntilTerminal`. */
  lemma {:induction false} ClearedTimerIsSilent(s: PollState, h: TimerId, results: seq<Fetch>)
    requires h !in s.timers
    ensures Run(s, Ticks(h, results)) == s
    decreases |results|
  {
    if results != [] {
      assert Ticks(h, results)[0] == Ticked(h, results[0], Returned);
      assert Ticks(h, results)[1..] == Ticks(h, results[1..]);
      ClearedTimerIsSilent(s, h, results[1..]);
    }
  }

  /** Failed status requests are swallowed: the state is left exactly as it
      was, so the interval keeps firing. One failed tick is the identity by
      the `Err` case of `AfterTick`; this lifts that to any number of them. */
  lemma {:induction false} FailedFetchesKeepPolling(s: PollState, h: TimerId, results: seq<Fetch>)
    requires h in s.timers
    requires forall i :: 0 <= i < |results| ==> results[i] == Err
    ensures Run(s, Ticks(h, results)) == s
    decreases |results|
  {
    if results != [] {
      assert Ticks(h, results)[0] == Ticked(h, Err, Returned);
      assert Ticks(h, results)[1..] == Ticks(h, results[1..]);
      FailedFetchesKeepPolling(s, h, results[1..]);
    }
  }

  lemma HasTerminalCons(results: seq<Fetch>)
    requires results != []
    ensures HasTerminal(results) <==> Terminates(results[0]) || HasTerminal(results[1..])
  {
    if HasTerminal(results[1..]) {
      var i :| 0 <= i < |results[1..]| && Terminates(results[1..][i]);
      assert Terminates(results[i + 1]);
    }
    if HasTerminal(results) && !Terminates(results[0]) {
      var i :| 0 <= i < |results| && Terminates(results[i]);
      assert i > 0 && Terminates(results[1..][i - 1]);
    }
  }

  lemma {:induction false} DeliveriesAppend(h: TimerId, a: seq<StatusReport>, b: seq<StatusReport>)
    ensures Deliveries(h, a + b) == Deliveries(h, a) + Deliveries(h, b)
    decreases |a|
  {
    if a != [] {
      calc {
        Deliveries(h, a + b);
        { assert (a + b)[0] == a[0]; assert (a + b)[1..] == a[1..] + b; }
        [Delivery(h, a[0])] + Deliveries(h, a[1..] + b);
        { DeliveriesAppend(h, a[1..], b); }
        [Delivery(h, a[0])] + (Deliveries(h, a[1..]) + Deliveries(h, b));
        ([Delivery(h, a[0])] + Deliveries(h, a[1..])) + Deliveries(h, b);
      }
    } else {
      assert a + b == b;
    }
  }

  /** One tick of interval `h` followed by the rest of its ticks. */
  lemma RunTicksUnfold(s: PollState, h: TimerId, results: seq<Fetch>)
    requires h in s.timers && results != []
    ensures Run(s, Ticks(h, results)) == Run(AfterTick(s, h, results[0], Returned), Ticks(h, results[1..]))
  {
    assert Ticks(h, results)[0] == Ticked(h, results[0], Returned);
    assert Ticks(h, results)[1..] == Ticks(h, results[1..]);
  }

  /** The deliveries a terminal or non-terminal first result contributes. */
  lemma ReportsCons(f: Fetch, rest: seq<Fetch>, h: TimerId)
    ensures Reports([f] + rest) == (if f.Ok? then [f.report] else []) + Reports(rest)
    ensures Deliveries(h, if f.Ok? then [f.report] else []) == (if f.Ok? then [Delivery(h, f.report)] else [])
  {
    assert ([f] + rest)[0] == f;
    assert ([f] + rest)[1..] == rest;
    if f.Ok? {
      assert Deliveries(h, [f.report]) == [Delivery(h, f.report)] + Deliveries(h, []);
    }
  }

  /** The polling loop of the stored interval `h`: every status it fetches is
      handed to the callback, in order, up to and including the first terminal
      one, and then polling stops; failed fetches deliver nothing. Without a
      terminal status polling goes on with nothing else changed. */
  lemma {:induction false} PollsUntilTerminal(s: PollState, h: TimerId, results: seq<Fetch>)
    requires h in s.timers && s.current == Some(h)
    ensures var t := Run(s, Ticks(h, results));
      t.delivered == s.delivered + (if s.timers[h].hasCallback then Deliveries(h, Reports(UntilTerminal(results))) else [])
    ensures var t := Run(s, Ticks(h, results));
      HasTerminal(results) ==> t.current == None && t.timers == s.timers - {h}
    ensures var t := Run(s, Ticks(h, results));
      !HasTerminal(results) ==> t.current == Some(h) && t.timers == s.timers
    decreases |results|
  {
    if results != [] {
      var f := results[0];
      var s1 := AfterTick(s, h, f, Returned);
      RunTicksUnfold(s, h, results);
      HasTerminalCons(results);
      ReportsCons(f, results[1..], h);
      if Terminates(f) {
        ClearedTimerIsSilent(s1, h, results[1..]);
        assert s1.timers == s.timers - {h};
        assert UntilTerminal(results) == [f] + [];
      } else {
        PollsUntilTerminal(s1, h, results[1..]);
        assert UntilTerminal(results) == [f] + UntilTerminal(results[1..]);
        DeliveriesAppend(h, if f.Ok? then [f.report] else [], Reports(UntilTerminal(results[1..])));
      }
    }
  }

  /** Two `pending` answers then `completed`: the callback runs exactly three
      times, the last time with the terminal status, and polling stops, so
      whatever the server would have answered later is never asked for. */
  lemma PendingTwiceThenCompleted(h: TimerId, batchId: string, pending: StatusReport, done: StatusReport, later: seq<Fetch>)
    requires pending.status == Some("pending") && done.status == Some("completed")
    ensures var s := AfterStart(Initial, h, PollSession(batchId, true, DefaultIntervalMs));
      var t := Run(s, Ticks(h, [Ok(pending), Ok(pending), Ok(done)] + later));
      t.delivered == [Delivery(h, pending), Delivery(h, pending), Delivery(h, done)]
      && t.current == None && t.timers == map[]
  {
    var s := AfterStart(Initial, h, PollSession(batchId, true, DefaultIntervalMs));
    var rs := [Ok(pending), Ok(pending), Ok(done)] + later;
    PollsUntilTerminal(s, h, rs);
    assert rs[1..] == [Ok(pending), Ok(done)] + later;
    assert rs[1..][1..] == [Ok(done)] + later;
    assert UntilTerminal(rs[1..][1..]) == [Ok(done)];
    assert UntilTerminal(rs[1..]) == [Ok(pending), Ok(done)];
    assert UntilTerminal(rs) == [Ok(pending), Ok(pending), Ok(done)];
    assert HasTerminal(rs) by { assert Terminates(rs[2]); }
    assert Reports([Ok(done)]) == [done];
    assert Reports([Ok(pending), Ok(done)]) == [pending, done];
    assert Deliveries(h, [done]) == [Delivery(h, done)];
    assert Deliveries(h, [pending, done]) == [Delivery(h, pending), Delivery(h, done)];
    assert s.timers - {h} == map[];
  }

  /** `failed` on the first tick: one delivery, carrying the terminal status,
      and polling stops at once. */
  lemma FailedOnFirstTick(h: TimerId, batchId: string, failed: StatusReport, later: seq<Fetch>)
    requires failed.status == Some("failed")
    ensures var s := AfterStart(Initial, h, PollSession(batchId, true, DefaultIntervalMs));
      var t := Run(s, Ticks(h, [Ok(failed)] + later));
      t.delivered == [Delivery(h, failed)] && IsTerminal(t.delivered[0].report)
      && t.current == None && t.timers == map[]
  {
    var s := AfterStart(Initial, h, PollSession(batchId, true, DefaultIntervalMs));
    var rs := [Ok(failed)] + later;
    PollsUntilTerminal(s, h, rs);
    assert Terminates(rs[0]);
    assert UntilTerminal(rs) == [Ok(failed)];
    assert Reports([Ok(failed)]) == [failed];
    assert Deliveries(h, [failed]) == [Delivery(h, failed)];
    assert s.timers - {h} == map[];
  }
}

/**
 * `StanShareAPIClient`'s one piece of mutable state: the handle of the
 * interval that polls an extraction's status. The browser's timer table and
 * the progress values handed to callbacks are ghost fields, so that each
 * method can be stated as a step of the `Polling` state machine.
 */
module ApiClient {
  import opened Wrappers
  import opened Polling
  import opened Formatting

  /** The backend address used when the caller gives none. */
  const DefaultBaseUrl: string := "http://localhost:5000"

  class StanShareApiClient {
    var baseUrl: string
    var pollingInterval: Option<TimerId>
    /** The intervals the browser runs for this client, with what each closes over. */
    ghost var timers: map<TimerId, PollSession>
    /** Every call of a progress callback, in order. */
    ghost var delivered: seq<Delivery>

    ghost function State(): PollState
      reads this
    {
      PollState(pollingInterval, timers, delivered)
    }

    ghost predicate Valid()
      reads this
    {
      Consistent(State())
    }

    constructor (baseUrl: string := DefaultBaseUrl)
      ensures Valid()
      ensures this.baseUrl == baseUrl
      ensures pollingInterval == None
      ensures State() == Initial
    {
      this.baseUrl := baseUrl;
      pollingInterval := None;
      timers := map[];
      delivered := [];
    }

    /** `pollExtractionStatus`: `handle` is what `setInterval` returned for
        the new interval, `hasCallback` whether `onProgress` was given. */
    method PollExtractionStatus(batchId: string, hasCallback: bool, handle: TimerId, intervalMs: int := DefaultIntervalMs)
      requires Valid()
      requires handle !in timers
      modifies this
      ensures Valid()
      ensures State() == AfterStart(old(State()), handle, PollSession(batchId, hasCallback, intervalMs))
      ensures pollingInterval == Some(handle)
      ensures old(pollingInterval).Some? ==> old(pollingInterval).value in timers
      ensures baseUrl == old(baseUrl)
    {
      timers := timers[handle := PollSession(batchId, hasCallback, intervalMs)];
      pollingInterval := Some(handle);
    }

    /** One firing of the interval `handle`, whose closure holds `session`:
        `fetch` is what the status request produced and `callback` how
        `onProgress` finished. */
    method Tick(ghost handle: TimerId, session: PollSession, fetch: Fetch, callback: CallbackOutcome)
      requires Valid()
      requires handle in timers && timers[handle] == session
      modifies this
      ensures Valid()
      ensures State() == AfterTick(old(State()), handle, fetch, callback)
      ensures fetch.Err? ==> pollingInterval == old(pollingInterval) && delivered == old(delivered)
      ensures fetch.Ok? && session.hasCallback ==> delivered == old(delivered) + [Delivery(handle, fetch.report)]
      ensures !session.hasCallback ==> delivered == old(delivered)
      ensures TickStops(session, fetch, callback) ==> pollingInterval == None
      ensures !TickStops(session, fetch, callback) ==> pollingInterval == old(pollingInterval)
      ensures baseUrl == old(baseUrl)
    {
      match fetch
      case Err =>
        // the error is logged and the interval fires again
      case Ok(report) =>
        if session.hasCallback {
          delivered := delivered + [Delivery(handle, report)];
        }
        if session.hasCallback && callback == Threw {
          // the callback's exception is caught with the fetch errors, before the terminal check
        } else if IsTerminal(report) {
          StopPolling();
        }
    }

    /** `stopPolling`: clear the stored interval, if any; harmless otherwise. */
    method StopPolling()
      modifies this
      ensures Valid()
      ensures State() == AfterStop(old(State()))
      ensures pollingInterval == None
      ensures old(pollingInterval) == None ==> State() == old(State())
      ensures baseUrl == old(baseUrl)
    {
      if pollingInterval.Some? {
        timers := timers - {pollingInterval.value};
        pollingInterval := None;
      }
    }
  }

  /** The poll stops only on the exact strings "completed" and "failed",
      while the colour helper ignores case: an upper-case "COMPLETED" is shown
      green but keeps the poll running. */
  lemma TerminalCheckIsCaseSensitive(fields: map<string, string>)
    ensures !IsTerminal(StatusReport(Some("COMPLETED"), fields))
    ensures StatusColor(Some("COMPLETED")) == StatusGreen
  {
    assert ToLower("COMPLETED") == "completed";
  }

  /** The status that ends a poll is shown green when completed, red when failed. */
  lemma TerminalStatusColor(r: StatusReport)
    requires IsTerminal(r)
    ensures StatusColor(r.status) == if r.status == Some("completed") then StatusGreen else StatusRed
  {
    KeywordsAreLowerCase();
  }
}

# StanShare API client: polling state machine and display helpers

`StanShareAPIClient` (js/api-client.js) is a browser wrapper around the REST
API of a fund-data extraction backend. Most of its methods send an HTTP
request and return the parsed JSON. It keeps one piece of state, the handle
of the interval that polls an extraction batch's status. It also has four
static helpers that turn statuses, quality scores, dates and amounts into
display strings. This project models that state and those helpers.

- `wrappers.dfy`: `Option` stands for JavaScript's `null` / `undefined`.
- `polling.dfy` (module `Polling`): the polling state machine as pure
  functions over a `PollState`. The state holds the stored handle
  (`pollingInterval`), the intervals the browser still runs, and a log of
  every progress-callback call. There is one step function per operation:
  `AfterStart`, `AfterTick` and `AfterStop`. `Step` and `Run` replay a
  sequence of events, and the lemmas are about whole runs.
- `api_client.dfy` (module `ApiClient`): the class `StanShareApiClient`.
  It has the real field `pollingInterval` and ghost fields for the timer
  table and the delivery log. Each method is proved to be one step of the
  state machine and to keep the object invariant. There are also two lemmas
  that relate the poll's stopping condition to the status colours.
- `formatting.dfy` (module `Formatting`): `getStatusColor`, `getScoreColor`,
  `formatDate` and `formatCurrency`. The browser's locale formatters are
  passed in as function parameters.

How the model maps onto the browser:
- `setInterval` is not called by the model. The handle it would return is
  an argument of `PollExtractionStatus`. Browser handles are positive
  integers, so a stored handle is always truthy, and the `if` in
  `stopPolling` reduces to "a handle is stored".
- One firing of an interval is a call of `Tick`. Its arguments are the
  outcome of the status request (`Ok(report)` or `Err`) and how the
  callback finished (`Returned` or `Threw`). The callback runs inside the
  same `try`, so if it throws, the terminal check is skipped and the
  interval keeps firing.
- `Tick` also receives the session that the interval's closure captured
  (batch id, callback present, period). That lets an interval tick after it
  has been leaked. Starting a second poll without stopping the first only
  overwrites the handle, so the old interval keeps running.
  `LeakedTimerNeverCleared` shows that nothing can clear it afterwards.
  `LeakedTerminalTickStopsCurrentPoll` shows that when the leaked interval
  sees a terminal status, it clears the *current* poll, and the leaked
  interval itself keeps firing.

Some behaviour of the code that a reader might expect otherwise:
- `getScoreColor` has three bands, green, yellow and red (js/api-client.js:297-301).
- `startExtraction` sends `fundCount` unchecked (js/api-client.js:32-42), though its doc comment at js/api-client.js:28 says 1-500. It records no batch id.
- A failed poll tick is logged and swallowed, and the interval keeps firing (js/api-client.js:80-82).
- `getStatusColor` maps "processing" to the slate default (js/api-client.js:289-290).

## Model

| member | source | states |
|---|---|---|
| `ApiClient.StanShareApiClient.constructor` | js/api-client.js:7-10 | the base URL defaults to http://localhost:5000; a new client stores no polling handle and has no running interval and no deliveries |
| `ApiClient.StanShareApiClient.PollExtractionStatus` | js/api-client.js:72-73 | the new handle is stored and its interval runs with the captured batch, callback and period; the previously stored interval is still running (leaked), and the object invariant is kept |
| `ApiClient.StanShareApiClient.Tick` | js/api-client.js:73-83 | one firing: a failed fetch changes nothing; a fetched status is delivered to the callback exactly once when there is one, and never otherwise; the handle is cleared exactly when the status is terminal and the callback did not throw, and is otherwise unchanged |
| `ApiClient.StanShareApiClient.StopPolling` | js/api-client.js:89-94 | afterwards no handle is stored and the stored interval is no longer running; with no handle stored nothing changes, so a second call or a call before any poll is harmless |
| `Polling.AfterStart` | js/api-client.js:72-73 | starting stores the new handle, adds its interval, keeps every interval already running with its session, and delivers nothing |
| `Polling.AfterTick` | js/api-client.js:74-82 | a failed fetch leaves the state as it was; a fetched status is appended to the delivery log iff the interval has a callback; a terminal status (callback permitting) clears the stored handle and its interval and keeps all other intervals; otherwise handle and intervals are unchanged |
| `Polling.AfterStop` | js/api-client.js:89-94 | no handle is stored afterwards, the stored interval is gone, every other interval and the delivery log are kept, and a state with no handle is unchanged |
| `Polling.StopIdempotent` | js/api-client.js:89-94 | stopping twice is the same as stopping once, and stopping a freshly constructed client leaves it as constructed |
| `Polling.StepConsistent` | js/api-client.js:72-94 | every start, tick and stop keeps the stored handle, if any, pointing at a running interval |
| `Polling.RunConsistent` | js/api-client.js:72-94 | the same holds after any sequence of starts, ticks and stops |
| `Polling.RunExtendsDeliveries` | js/api-client.js:75-76 | no sequence of events removes or alters a delivered progress value; the log only grows |
| `Polling.LeakedTimerNeverCleared` | js/api-client.js:72-94 | an interval that runs without being the stored handle runs on through any sequence of events, with its session unchanged, and never becomes the stored handle again |
| `Polling.RestartLeaksPreviousTimer` | js/api-client.js:72-73 | after a poll is started while another handle is stored, the earlier interval is still running after any later events |
| `Polling.LeakedTerminalTickStopsCurrentPoll` | js/api-client.js:77-79 | a terminal status seen by a leaked interval clears the stored handle and stops the stored interval, while the leaked one keeps running |
| `Polling.ClearedTimerIsSilent` | js/api-client.js:89-93 | ticks of an interval that is no longer running change nothing |
| `Polling.FailedFetchesKeepPolling` | js/api-client.js:80-82 | any number of failed status requests leave the state exactly as it was, so the interval goes on firing |
| `Polling.PollsUntilTerminal` | js/api-client.js:73-83 | driving the stored interval with fetch results delivers every fetched status, in order, up to and including the first terminal one, and only if a callback was given; after a terminal status nothing is stored and the interval is gone; without one the handle and intervals are unchanged |
| `Polling.PendingTwiceThenCompleted` | js/api-client.js:73-83 | from a new client, pending, pending, completed gives exactly three callback calls, the last with the completed status, then no handle and no running interval, whatever later answers there would be |
| `Polling.FailedOnFirstTick` | js/api-client.js:75-79 | a failed status on the first tick is delivered once, is observable as terminal, and ends polling at once |
| `ApiClient.TerminalCheckIsCaseSensitive` | js/api-client.js:77 | the stop check compares exactly: an upper-case "COMPLETED" does not stop the poll, though the colour helper shows it green |
| `ApiClient.TerminalStatusColor` | js/api-client.js:279-288 | a status that ends a poll is shown green when completed and red when failed |
| `Formatting.ToLowerMatches` | js/api-client.js:280 | lower-casing a string gives a lower-case keyword exactly when the string equals the keyword ignoring case, character by character |
| `Formatting.StatusColorTable` | js/api-client.js:279-292 | green iff the status is completed or running, ignoring case; yellow iff pending; red iff failed or error; slate iff it is none of these |
| `Formatting.StatusColorCaseInsensitive` | js/api-client.js:280 | two statuses equal after lower-casing get the same class |
| `Formatting.StatusColorExamples` | js/api-client.js:279-291 | mixed-case keywords are recognised; "processing" and a missing status get the slate default |
| `Formatting.ScoreBands` | js/api-client.js:297-301 | green iff score >= 90, yellow iff 70 <= score < 90, red iff score < 70 |
| `Formatting.ScoreColorMonotonic` | js/api-client.js:297-301 | a higher score never gets a worse band |
| `Formatting.ScoreColorExamples` | js/api-client.js:297-301 | 90 and 70 belong to the higher band; 95 is green, 89.5 and 75 yellow, 69.9, 55 and 10 red |
| `Formatting.FormatDateFalsy` | js/api-client.js:267-273 | an absent or empty date string shows "N/A" whatever the locale formatter; any other string reaches the formatter unchanged |
| `Formatting.FormatCurrencyFalsy` | js/api-client.js:257-262 | an absent amount and zero are both formatted as 0; any other amount reaches the formatter unchanged |

## Left out

- The endpoint methods (`checkHealth`, `startExtraction`, `getExtractionStatus`, `getFunds`, `getAnnotations`, `getQualityMetrics`, the scheduler, delta and quality-stats calls) are network I/O. Each one is `fetch`, a `response.ok` check and JSON parsing. The status request appears only as the `Fetch` argument of `Tick`.
- The real `setInterval` / `clearInterval` and the asynchrony of ticks are not modelled. Ticks are sequential calls, so two slow ticks cannot overlap, and the interval period is only recorded.
- The `formatDate` branch for a non-empty date and the whole of `formatCurrency` use the browser's locale formatting (`Date`, `Intl.NumberFormat`). Both are parameters. Only the placeholder and zero coercion of falsy input are stated.
- `ApiClient.StanShareApiClient.Tick` (and `Polling.AfterTick`) assumes the progress callback only returns or throws. A callback that calls back into the client cannot be expressed. In the source, a callback at js/api-client.js:76 could start the next batch's poll on "completed". That poll would store a new handle at :73, and the check at :77-78 would then clear the new handle while the finished interval keeps firing for good. The model's "otherwise unchanged" clauses of `Tick`, and the handle clauses of `Polling.PollsUntilTerminal`, hold only for such a passive callback. A run that starts a poll after the terminal tick orders the two steps the other way round.
- `Formatting.StatusColor` covers only string, `null` and `undefined` arguments. A non-string argument has no `toLowerCase`, so the source throws, and that path is not modelled.
- `Formatting.ToLower` changes only 'A'..'Z'. JavaScript lower-cases all of Unicode. The classification is the same either way: the only non-ASCII character whose lower case is ASCII is the Kelvin sign (to 'k'), and no status keyword contains 'k'.
- `Formatting.ScoreColor` takes a real number. The source's type coercions of non-numbers are not modelled. NaN, which compares false and so falls into the red band, is not modelled either.
- `Polling.StatusReport`: a status body that is JSON `null` is not modelled. In the source it would be delivered and then throw when its `status` field is read.
- All of js/dashboard.js is left out. It is DOM manipulation, `localStorage`, fetching HTML fragments and executing their scripts, with no stateable core.
- `console.error` logging is left out.

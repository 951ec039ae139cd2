# daisysms client: response parsing and the status-polling loop

A model of the Go client library for the DaisySMS number-rental API
(`client.go`). The client sends HTTP GET requests to one endpoint and reads
plaintext replies: either a bare token such as `NO_NUMBERS`, or a colon-joined
record such as `ACCESS_NUMBER:id:phone`. This model covers what the client does
with those replies, and the loop it uses to wait for an SMS code.

- `Text` models `strings.Split` on one separator character, its inverse `Join`,
  and `strings.TrimPrefix`. Split is proved to be the exact inverse of Join over
  non-empty sequences of separator-free pieces.
- `Errors` models the sentinel errors of `errors.go` as one datatype.
  It adds three more cases:
  - `Unknown(raw)` for the `fmt.Errorf("unknown error: %s", …)` values;
  - `Transport(cause)` for an error of `c.Get` or `io.ReadAll`, passed through unchanged;
  - `ContextErr(reason)` for `ctx.Err()`.
- `Requests` models the query parameters of each call as plain data: a map
  from key to its single value.
- `Responses` holds the classifiers:
  - `ClassifyNumber` is GetNumber's split-and-switch. A two-segment body reads
    `parts[2]` out of range, which Go reports as a panic; here that is the
    outcome `IndexOutOfRange(2, 2)`.
  - `PollStatus` is Wait's per-poll split-and-switch.
  - `Acknowledge` is Done's and Cancel's whole-body comparison.
  - `BalanceText` is the text Balance hands to the float parser.
- `Polling` models `Wait`. The loop reads a finite trace of events. Each event
  is either a ticker tick carrying what the status request returned, or the
  context being done. The loop stops on the first terminal event. If the trace
  ends first, it returns `TraceExhausted`, so the model never claims that the
  loop terminates. `RunWait` is the specification function. The method `Wait`
  is proved equal to it, and it also returns the list of requests it sent.

Three behaviours of the code worth knowing:

- Cancellation is not given priority over a tick that arrives at the same time.
  Go's `select` picks either ready case, so the trace decides the order.
- A Balance body without the `ACCESS_BALANCE:` prefix is passed whole to the
  float parser; whatever that parser reports is the only error.
- A getNumber body with exactly two segments is not an error value. The code
  indexes out of range.

## Model

| member | source | states |
|---|---|---|
| `Text.Split` | client.go:62 | always at least one piece, and no piece contains the separator |
| `Text.JoinOfSplit` | client.go:62 | gluing the pieces back with the separator gives the original body (round trip) |
| `Text.SplitOfJoin` | client.go:62 | splitting a join of separator-free pieces gives exactly those pieces (the inverse round trip) |
| `Text.SplitWithoutSeparator` | client.go:62-63 | a body with no separator splits into the single piece that is the whole body |
| `Text.SplitAfterPiece` | client.go:62 | a separator-free prefix followed by a separator becomes the first piece, and the rest splits on its own |
| `Text.SplitIsSingleIff` | client.go:63 | one piece if and only if the body holds no separator |
| `Text.TrimPrefix` | client.go:39 | with the prefix present, prefix + result is the input; without it, the input is returned unchanged |
| `Text.TrimPrefixOfPrefixed` | client.go:39 | trimming a prefix put in front returns exactly the text after it |
| `Responses.BalanceText` | client.go:28-39 | transport failure returned unchanged; `ACCESS_BALANCE:` stripped when present, otherwise the whole body goes to the parser |
| `Responses.BalanceOfPrefixed` | client.go:39 | `ACCESS_BALANCE:` followed by x hands exactly x to the float parser |
| `Responses.NumberTokenBranchIff` | client.go:62-76 | GetNumber takes the error branch if and only if the body holds no colon, and then looks up the whole body in the token table |
| `Responses.NumberTokens` | client.go:64-72 | NO_NUMBERS, NO_BALANCE, MAX_PRICE_EXCEEDED and TOO_MANY_ACTIVE_RENTALS map to NoNumbers, NoMoney, MaxPriceExceeded and TooManyActiveRentals |
| `Responses.NumberUnknownToken` | client.go:73-74 | any other colon-free body, the empty one included, is an unknown error carrying that exact text |
| `Responses.NumberRecord` | client.go:62-78 | a record of three or more segments yields (segment 1, segment 2) with nil error; segment 0 and segments after 2 are ignored |
| `Responses.NumberTwoSegments` | client.go:78 | a body with exactly one colon reads parts[2] out of range with length 2; it is never a success |
| `Responses.NumberExample` | client.go:62-78 | `STATUS_OK:12345:+19998887777` yields id `12345` and phone `+19998887777` |
| `Responses.PollRecordBranchIff` | client.go:106-120 | a poll returns a code with nil error if and only if the body holds a colon |
| `Responses.PollKeepsWaitingIff` | client.go:107-110 | a poll keeps the loop going if and only if the body is exactly STATUS_WAIT_CODE |
| `Responses.PollTerminalTokens` | client.go:111-116 | NO_ACTIVATION gives WrongID, STATUS_CANCEL gives RentalCanceled, and any other token gives an unknown error with that token |
| `Responses.PollRecord` | client.go:106-120 | a record of two or more segments yields segment 1 as the code, whatever segment 0 is |
| `Responses.AcknowledgeCases` | client.go:143-150 | Done and Cancel: their own success token gives nil, NO_ACTIVATION gives WrongID, and anything else is an unknown error carrying the full body |
| `Responses.AcknowledgeRejectsRecords` | client.go:171-178 | a colon-joined record tagged with the success token is still an unknown error; Done and Cancel do not split |
| `Responses.IoFailuresPassThrough` | client.go:51-60 | a failure to send or to read the body comes back unwrapped from GetNumber, Done, Cancel and Balance |
| `Requests.NumberParams` | client.go:43-50 | getNumber sends api_key, action and service, plus maxPrice exactly when a price was given; only the first price is used |
| `Requests.ActionsAreDistinct` | client.go:24-27 | getBalance, getStatus and setStatus requests all carry the API key, and each names its own action, so no two of them can be confused |
| `Requests.DoneAndCancelDifferOnlyInStatus` | client.go:126-131 | Done and Cancel for one rental send the same setStatus request except for the status, which differs (6 vs 8) |
| `Polling.RunWait` | client.go:85-122 | never consumes more events than the trace holds; a run that does not return consumes the whole trace |
| `Polling.Wait` | client.go:81-123 | the loop's outcome, request count and events consumed are those of RunWait, and every request sent is getStatus for this key and id |
| `Polling.RunRequests` | client.go:86-95 | exactly one status request per tick consumed, none for a cancellation |
| `Polling.RunLastDecides` | client.go:86-120 | a returned result is what the last consumed event decided |
| `Polling.RunWaitedBefore` | client.go:107-110 | every event the loop went past was a STATUS_WAIT_CODE reply |
| `Polling.FirstDecisiveEvent` | client.go:85-122 | after k wait replies, the first non-waiting event decides the result, with k requests before it plus its own, and nothing after it is consumed |
| `Polling.CancelledMidWait` | client.go:87-88 | cancellation after k wait replies returns ctx.Err() with k requests sent and none in that iteration |
| `Polling.IoFailureMidWait` | client.go:95-104 | a request or body-read failure after k wait replies is returned unchanged |
| `Polling.NoRequestBeforeFirstTick` | client.go:82-95 | never more requests than ticks; a cancellation before any tick sends nothing |
| `Polling.LaterEventsIgnored` | client.go:107-120 | once the loop has returned, appending events changes nothing: no request after the terminal one |
| `Polling.ExhaustedThenMore` | client.go:107-110 | a trace that only kept the loop waiting sent one request per event, and the loop continues from where it stopped |
| `Polling.CodeAfterTwoWaits` | client.go:106-120 | two STATUS_WAIT_CODE replies then `STATUS_OK:4242` yield code `4242` after three requests |

## Left out

- Bodies are Go byte slices read with `io.ReadAll` and converted with `string(body)`; the model takes them as `seq<char>`. Splitting on the ASCII `:` and exact comparison give the same answer on bytes and on characters, so no behaviour is lost.
- HTTP transport: `c.Get`, `io.ReadAll` and closing the body are network I/O. A round trip is an input: the body text, or an opaque failure. Failures of `c.Get` and of `io.ReadAll` are folded into one case, since both are returned unchanged.
- The per-iteration `defer res.Body.Close()` in Wait (client.go:99) is resource handling. The model does not capture that bodies stay open until Wait returns.
- URL construction: `url.Values.Encode()` and the fixed endpoint URL are library calls. Parameters are modelled as a map from key to one value, not as `map[string][]string`.
- Balance: `strconv.ParseFloat` (client.go:39) is floating-point parsing. Only the prefix trimming before it is modelled.
- Requests.NumberParams: takes the price as text already formatted; the `%.2f` floating-point formatting (client.go:49) is not modelled.
- Time: the 3-second `time.Ticker` becomes tick events. Missed or coalesced ticks and real durations are not modelled.
- Go's `select` fairness: when a tick and cancellation are both ready, Go picks one pseudo-randomly. The trace fixes the order, and no priority is claimed.
- Polling.Wait: the real loop can run forever. The model reads a finite trace and reports `TraceExhausted` when the trace ends, without claiming termination.
- `New` and the `Client` struct only hold the API key and an HTTP client. The key is passed as a parameter.
- context.go (`WithContext`, `FromContext`) wraps `context.WithValue` and a type assertion, so there is no logic to model. errors.go has no behaviour of its own; its sentinels are the constructors of `Errors.Error`, and their message texts are not modelled.

# Verified model of service-framework

A Dafny model of the parts of the framework that carry concurrent, looping or
codec logic, with proofs about every input, every interleaving or every run.
`dafny verify dfyconfig.toml` checks the whole project.

| file | part of the framework |
|---|---|
| `Refresher.dfy` | the reconnectable Redis client driven by one goroutine: a class with the Go fields, and the sequential histories it allows |
| `ReconnectProtocol.dfy` | the same client under any number of goroutines, one step per shared access, deferred calls in last-in first-out order, spawned closers, factory panics |
| `Retry.dfy` | the retry budget built by `BackoffCfg.OnUpdate`, and several batches retrying on the one backoff object |
| `EthClients.dfy` | full and archive node: `ClientFor` and the dial fallback |
| `BatchCalls.dfy` | one run of `batchCalls`: the request array, the retry loop, the resolution loops |
| `Batching.dfy` | the batched client as a machine: submissions, two queues, any cutting into batches, attempts of all running batches interleaved on one backoff, resolutions |
| `Lifecycle.dfy` | hot replacement of Redis and Ethereum clients with delayed close, timers and dials taking time |
| `Scan.dfy` | the SCAN cursor loop and the HSCAN key/value split |
| `Hex.dfy`, `EthEncoding.dfy` | Base16 (RFC 4648, section 8), block and call arguments |
| `TraceId.dfy` | the x-request-id header as a trace id (section 3.2.2.3 of W3C Trace Context), sender, receiver and chains of processes |
| `Headers.dfy` | outgoing gRPC headers |
| `Wrappers.dfy` | what several modules share: the option type, times, client numbers |

Libraries that are not part of this repository appear only through what is
assumed of them. The batcher hands each queued call to exactly one non-empty
batch and promises no order. A batch RPC that returns nil has set every
element's error, and its result where the node gave one; a failed one may have
written any elements. `NextBackOff` after `Reset` grants a finite number of
waits, a different one each time. The otelgrpc handler starts a span that keeps a
non-zero trace id of the extracted context, and ids drawn by the SDK are not zero.
`metadata.FromOutgoingContext` returns lower-case keys. Clocks, factory results,
dial results, node answers and the map order chosen by the Go runtime are
parameters or nondeterministic choices. Plain Go fields are taken as sequentially
consistent. The two block tags -3 and -4 are go-ethereum's constants.

## What the proofs say about the code

Where a natural claim does not hold as it stands, the model gives the exact
condition under which it does.

- `MaxRetries` bounds a batch at `MaxRetries + 1` attempts exactly when it is set
  and no other batch starts on the same backoff meanwhile. Zero means no limit of
  retries. Both batchers of a client share one backoff
  (`pkg/client/eth_batchable.go:57-65`), and every foreign start allows
  `MaxRetries` attempts more (`Retry.MaxRetriesHoldsIffSetAndUnshared`,
  `Batching.AttemptsAreBoundedInRuns`).
- A batch that fails has not always made `MaxRetries + 1` attempts, even if no
  other has started since: one that started earlier draws on the same budget. It
  has made them exactly when no wait went to another
  (`Batching.FailsAfterFullBudgetIffAlone`, `Batching.OthersCanSpendTheBudget`).
- An answered batch resolves a message with what its successful attempt says
  exactly when that attempt gave a result or the failed ones before it left none
  in the reused element (`BatchCalls.AnswerAloneIffNoResidue`; a residue beside
  an error is `BatchCalls.ResidueCanShow`). This fails only under the assumption
  that a failed RPC may have written elements; where failed ones write nothing it
  always holds (`BatchCalls.CleanFailuresLeaveNothing`).
- The headers sent do not depend on map order exactly when configured names that
  coincide in lower case agree or are overridden by the caller
  (`Headers.OrderDoesNotMatterIffNoConflict`). A configured `X-Client-Id` beside
  the automatic `x-client-id` is such a conflict (`Headers.CanonicalClientIdConflicts`).
- `BatchableEthCfg` closes a replaced `EthClient` exactly twice
  (`Lifecycle.BatchableIsClosedTwice`), and after a failed dial it schedules
  closing a nil client, which panics a minute later
  (`Lifecycle.Runtime.BatchableOnUpdate`).
- The first close timer is set before the new endpoints are dialled, so the
  client still configured can be closed during an update exactly when the dial
  lasts a minute or more (`Lifecycle.CurrentIsSafeIffDialIsShort`).
- A header that is not hex is taken over character by character, except that a
  short one of odd length gains a `'0'` (`TraceId.OtherHeaderIsRaw`).
- A chain of processes carries the id of the first request's header exactly when
  that id is not zero (`TraceId.HeaderIdReachesAllIffNotZero`); a header of hex
  digits names the zero id exactly when it has no digit but `'0'`, the empty one
  included (`TraceId.ZeroIdIffNoOtherDigit`).

## Model

| member | source | states |
|---|---|---|
| ReconnectProtocol.SingleOwner | pkg/client/redis/reconnectable/reconnectable_client.go:41-44 | in every reachable state the flag is up iff a goroutine is inside the guarded section, and at most one is |
| ReconnectProtocol.SingleWriter | pkg/client/redis/reconnectable/reconnectable_client.go:41-54 | client, timestamp and the clients made change only by the flag's owner, past its cooldown check; a denied or losing attempt changes none of them |
| ReconnectProtocol.ClientsAreConserved | pkg/client/redis/reconnectable/reconnectable_client.go:29-34 | every client made is in exactly one of: under construction, current, superseded, closed; none is closed twice; every published one carries the hook |
| ReconnectProtocol.RefreshRateIsBounded | pkg/client/redis/reconnectable/reconnectable_client.go:36-54 | checks that pass are a cooldown apart, so any window of length T holds at most T / cooldown + 1 refreshes, in every interleaving |
| ReconnectProtocol.RefreshRateIsReached | pkg/client/redis/reconnectable/reconnectable_client.go:36-54 | that bound is met: for every n, and any text around the phrase, a run puts n + 1 refreshes into n cooldowns |
| ReconnectProtocol.FactoryCallsAreApart | pkg/client/redis/reconnectable/reconnectable_client.go:36-54 | any two calls of the factory in a run are at least a cooldown of clock time apart |
| ReconnectProtocol.ChecksAreExact | pkg/client/redis/reconnectable/reconnectable_client.go:36-38 | a cooldown check passes iff no refresh has completed or the latest completed one ended a cooldown ago |
| ReconnectProtocol.RunsRefineSequentialRefresher | pkg/client/redis/reconnectable/reconnectable_client.go:40-60 | the refreshes of any interleaved run are a spaced sequential history, and with the flag down client and timestamp are what that history leads to |
| ReconnectProtocol.StepsRefineSequentialRefresher | pkg/client/redis/reconnectable/reconnectable_client.go:40-60 | each step leaves the sequential view alone or performs one sequential refresh on it |
| ReconnectProtocol.OnlyRefusalsRefresh | pkg/client/redis/reconnectable/reconnectable_client.go:62-92 | with no refused command in a run, nothing but the clock changes |
| ReconnectProtocol.RefusalStartsAttempt | pkg/client/redis/reconnectable/reconnectable_client.go:62-92 | a command starts an attempt iff its error has "connection refused" in it, with any text before and after; otherwise it changes nothing |
| ReconnectProtocol.ThunderingHerd | pkg/client/redis/reconnectable/reconnectable_client.go:22-92 | any number of refused commands whose checks fall before the first refresh's cooldown ends cause exactly one refresh; without a panic it installs the one new client and the first is closed or about to be |
| ReconnectProtocol.FlagIsNeverStuck | pkg/client/redis/reconnectable/reconnectable_client.go:44-51 | from every reachable state with the flag up, its owner is able to lower it by at most ten accesses of its own |
| ReconnectProtocol.FlagComesDown | pkg/client/redis/reconnectable/reconnectable_client.go:44-51 | in every continuation in which the owner takes ten actions of its own, a factory panic among them or not and others interleaved, the flag has come down |
| ReconnectProtocol.PanicKeepsClient | pkg/client/redis/reconnectable/reconnectable_client.go:44-54 | after a panic of the factory the time is stamped and the flag lowered, the client stays, none is made or closed |
| ReconnectProtocol.SupersededCanBeClosed | pkg/client/redis/reconnectable/reconnectable_client.go:51-53 | every run can be continued until all clients but the current one are closed |
| ReconnectProtocol.SoloAttemptIsSequential | pkg/client/redis/reconnectable/reconnectable_client.go:40-60 | an uninterrupted attempt has the sequential effect on the whole shared state |
| Refresher.ReplayableIffSpaced | pkg/client/redis/reconnectable/reconnectable_client.go:36-54 | a history is allowed iff its intervals are disjoint and a cooldown apart, both directions |
| Refresher.WindowBound | pkg/client/redis/reconnectable/reconnectable_client.go:36-38 | times a cooldown apart fill a window at most length / cooldown + 1 times |
| Refresher.Client.AttemptRefreshClient | pkg/client/redis/reconnectable/reconnectable_client.go:40-60 | with the flag down and the cooldown over, fields, hooks, closing goroutine and panic are those of a refresh, and of a sequential one; otherwise nothing changes; the flag is as before |
| Refresher.ShouldRefreshIffRefused | pkg/client/redis/reconnectable/reconnectable_client.go:62-64 | an error is a refusal iff its text is some text, "connection refused", and some text |
| Refresher.Client.ProcessHook | pkg/client/redis/reconnectable/reconnectable_client.go:72-92 | the command's error is returned untouched; on a text with "connection refused" in it, with the flag down and the cooldown over, fields, hooks, closing goroutine and panic are those of a refresh; otherwise nothing changes |
| Refresher.Client.constructor | pkg/client/redis/reconnectable/reconnectable_client.go:22-27 | the first client is hooked and current, the timestamp zero |
| Retry.Budget | pkg/client/backoff.go:31-35 | never more waits than the exponential backoff grants, nor than MaxRetries where that is set, and always one of the two |
| Retry.BackOff.NextBackOff | pkg/client/backoff.go:31-35 | after each reset exactly Budget waits of that reset are granted, then it stops |
| Retry.AttemptsAreBounded | pkg/client/eth_batchable.go:107-109 | in any interleaving on a shared backoff a batch makes at most one attempt more than the budgets of its own and the foreign resets add up to, with MaxRetries set at most 1 + MaxRetries * (foreign resets + 1) |
| Retry.BoundIsReached | pkg/client/eth_batchable.go:57-65 | that bound is met for every MaxRetries, zero included, every patience and every number of foreign resets |
| Retry.MaxRetriesHoldsIffSetAndUnshared | pkg/client/backoff.go:33-35 | at most MaxRetries + 1 attempts in every interleaving iff MaxRetries is set and no other batch resets the backoff meanwhile |
| EthClients.Dial | pkg/client/eth.go:44-63 | no client iff both dials fail; each kind of call goes to its own endpoint if that was dialled, else to the other |
| BatchCalls.FinalAttempt | pkg/client/eth_batchable.go:107-114 | the loop ends with the first answered attempt, or with the last one the budget allows |
| BatchCalls.RequestsStayTheSame | pkg/client/eth_batchable.go:99-109 | every attempt sends the same call and block argument for each message |
| BatchCalls.BatchIsIndividualCalls | pkg/client/eth_batchable.go:94-118 | a message routed as it would be alone is resolved with its own call's error and result from the attempt that succeeded, with its exact residue where the node gave no result, or with the last failure |
| BatchCalls.AnswerAloneIffNoResidue | pkg/client/eth_batchable.go:99-118 | the outcome in an answered batch is the successful attempt's alone iff it gave a result or earlier failures left none |
| BatchCalls.ResidueIsLatestWritten | pkg/client/eth_batchable.go:107-109 | the residue of an element is the result the latest failed attempt that wrote it left there |
| BatchCalls.CleanFailuresLeaveNothing | pkg/client/eth_batchable.go:107-109 | failed round trips that do not write an element leave no residue there |
| BatchCalls.ResidueCanShow | pkg/client/eth_batchable.go:107-118 | two attempts after which a message is resolved with an error and a result of the failed attempt |
| BatchCalls.RoutedRightIffHomogeneous | pkg/client/eth_batchable.go:108 | routing by the first message is right for all iff the batch is homogeneous or both endpoints are one |
| BatchCalls.RetryBatch | pkg/client/eth_batchable.go:107-114 | the reused array and error after the loop are those of the final attempt, within Budget + 1 attempts |
| BatchCalls.BatchCalls | pkg/client/eth_batchable.go:94-118 | every message is resolved exactly once, with its outcome, for any length and failure pattern |
| Batching.QueuesAreHomogeneous | pkg/client/eth_batchable.go:74-78 | in every reachable state the archive queue holds only calls with a block, the main queue only calls without, and every running batch is homogeneous |
| Batching.CallsAreConserved | pkg/client/eth_batchable.go:67-80 | every submitted call is in exactly one of: a queue, a running batch, resolved; none is resolved twice |
| Batching.CountsAreConserved | pkg/client/eth_batchable.go:67-118 | calls submitted are the calls queued, running and resolved, in number |
| Batching.BatchingRefinesIndividualCalls | pkg/client/eth_batchable.go:67-118 | in every run each resolution comes from the settling of a batch cut with the call: it is what the call alone gets, from the endpoint its own block picks, in the batch's answered attempt, with the residue of its earlier attempts where there is no result; or else the last failure, with the whole budget of the latest reset granted before |
| Batching.FailureSpendsTheBudget | pkg/client/eth_batchable.go:107-114 | a batch whose last attempt failed is resolved only when the waits granted since the latest reset are its whole budget; if that reset was its own it has made one attempt and one for each wait granted to it |
| Batching.FailsAfterFullBudgetIffAlone | pkg/client/backoff.go:33-35 | such a batch, with no other started since, has made budget + 1 attempts iff no other batch was granted a wait in the meantime |
| Batching.OthersCanSpendTheBudget | pkg/client/eth_batchable.go:57-65 | a run in which it fails after one attempt, because a batch that started before it uses its one retry |
| Batching.CallsAreKept | pkg/client/eth_batchable.go:67-80 | the calls in the machine are exactly those submitted, in order, unaltered |
| Batching.BackoffIsShared | pkg/client/eth_batchable.go:57-65 | every run, seen from any one batch, is a run of one backoff object that all batches of both queues reset and draw on |
| Batching.AttemptsAreBoundedInRuns | pkg/client/eth_batchable.go:107-109 | in every run with MaxRetries set a batch makes at most 1 + MaxRetries * (batches started since its own start + 1) attempts |
| Batching.AnyPartCanBeCut | pkg/client/eth_batchable.go:57-65 | any part of a queue, up to the whole of it, can be the next batch, and nothing else leaves the queue |
| Batching.CallsCanBeResolved | pkg/client/eth_batchable.go:67-118 | every run can be continued, whatever the outcomes of the attempts, until each call submitted is resolved |
| EthEncoding.BlockNumArgRoundTrip | pkg/client/eth_batchable.go:140-157 | nil and every integer of any size and sign are read back from the block argument |
| EthEncoding.BlockNumArgIsInjective | pkg/client/eth_batchable.go:140-157 | two block numbers share an argument iff they are equal |
| EthEncoding.QuantityIffHeight | pkg/client/eth_batchable.go:156 | the argument is a Quantity of EIP-1474, with no leading zeros, iff the number is a block height |
| EthEncoding.BlockNumArgSpelled | pkg/client/eth_batchable.go:140-157 | nil, -1, -3 and -4 are latest, pending, finalized and safe; any other number is sign, 0x and its magnitude in base sixteen |
| EthEncoding.CallArgEntries | pkg/client/eth_batchable.go:120-138 | which of the six fields are sent, under which names and in which digits; there are no others |
| EthEncoding.CallArgRoundTrip | pkg/client/eth_batchable.go:120-138 | from, to, data, value, gas and gasPrice are read back from the call argument, omitted meaning default |
| EthEncoding.RequestsAreInjective | pkg/client/eth_batchable.go:99-106 | two requests are the same on the wire iff call and block are the same |
| Hex.BytesAreDigitPairs | pkg/common/common.go:37 | byte i is written as the digits of its quotient and remainder by sixteen, in this order |
| Hex.ValueIffDigit | pkg/common/common.go:37 | exactly the sixteen digits and their capitals are read, each as its value |
| Hex.BytesRoundTrip | pkg/common/common.go:37 | encoded bytes decode to themselves |
| Hex.DecodedReencodes | pkg/common/common.go:37 | whatever decodes re-encodes to itself in lower case |
| Hex.NatIsCanonical | pkg/client/eth_batchable.go:156 | quantities use lower-case digits and a leading zero only for zero |
| Hex.NatIsBase16 | pkg/client/eth_batchable.go:156 | the digit k places from the right is that of the k-th power of sixteen |
| Hex.LowerIsLowerCase | pkg/client/grpcclient/client.go:189 | capitals A to Z grow by 32, all else stays, no capital survives |
| Lifecycle.CurrentIsNotClosed | pkg/client/eth.go:29-42 | in every run the configured client is neither closed nor scheduled to be between updates; while being replaced it is not closed before the delay is over |
| Lifecycle.CurrentIsSafeIffDialIsShort | pkg/client/eth.go:29-42 | some run closes the still configured client while its replacement is being dialled iff the dial lasts the delay or longer |
| Lifecycle.ReplacedIsClosedAfterDelay | pkg/client/redis.go:27-39 | each timer of a replaced client closes it at most once and only after its own minute, the second timer's counted from the end of the dial |
| Lifecycle.ClosesWaitForDelay | pkg/client/redis.go:27-39 | by the clock of the run, a minute passes from the start of the update to any close of the client it replaces, and from the end of the dial to the second one |
| Lifecycle.ClosesAreFires | pkg/client/redis.go:30-34 | the clock is the time waited, and each timer that fires makes one Close call, of its client and at its time |
| Lifecycle.ReplacedCanBeClosed | pkg/client/redis.go:27-39 | every run can be continued until all clients but the configured one are closed |
| Lifecycle.ReplacedIsClosedOnce | pkg/client/redis.go:27-39 | with one timer, a replaced client whose timers are gone has been closed exactly once |
| Lifecycle.BatchableIsClosedTwice | pkg/client/eth_batchable.go:25-42 | a replaced EthClient of BatchableEthCfg whose timers are gone has been closed exactly twice |
| Lifecycle.LiveClients | pkg/client/redis.go:27-39 | with all due timers fired the open clients are the configured one and those whose replacement began within the last minute, and no others |
| Lifecycle.Runtime.RedisOnUpdate | pkg/client/redis.go:27-39 | the update is the two halves of a machine update at one clock value; routing is random unless disabled or already on |
| Lifecycle.Runtime.EthOnUpdate | pkg/client/eth.go:29-42 | the update is the first half, the time of the dial, and the second half of a machine update, with no client after a failed dial |
| Lifecycle.Runtime.BatchableOnUpdate | pkg/client/eth_batchable.go:25-42 | the same with a second timer set after the dial; it schedules a panic iff the previous dial had failed |
| Scan.PaginateScanCmd | pkg/client/redis/paginate.go:9-25 | the first call has cursor zero, each later one that of the reply before; all replies but the last have no error and another cursor; the keys of every reply without error are delivered, in order; the error is that of the last reply, none for redis.Nil |
| Scan.IsNilIffInnermostIs | pkg/client/redis/paginate.go:13 | an error counts as redis.Nil iff the innermost one is, however often wrapped |
| Scan.LuaHscanOnlyKeys | pkg/client/redis/hscan.go:9-16 | the 1st, 3rd, ... entry of the reply, in order |
| Scan.LuaHscanOnlyValues | pkg/client/redis/hscan.go:34-41 | the 2nd, 4th, ... entry of the reply, in order |
| Scan.SplitPagesRejoin | pkg/client/redis/hscan.go:9-41 | split pages hold equally many keys and values iff all pages are even, and then interleave back to the whole |
| Scan.SplittingCommutesWithPaging | pkg/client/redis/paginate.go:9-25 | keys scan and values scan of one chain return the same error, deliver equally many entries iff every reply is even, and then interleave back to everything sent |
| TraceId.HexDecode | pkg/common/common.go:37 | decoding stops at the first bad pair with the bytes before it written and the rest untouched |
| TraceId.ReadTraceId | pkg/common/common.go:30-39 | for every string the array ends as a function of the prepared string alone, without residue of a failed decode |
| TraceId.IdRoundTrip | pkg/common/common.go:30-39 | an id sent as hex is read back byte for byte |
| TraceId.HexHeaderIsRightPadded | pkg/common/common.go:32-37 | a header whose first 32 characters are hex is read as those digits, zeros added on the right, in either case |
| TraceId.OtherHeaderIsRaw | pkg/common/common.go:34-39 | any other header is its first sixteen characters, then zeros, with a '0' after it if it is short and of odd length |
| TraceId.Request.OnBeforeRequest | pkg/client/http.go:20-28 | a header the caller set, or one without a valid span, stays; else it becomes one lower-case string that decodes to the span's trace id |
| TraceId.ValidIffNotZero | pkg/common/common.go:22-28 | a span counts as valid iff both its ids have a non-zero byte |
| TraceId.TraceIdCrossesProcesses | pkg/server/serve.go:118-128 | a receiver without a valid span takes over the sender's trace id exactly, from the first of its request ids; one with a valid span keeps its context |
| TraceId.TraceIdReachesEveryHop | pkg/server/serve.go:107-128 | along any chain of processes every handler's span and every header on the way has the trace id the first process joined or started |
| TraceId.HeaderIdReachesAllIffNotZero | pkg/server/serve.go:118-128 | where the first process has no span of its own, all have the id of its header iff that id is not zero |
| TraceId.ZeroIdIffNoOtherDigit | pkg/common/common.go:30-39 | a header whose first 32 characters are hex names the zero id iff they are all '0' |
| Headers.OrderDoesNotMatterIffNoConflict | pkg/client/grpcclient/client.go:186-198 | every map order sends the same headers iff no two configured names conflict |
| Headers.HeadersSent | pkg/client/grpcclient/client.go:186-198 | in every order the caller's non-empty lists go out as they are; under any other name each value as often as it is configured for that name in any capitals; no empty list |
| Headers.DistinctHeaderGoesAlone | pkg/client/grpcclient/client.go:186-198 | a header no other configured name coincides with goes out with its one value |
| Headers.ClientIdIsSent | pkg/client/grpcclient/client.go:143-152 | x-client-id goes out in every order: the caller's list, or one holding the configured id |
| Headers.CanonicalClientIdConflicts | pkg/client/grpcclient/client.go:143-152 | X-Client-Id configured with another value makes the headers depend on map order, unless the caller sets the header |
| Headers.RequestHeadersInterceptor | pkg/client/grpcclient/client.go:186-198 | the nested map loops, in whatever order, send exactly that |
| Headers.ClientConfig.RequestHeaders | pkg/client/grpcclient/client.go:143-152 | the config map gains x-client-id with the configured or service id and keeps every other entry |

## Left out

- Sockets, listeners, TLS, dial options, signal handling and graceful stop: input and output over unseen libraries.
- Logging, metrics, the trace interceptor, server options and the gateway: tables and single branches.
- A caller invoking the promoted `Close` on the reconnectable wrapper: it bypasses the refresh logic.
- The Go memory model on plain fields, and wall-clock jumps: accesses are sequentially consistent and the clock is monotone.
- `DialHook` of the reconnectable client: it passes through.
- The batchers' queues as Go channels: they belong to the batching library, so the machine keeps them as sets; order and timing of flushes are unconstrained, and `Flush` and `Close` of the batchers are not modelled.
- The context of a batch, cancellation of a waiting call, and permanent backoff errors.
- The interval, jitter and multiplier fields of `BackoffCfg`: only how many waits are granted matters to the retry loop.
- Fields of `ethereum.CallMsg` that `toCallArg` does not send: a batched call drops them.
- `EthClient.Close` when one endpoint stands in for the other: the shared connection is closed twice.
- A dial failure followed by a close of the batchable client is recorded as a scheduled panic; what the process does then is not modelled.
- `GrpcCfg.OnUpdate`: it schedules closing the old client without a nil check, so the clean statement would need construction to have succeeded.
- The argument lists `HscanOnlyKeys` and `HscanOnlyValues` build for the server, and the server's evaluation of the script beyond its loop.
- `strings.ToLower` outside ASCII.
- `GetServiceClientId`, timeouts and the other gRPC options: single lookups.
- Child spans a handler starts before it sends a request: they keep the trace id, which is all the chain of processes looks at.
- Lifecycle.Runtime.EthOnUpdate: timers that fire while it dials are steps of the timed machine only, because a method runs alone.
- Scan.PaginateScanCmd: stated for chains that reach cursor zero or an error, because on any other chain the loop does not end.

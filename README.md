# Artax blocking client: a Dafny model

`Artax\Client` is a blocking facade over Artax's callback-driven asynchronous
HTTP client. `request` runs one exchange to completion on the reactor and
returns its response. `requestMulti` starts many exchanges, keeps running
until the last one has resolved, and reports each item through the caller's
success or error callback under the caller's array key. `cancel` and
`cancelAll` abandon pending items.

This project models the facade's bookkeeping in `client.dfy` (module
`Artax`). The class `Client` keeps these fields:

- `pending`: the `SplObjectStorage` of in-flight `requestMulti` requests. It maps request identity to caller key.
- `response`: the one-shot result slot of `request`.
- `running`: the reactor's state. `run` sets it and `stop` clears it.
- `scheduled`: the history of closures handed to the reactor's `once`.
- `log`: the calls of the caller's `requestMulti` callbacks.
- `onMultiResult`, `onMultiError`: the stored callbacks.
- `engineCalls`: the cancellations forwarded to the asynchronous client.

The asynchronous client's completions are external events. They are the
methods `OnResult`, `OnError`, `OnMultiResult` and `OnMultiError`, and each
one requires the reactor to be running. Request objects are values that
carry an identity (`ReqId`). Two requests with the same URI are therefore
distinct entries. A PHP array is a sequence of (key, value) pairs in
iteration order. PHP guarantees that the keys are unique, and only the lemmas
that need this assume it (`DistinctKeys`).

At these edges the code behaves as follows, and the model follows it:

- When the reactor stops before either callback of `request` fired, the code returns whatever the slot holds (`NULL`). `Client.Request` returns `Success(old(response))` in that case.
- `cancel` of a request that is not pending raises: `SplObjectStorage::offsetGet` throws for an object it does not hold, so `Client.Cancel` returns `Failure(UnknownRequest(id))` and changes nothing besides forwarding the cancel.
- Nothing in the code prevents a blocking call while the reactor is already running. The model requires the reactor to be stopped (`!running`) on entry to `Request` and `RequestMulti`.
- On the error path of `request`, the exception leaves `run` before the slot is read, so the slot is not cleared.
- `requestMulti` replaces the pending map and the stored callbacks before it rejects an empty array. After the error, the pending map is empty even if entries were pending before.
- When the same request object appears twice in the array, two exchanges are scheduled but only one entry is registered, under the later key (`DuplicateObjectKeepsLaterKey`). The first completion of that object removes the entry. The second raises `UnknownRequest`.

## Model

| member | source | states |
|---|---|---|
| Artax.Client.constructor | src/Artax/Client.php:12-25 | the pending map and result slot start empty, the reactor is not running, nothing is scheduled, logged or forwarded, and no callbacks are stored |
| Artax.Client.Request | src/Artax/Client.php:32-46 | schedules exactly one kickoff for the target and leaves the reactor stopped; on success it returns exactly the response its callback stored and the slot is empty afterwards; on failure it returns exactly the error raised and does not touch the slot; if no callback fired it returns the slot's previous content; it keeps the pending map, the log and the running-while-pending invariant |
| Artax.Client.OnResult | src/Artax/Client.php:48-51 | stops the reactor and stores exactly that response in the slot |
| Artax.Client.OnError | src/Artax/Client.php:53-56 | stops the reactor and raises exactly that error, without filling the slot |
| Artax.IdBound | src/Artax/Client.php:97-99 | yields an identity above that of every request object in the array, so that new requests are distinct from them |
| Artax.Client.NormalizeMultiRequests | src/Artax/Client.php:87-103 | fails with the empty-array error exactly when the array is empty; otherwise keeps exactly the input keys in order, passes every request object through unchanged, and turns every other value into a request for that URI whose identity no other entry shares |
| Artax.NormalizedIdsDistinct | src/Artax/Client.php:94-102 | if no request object appears twice in the input, all normalised requests have distinct identities |
| Artax.Client.RequestMulti | src/Artax/Client.php:64-85 | stores both callbacks and discards all earlier pending entries; on an empty array it fails with nothing scheduled, nothing registered and the reactor not started; otherwise the pending map is exactly the attach of each normalised request under its key, exactly one kickoff per normalised entry is appended, and the reactor runs |
| Artax.KickoffsOnePerEntry | src/Artax/Client.php:77-79 | the kickoffs of the fan-out loop are one per normalised entry, in order, each for that entry's request |
| Artax.RegisteredKeys | src/Artax/Client.php:81 | the identities registered by the fan-out are exactly those of the normalised requests |
| Artax.RegisteredLookup | src/Artax/Client.php:81 | a request is registered under the key of its last occurrence in the array, because a later attach overwrites an earlier one |
| Artax.RegisteredSize | src/Artax/Client.php:65-82 | with distinct identities the pending map has exactly one entry per normalised request |
| Artax.FanOutRegistersEachRequest | src/Artax/Client.php:65-102 | with unique keys and distinct request objects, every normalised request is pending under its own caller key, there are as many entries as array elements, no key is shared, and the pending keys are exactly the caller's array keys |
| Artax.DuplicateObjectKeepsLaterKey | src/Artax/Client.php:77-82 | the same request object twice in the array gives two kickoffs but a single pending entry, under the later key |
| Artax.Client.ClearPendingMultiRequest | src/Artax/Client.php:111-119 | returns the key registered for the request, removes exactly that entry and keeps all others, and stops the reactor if and only if the map is now empty; for a request that is not pending it raises and changes nothing |
| Artax.Client.OnMultiResult | src/Artax/Client.php:105-109 | clears the entry, then always delivers (key, response) to the stored success callback, also when this completion stopped the reactor; for a request that is not pending it raises before anything is delivered |
| Artax.Client.OnMultiError | src/Artax/Client.php:121-125 | clears the entry, then always delivers (key, error) to the stored error callback, also when this completion stopped the reactor; for a request that is not pending it raises before anything is delivered |
| Artax.Client.Complete | src/Artax/Client.php:70-75 | a completion of a pending request runs the success or the error path according to its outcome, removing that entry and logging one delivery |
| Artax.Client.RunUntilResolved | src/Artax/Client.php:84 | when each pending request completes once, the reactor is running before every completion and stopped after the last one only, the pending map ends empty, and the log gains the deliveries of those completions |
| Artax.RunStep | src/Artax/Client.php:111-119 | the first completion of a run resolves a pending entry; the remaining completions resolve exactly what remains, and none remain exactly when the map is empty |
| Artax.DeliveriesFollowEvents | src/Artax/Client.php:105-125 | when each completion is for a distinct pending request, the i-th delivery carries the i-th completion's key and its response or error |
| Artax.EachKeyDeliveredOnce | src/Artax/Client.php:105-125 | over N pending requests with distinct keys, each resolved once by success or failure, there are exactly N deliveries and the multiset of delivered keys is the set of pending keys, so every key appears exactly once |
| Artax.Client.Cancel | src/Artax/Client.php:127-130 | forwards the cancel, then removes the entry through the completion path: all other entries stay, the reactor stops only if it was the last entry, and no delivery is logged; for a request that is not pending it raises after forwarding |
| Artax.Client.CancelAll | src/Artax/Client.php:132-136 | forwards the cancel-all, leaves the pending map empty and the reactor stopped, however many entries remained |

## Left out

- The reactor (`ReactorFactory::select`, `run`, the timing of `once` callbacks) is external. It is only a running flag, a history of scheduled kickoffs, and completion events that arrive while it runs.
- The asynchronous client (`AsyncClient::request`, `cancel`, `cancelAll`) is external. Its completions are method calls and its cancellations are entries in `engineCalls`.
- The constructor's choice of collaborators (src/Artax/Client.php:17-25) is object wiring. Before the first `requestMulti` the PHP field `$pendingMultiRequests` is `NULL`. The model starts it as an empty map, so a `cancel` before then reports `UnknownRequest`, where PHP fails with a method call on `NULL`.
- `setResponse`, `setOption`, `setAllOptions`, `subscribe`, `unsubscribe`, `unsubscribeAll` and `notify` forward verbatim to a class that is not part of this model. Nothing can be stated about them.
- The `USER_AGENT` constant and src/Artax/ObservableClient.php declare constants only.
- The contents of requests and responses (URI parsing, headers, body) are opaque. A request is its identity and its URI.
- Exception unwinding is not modelled. The exceptions of `request` (src/Artax/Client.php:53-56) leave `run` after `stop`, and the model returns them as `Failure`. The `UnexpectedValueException` that `offsetGet` raises inside a completion for a request no longer pending (src/Artax/Client.php:106, 112, 122) is different: PHP does not call `stop`, and the exception propagates out of `run` and `requestMulti` while other entries are still pending. The model only returns `Failure` from `OnMultiResult` or `OnMultiError`, with the reactor still running and nothing changed. No member models the abort.
- Object allocation: a new request's identity is only guaranteed to differ from the requests in the same array. The rest of the heap is not modelled.
- Artax.Client.RequestMulti: returns where the PHP method enters `run`. The run phase it then blocks in is `RunUntilResolved` or a sequence of the event methods and `Cancel`.
- Artax.Client.RunUntilResolved: covers only runs in which every pending request completes exactly once. Runs interleaved with `cancel` or `cancelAll` are described step by step by those methods' contracts, not by one trace.

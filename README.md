# libkcapi asymmetric-cipher interface, modelled in Dafny

This project models the control flow of `lib/kcapi-asym.c` in libkcapi. That file drives an asymmetric-cipher ("akcipher") handle through the kernel's AF_ALG socket interface. It covers:

- the one-shot `kcapi_akcipher_{encrypt,decrypt,sign,verify}` wrappers;
- the streaming calls `stream_init_*`, `stream_update`, `stream_update_last` and `stream_op`;
- the batched AIO driver `_kcapi_akcipher_crypt_aio`;
- the four sequential `*_aio_fallback` loops;
- the four public `*_aio` dispatchers.

The transport primitives are treated as an oracle. Their bodies are elsewhere in libkcapi and in the kernel. These primitives are `_kcapi_common_send_meta`, `_kcapi_common_vmsplice_iov`, `_kcapi_common_send_data`, `_kcapi_common_recv_data`, `_kcapi_common_accept`, `_kcapi_aio_send_iov`, `_kcapi_aio_read_iov`, `_kcapi_aio_read_all` and `_kcapi_cipher_crypt`.

- **Replies:** the kernel's answers for one run are a `Script` of replies, consumed one per call. Each reply carries the int32 result and a count. For a zero-copy send, the count is the pages pinned, which moves `processed_sg`. For an AIO read, the count is the completions observed, which moves `aio.completed_reads` modulo 2^32.
- **Exhausted script:** once the script is used up, every call fails with `-EIO`. Every run is therefore finite. The statements hold for every script; a run the C code would keep going forever (for instance an endless string of successful reads that observe no completion) is cut off by that `-EIO` (see Left out).
- **Outcomes:** each library call yields an `Outcome`: its result, the handle afterwards, and the primitive calls it made, each with the reply it got.
- **Caller arrays:** the fallback's `iniov` and `outiov` are an `IovArray`: NULL or a caller's array. `Cursor(a, i)` is the pointer after i increments: NULL only for a NULL base at i = 0, otherwise the element at offset i.

The project has five modules.

- `Transport` holds the primitives, the handle fields (`HandleState`), uint32 wrap-around (`Wrap32`), totals over call sequences, and the error discipline (`AbortsOnFirstError`: nothing is called after a failing call, whose result is returned). It holds for the AIO driver once AIO is enabled and for the fallback with a caller's output array. The exceptions are results made without a failing call: the `-EOPNOTSUPP` of a disabled driver, stream_op's `-EINVAL`, and therefore the `-EINVAL` of a fallback with a NULL output array.
- `Stream` holds the streaming calls.
- `Aio` holds the AIO driver, both as written (`CryptAio`) and with its loop bounded by the number of requests (`CryptAioBounded`; see Findings).
- `Dispatch` holds the one-shot wrappers, the fallback (modelled once, with the operation as a parameter), and the dispatchers. `AioDispatch` is the public entry point as written, over `CryptAio`. `AioDispatchBounded` is the same entry point over the corrected driver.
- `Akcipher` holds the class `Handle`. It is the handle as the C code uses it: fields `processedSg`, `completedReads`, the calls answered so far, and the call trace, all updated in place.
  - The driver and fallback methods have the C code's `while` and `for` loops.
  - Each method is proved to leave the handle, the trace and the result exactly as the value-level definition says. The methods then inherit every property proved about those definitions.

## Model

| member | source | states |
|---|---|---|
| Stream.StreamInit | lib/kcapi-asym.c:90-120 | exactly one metadata call announcing the operation with the caller's vector and "more data follows"; its reply is returned unchanged; only the call counter moves, processed_sg and completed_reads are untouched |
| Stream.StreamUpdate | lib/kcapi-asym.c:122-131 | one call whose result is returned unchanged; it passes the caller's vector with "more data follows"; it is the zero-copy primitive if and only if processed_sg < alg_max_pages, else the buffered send |
| Stream.StreamUpdateLast | lib/kcapi-asym.c:133-141 | the same choice of primitive, passing the vector without "more data follows" |
| Stream.StreamOp | lib/kcapi-asym.c:143-153 | a NULL or empty output vector gives -EINVAL with no call and the handle unchanged; otherwise exactly one receive into that vector, whose result is returned unchanged |
| Stream.UpdateLastDiffersOnlyInMore | lib/kcapi-asym.c:122-141 | update and update_last make the same call with the same reply and the same new state, differing only in the "more" marker |
| Stream.ThresholdIsExclusive | lib/kcapi-asym.c:126-140 | with processed_sg equal to alg_max_pages both updates use the buffered send; one page fewer, both splice |
| Dispatch.Crypt | lib/kcapi-asym.c:54-88 | each one-shot wrapper makes exactly one cipher call carrying its operation code, lengths and access mode, and returns that call's result |
| Aio.SendAndRead | lib/kcapi-asym.c:177-186 | (definition) one loop iteration: submit iovec i, then, unless that failed, read iovec i; the lemmas SendAndReadShape and SendAndReadTotals state its contract |
| Aio.SendAndReadShape | lib/kcapi-asym.c:177-186 | an iteration submits iovec i as one request; the read of iovec i happens if and only if the submission did not fail; the result is that of the last call |
| Aio.SendAndReadTotals | lib/kcapi-asym.c:184-190 | the read moves completed_reads by the completions it observed (mod 2^32); a successful iteration yields the bytes read |
| Aio.Drain | lib/kcapi-asym.c:206-212 | (definition) after the loop: return a failed loop unchanged, else one drain for iovlen - completed_reads and add its bytes; the Drain* lemmas state its contract |
| Aio.DrainKeepsLoopCalls | lib/kcapi-asym.c:169-212 | the driver's calls are the accept, then the loop's calls unchanged, then at most one drain |
| Aio.DrainRequestsOutstanding | lib/kcapi-asym.c:206-207 | after a successful loop the last call is a drain for iovlen minus the completions counted before it (uint32) |
| Aio.DrainAborts | lib/kcapi-asym.c:206-209 | a failed loop or drain result is returned unchanged and nothing is called after it |
| Aio.DrainCounter | lib/kcapi-asym.c:206-207 | the drain's completions advance completed_reads from where the loop left it |
| Aio.DrainBytes | lib/kcapi-asym.c:208-212 | on success the drain's bytes are added to the loop's |
| Aio.DrainKeepsPairs | lib/kcapi-asym.c:176-212 | if the loop's calls submit and read iovecs in order from 0, the driver's p-th call after accept is pair (p-1)/2, and with at most 2·iovlen loop calls that pair is below iovlen |
| Aio.SubmitLoop | lib/kcapi-asym.c:176-192 | (definition) the `while (tosend)` loop as written, tosend recomputed as iovlen - completed_reads in uint32; the SubmitLoop* lemmas state its contract |
| Aio.CryptAio | lib/kcapi-asym.c:155-213 | (definition) `_kcapi_akcipher_crypt_aio` as written: -EOPNOTSUPP when disabled, accept, the loop, the drain; the CryptAio* lemmas state its contract |
| Aio.SubmitLoopStops | lib/kcapi-asym.c:181-186 | a failing iteration ends the loop as written with that iteration's own result |
| Aio.SubmitLoopResumes | lib/kcapi-asym.c:176-192 | a successful iteration continues the loop at iovec i+1, with tosend recomputed as iovlen - completed_reads and the read's bytes added |
| Aio.SubmitLoopShape | lib/kcapi-asym.c:176-189 | the loop as written submits and reads iovec i, i+1, ... in order, one request per iteration, both cursors advancing together |
| Aio.SubmitLoopAborts | lib/kcapi-asym.c:176-192 | no call after the first failing one; a negative result is that call's result |
| Aio.SubmitLoopTotals | lib/kcapi-asym.c:176-192 | completed_reads counts every completion observed (mod 2^32); on success the loop returns the sum of the read results and stops with completed_reads == iovlen |
| Aio.SubmitLoopKeepsPace | lib/kcapi-asym.c:176-192 | if the read of each remaining iteration observes exactly the request just sent (other answers unconstrained), the loop makes at most two calls per remaining iovec, and exactly two on success |
| Aio.DriversStartWithAccept | lib/kcapi-asym.c:164-173 | with aio.disable set, -EOPNOTSUPP, no call and the handle unchanged; otherwise accept comes first, and a nonzero accept result is returned unchanged with completed_reads untouched |
| Aio.CryptAioAborts | lib/kcapi-asym.c:169-212 | any negative result of accept, send, read or drain is returned verbatim and no primitive is called after it |
| Aio.CryptAioTotals | lib/kcapi-asym.c:173-212 | after a successful accept, completed_reads restarts at 0 and counts every completion; success returns the sum of the read and drain results (never the sends'); every drain the driver as written makes, whether it then succeeds or fails, asks for 0 requests, and on success it is the last call |
| Aio.CryptAioInOrder | lib/kcapi-asym.c:176-189 | the p-th submission or read after accept is iovec (p-1)/2, so iovecs go out in index order |
| Aio.CryptAioKeepsPace | lib/kcapi-asym.c:176-212 | after accept returns 0, if each of the loop's per-iteration reads observes exactly its own request (accept, sends and drain unconstrained), the driver makes at most 2·iovlen+2 calls, and exactly that many on success |
| Aio.CryptAioInBoundsWhenPaced | lib/kcapi-asym.c:176-191 | under that same condition on the loop's reads only, every iovec submitted or read is below iovlen |
| Aio.ReadLagWalksPastEnd | lib/kcapi-asym.c:176-191 | for a one-element batch whose read returns before its request completes, the loop as written submits iovec 1, past the end of the caller's array |
| Aio.CounterOvershootWraps | lib/kcapi-asym.c:176-191 | a read reporting two completions for a one-element batch makes iovlen - completed_reads wrap to 2^32-1, and the loop as written submits iovec 1 |
| Aio.ReadOvershootStopsEarly | lib/kcapi-asym.c:176-212 | for a two-element batch whose first read reports two completions, the loop as written stops after submitting iovec 0 only, the drain asks for 0 requests, and the driver reports success (16 bytes) |
| Aio.SubmitLoopBounded | lib/kcapi-asym.c:176-192 | (definition) the corrected loop: one iteration per iovec 0 .. iovlen-1, stopping at the first failure |
| Aio.CryptAioBounded | lib/kcapi-asym.c:155-213 | (definition) the corrected driver: the driver as written with the bounded loop |
| Aio.SubmitLoopBoundedDone | lib/kcapi-asym.c:176-192 | past the last iovec the bounded loop makes no call and returns its running sum |
| Aio.SubmitLoopBoundedStops | lib/kcapi-asym.c:181-186 | a failing iteration ends the bounded loop with its own result |
| Aio.SubmitLoopBoundedResumes | lib/kcapi-asym.c:176-192 | a successful iteration continues the bounded loop at iovec i+1 with the read's bytes added |
| Aio.SubmitLoopBoundedShape | lib/kcapi-asym.c:176-189 | the bounded loop submits iovecs i .. iovlen-1 in order, at most two calls each, exactly two each on success |
| Aio.SubmitLoopBoundedAborts | lib/kcapi-asym.c:176-192 | no call after the first failing one; a negative result is that call's result |
| Aio.SubmitLoopBoundedTotals | lib/kcapi-asym.c:176-192 | completed_reads counts every completion observed; success returns the sum of the read results |
| Aio.CryptAioBoundedAborts | lib/kcapi-asym.c:169-212 | the first negative result is returned verbatim and nothing is called after it |
| Aio.CryptAioBoundedInBounds | lib/kcapi-asym.c:176-212 | whatever the kernel answers, iovecs go out in index order and every one is below iovlen; after accept returns 0, success makes exactly 2·iovlen+2 calls |
| Aio.CryptAioBoundedTotals | lib/kcapi-asym.c:173-212 | completed_reads restarts at 0 and counts every completion; success returns the sum of the read and drain results, never the sends' |
| Aio.CryptAioBoundedDrainsOutstanding | lib/kcapi-asym.c:206-207 | on success the drain asks for exactly iovlen minus the completions observed before it |
| Aio.PaceAdvances | lib/kcapi-asym.c:176-192 | the assumption on the reads of a loop starting at call p gives one completion for the first read and carries over to the loop from call p+2 |
| Aio.LoopsAgreeWhenReadsKeepPace | lib/kcapi-asym.c:176-192 | if the read of each remaining iteration observes exactly its own request (other answers unconstrained), the loop as written and the bounded loop are equal |
| Aio.BoundedAgreesWhenReadsKeepPace | lib/kcapi-asym.c:155-213 | if, after a successful accept, each of the loop's reads observes exactly its own request (accept, sends and drain unconstrained), the driver as written and the bounded driver give the same result, state and calls |
| Aio.PacedRunCountsOnce | lib/kcapi-asym.c:155-213 | the ordinary one-element run (accept, send and drain report no completion, the read reports one) meets that condition; both drivers submit iovec 0 once, drain 0 requests, end with completed_reads 1 and return 16 |
| Dispatch.FallbackStep | lib/kcapi-asym.c:229-239 | (definition) one for-loop iteration on the cursors `iniov`, `outiov`; the lemmas below state its contract |
| Dispatch.FallbackStepIsUpdateLastThenOp | lib/kcapi-asym.c:229-237 | one fallback iteration is exactly stream_update_last on the input cursor, then, if that succeeded, stream_op on the output cursor, with stream_op's own result (including its -EINVAL) |
| Dispatch.FallbackStepRefusesOnlyNullOutput | lib/kcapi-asym.c:147-151 | an iteration ends with -EINVAL after only a successful update_last if and only if the caller's output array is NULL, the iteration is the first, and update_last succeeded |
| Dispatch.FallbackStepShape | lib/kcapi-asym.c:229-237 | an iteration ends the input with the input cursor of pair i and receives into the output cursor if and only if that succeeded and the output cursor is not NULL; its result is the receive's, the send's failure, or -EINVAL; success means two calls |
| Dispatch.FallbackStepSum | lib/kcapi-asym.c:235-239 | a successful iteration yields the bytes its receive reports, never those of update_last |
| Dispatch.FallbackLoop | lib/kcapi-asym.c:229-243 | (definition) the for loop over pairs i .. iovlen-1 with both cursors advancing; the FallbackLoop* lemmas state its contract |
| Dispatch.FallbackLoopDone | lib/kcapi-asym.c:229-243 | past the last pair the loop makes no call and returns its running sum |
| Dispatch.FallbackLoopStops | lib/kcapi-asym.c:232-237 | a failing iteration ends the fallback loop with its own result |
| Dispatch.FallbackLoopResumes | lib/kcapi-asym.c:229-243 | a successful iteration continues the loop at pair i+1 with its bytes added |
| Dispatch.StepThenFallback | lib/kcapi-asym.c:229-243 | one iteration's calls followed by calls in order from pair i+1 are in order from pair i |
| Dispatch.FallbackLoopInOrder | lib/kcapi-asym.c:229-243 | the loop ends the input and receives pair by pair in index order |
| Dispatch.FallbackLoopAborts | lib/kcapi-asym.c:229-243 | with a caller's output array, or from the second pair on, no call after the first failing one; a negative result is that call's result |
| Dispatch.FallbackLoopSum | lib/kcapi-asym.c:229-243 | at most two calls per pair; success adds exactly the receive results and makes two calls per pair |
| Dispatch.AioFallback | lib/kcapi-asym.c:218-246 | (definition) the four `*_aio_fallback` functions: stream_init with a NULL, empty vector, then the for loop; the AioFallback* lemmas state its contract |
| Dispatch.AioFallbackInOrder | lib/kcapi-asym.c:218-246 | the fallback first announces the operation with a NULL, empty metadata call, then handles pairs 0 .. iovlen-1 in order |
| Dispatch.AioFallbackAborts | lib/kcapi-asym.c:218-246 | with a caller's output array, the first negative result of init, update_last or op is returned verbatim and nothing follows it; with a NULL output array the same, or -EINVAL from stream_op after init and the first update_last succeeded |
| Dispatch.NullOutputNeverSucceeds | lib/kcapi-asym.c:224-237 | with a NULL output array and at least one pair the fallback fails after at most two calls, with -EINVAL when both succeeded |
| Dispatch.AioFallbackSum | lib/kcapi-asym.c:218-246 | success returns the init result plus the receive results only, after 1 + 2·iovlen calls |
| Dispatch.FallbacksDifferOnlyInInit | lib/kcapi-asym.c:218-392 | the four fallbacks have the same result, state and calls, except for the operation their first call announces |
| Dispatch.FallBackAfter | lib/kcapi-asym.c:255-261 | (definition) given the driver's outcome: return it unless its result is -EOPNOTSUPP, else run the fallback on the handle the driver left |
| Dispatch.AioDispatch | lib/kcapi-asym.c:248-262 | (definition) `kcapi_akcipher_{encrypt,decrypt,sign,verify}_aio` as written: the driver as written, Aio.CryptAio, then the fallback on exactly -EOPNOTSUPP |
| Dispatch.AioDispatchBounded | lib/kcapi-asym.c:248-262 | (definition) the same entry points over the corrected driver Aio.CryptAioBounded |
| Dispatch.FallsBackExactlyOnNotSupported | lib/kcapi-asym.c:255-261 | for any driver outcome, the dispatcher starts with the driver's calls, goes on to the fallback's metadata call if and only if the result is exactly -EOPNOTSUPP, and otherwise returns the driver's result and state unchanged |
| Dispatch.DispatchFallsBackExactlyOnNotSupported | lib/kcapi-asym.c:248-262 | the entry points as written start with the calls of Aio.CryptAio and fall back if and only if it returned exactly -EOPNOTSUPP; any other result and state is returned unchanged |
| Dispatch.BoundedDispatchFallsBackExactlyOnNotSupported | lib/kcapi-asym.c:248-262 | the same for the entry points over the corrected driver |
| Dispatch.DisabledRunsFallbackOnly | lib/kcapi-asym.c:164-167 | with aio.disable set both dispatchers are exactly the fallback on the untouched handle |
| Dispatch.DispatchersAgreeWhenReadsKeepPace | lib/kcapi-asym.c:248-262 | if, after a successful accept, each of the driver's per-iteration reads observes exactly its own request (no other answer, including the fallback's, is constrained), the entry points as written and over the corrected driver are equal |
| Dispatch.PartialSubmissionFallsBack | lib/kcapi-asym.c:176-261 | in the entry point as written, a read failing with -EOPNOTSUPP after iovec 0 was submitted also triggers the fallback, which sends and receives pair 0 again and returns 16 |
| Akcipher.Handle.Crypt | lib/kcapi-asym.c:54-88 | the method's result, new handle fields and trace are those of Dispatch.Crypt |
| Akcipher.Handle.StreamInit | lib/kcapi-asym.c:90-120 | one metadata call for the operation with "more data follows"; result, handle and trace as Stream.StreamInit |
| Akcipher.Handle.StreamUpdate | lib/kcapi-asym.c:122-131 | result, handle and trace as Stream.StreamUpdate |
| Akcipher.Handle.StreamUpdateLast | lib/kcapi-asym.c:133-141 | result, handle and trace as Stream.StreamUpdateLast |
| Akcipher.Handle.StreamOp | lib/kcapi-asym.c:143-153 | result, handle and trace as Stream.StreamOp, including the -EINVAL path |
| Akcipher.Handle.AcceptRequest | lib/kcapi-asym.c:169-171 | one accept call, whose reply is returned; the counters are untouched |
| Akcipher.Handle.SendAndRead | lib/kcapi-asym.c:177-186 | completed_reads, result and trace as Aio.SendAndRead; processed_sg unchanged |
| Akcipher.Handle.LoopIteration | lib/kcapi-asym.c:176-192 | one pass of the while loop keeps the loop's remaining run equal to Aio.SubmitLoop, with tosend recomputed as iovlen - completed_reads |
| Akcipher.Handle.SubmitLoop | lib/kcapi-asym.c:176-192 | the while loop ends with result, completed_reads and trace as Aio.SubmitLoop started at tosend = iovlen - completed_reads; processed_sg unchanged |
| Akcipher.Handle.DrainOutstanding | lib/kcapi-asym.c:206-212 | the drain after a successful loop leaves the handle and trace as Aio.Drain |
| Akcipher.Handle.CryptAio | lib/kcapi-asym.c:155-213 | result, handle and trace as Aio.CryptAio |
| Akcipher.Handle.BoundedIteration | lib/kcapi-asym.c:176-192 | one pass of the bounded loop keeps the remaining run equal to Aio.SubmitLoopBounded |
| Akcipher.Handle.SubmitLoopBounded | lib/kcapi-asym.c:176-192 | the loop over the iovlen requests ends as Aio.SubmitLoopBounded |
| Akcipher.Handle.CryptAioBounded | lib/kcapi-asym.c:155-213 | result, handle and trace as Aio.CryptAioBounded |
| Akcipher.Handle.FallbackStep | lib/kcapi-asym.c:229-239 | stream_update_last on the input cursor, then stream_op on the output cursor; result, handle and trace as Dispatch.FallbackStep |
| Akcipher.Handle.FallbackIteration | lib/kcapi-asym.c:229-243 | one pass of the for loop keeps the remaining run equal to Dispatch.FallbackLoop |
| Akcipher.Handle.FallbackLoop | lib/kcapi-asym.c:229-243 | the for loop ends with result, handle and trace as Dispatch.FallbackLoop |
| Akcipher.Handle.AioFallback | lib/kcapi-asym.c:218-246 | result, handle and trace as Dispatch.AioFallback |
| Akcipher.Handle.AioOp | lib/kcapi-asym.c:248-262 | result, handle and trace as Dispatch.AioDispatch: the driver as written (Akcipher.Handle.CryptAio), then the fallback if and only if it returned -EOPNOTSUPP |
| Akcipher.Handle.AioOpBounded | lib/kcapi-asym.c:248-262 | result, handle and trace as Dispatch.AioDispatchBounded: the corrected driver, then the fallback on -EOPNOTSUPP |

## Left out

- `kcapi_akcipher_init`, `destroy`, `setkey` and `setpubkey` (lib/kcapi-asym.c:24-52) are left out. They only set up and tear down the handle and socket and contain no decisions. `Akcipher.Handle.constructor` stands in for a fresh handle.
- The bodies of the transport primitives are left out; they are not part of this file. Each primitive is one call to the oracle described above. Only its result and its effect on `processed_sg` and `aio.completed_reads` are modelled. Other effects inside the primitives, such as the AIO context or `opfd`, are not.
- Buffer contents and the cryptographic transformation are left out; the kernel's akcipher provider performs it. An iovec is an index into the caller's array with a length.
- Kernel-side concurrency, out-of-order AIO completion, and blocking versus non-blocking `access` are left out. `access` is only passed through.
- Logging through `kcapi_dolog` (lib/kcapi-asym.c:148, 165) is left out because it has no effect on results.
- Aio.CryptAio: does not model the `int32_t` wrap-around of `ret += rc` at lib/kcapi-asym.c:190 and 210. Results are summed as unbounded integers, because the source gives no defined overflow behaviour for signed addition.
- Aio.CryptAioBounded: the same unbounded summation as Aio.CryptAio.
- Dispatch.AioFallback: does not model the `int32_t` wrap-around of `ret += rc` at lib/kcapi-asym.c:239, for the same reason.
- `processed_sg` is only read by this file, so the model states no property about how it grows.
- The effect of a primitive on the two counters is an assumption of the oracle: only a zero-copy send moves `processed_sg`, and only upward, by the pages it reports; only the AIO reads move `aio.completed_reads`. The bodies of those primitives are not part of this model.
- A run the C code would not end, such as an endless string of successful AIO reads that observe no completion, is cut off because the kernel script is finite and answers `-EIO` once used up. The statements about such a run describe that cut-off run.
- The AIO driver's iovec arguments are indices: the driver passes `iniov + i` and `outiov + i` through without inspecting them, so a NULL base is not distinguished there. A NULL base is distinguished only in the fallback, where stream_op checks it.
- A cursor `NULL + i` with i > 0 is named by its offset i, like an element of a caller's array.
- `Akcipher.Handle.Primitive` and `Akcipher.Handle.constructor` have no rows of their own. Primitive is the oracle call and the constructor the initial handle; both contracts are stated in `handle.dfy`.

## Findings

| source | as written | input that shows it | evidently intended | confidence | as-written member | corrected member |
|---|---|---|---|---|---|---|
| lib/kcapi-asym.c:176-192 | The loop runs while `iovlen - completed_reads` is nonzero. It advances `iniov`/`outiov` once per iteration whatever the read reported. A read that returns before its request completes (no completion observed) or reports more completions than iovlen (the unsigned subtraction wraps) keeps the loop going past the last iovec. A read that reports completions for requests not yet submitted ends the loop early, and success is reported for a partial batch. The drain at 206 then always asks for 0 requests. | iovlen 1, accept 0, send 0, read 16 bytes with 0 completions: the next iteration submits iovec 1 (Aio.ReadLagWalksPastEnd); a read with 2 completions wraps tosend to 2^32-1 (Aio.CounterOvershootWraps); iovlen 2, accept 0, send 0, read 16 bytes with 2 completions, drain 0: returns 16 with only iovec 0 submitted (Aio.ReadOvershootStopsEarly) | one submission and one read per iovec, then the drain collects the iovlen - completed_reads requests still outstanding | not executed | Aio.ReadLagWalksPastEnd | Aio.CryptAioBoundedInBounds |

The public entry points as written, `Dispatch.AioDispatch` and `Akcipher.Handle.AioOp`, run the driver as written, `Aio.CryptAio`, so they inherit this behaviour. The corrected driver is used by `Dispatch.AioDispatchBounded` and `Akcipher.Handle.AioOpBounded`. `Dispatch.DispatchersAgreeWhenReadsKeepPace` shows that the two agree whenever each of the driver's per-iteration reads observes exactly its own request.

The entry points as written fall back on `-EOPNOTSUPP` from any step of the driver, including a read after part of the batch has been submitted (lib/kcapi-asym.c:255-261). The fallback then sends those pairs again (`Dispatch.PartialSubmissionFallsBack`). The model keeps this behaviour and reports it without a correction: whether the kernel can answer a read with `-EOPNOTSUPP` after accepting a submission is outside this file, and nothing in it says which behaviour is intended.

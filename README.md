# POSIX platform layer of the MatrixSSL core, in Dafny

This project models `core/POSIX/osdep.c`, the layer that gives the TLS engine
its clock arithmetic, mutex creation, entropy, trace output and file loading on
POSIX systems. The operating system is not modelled: clock samples, the return
codes of the pthread calls, what `read(2)` and `open(2)` return, the
environment, whether `fopen` succeeds, what `fstat` reports and whether the
allocator succeeds are all inputs.

- `coreapi.dfy` (module `CoreApi`): the status codes, the byte type and an
  `Option` type. The status values come from the core API header, which is
  not part of this model; the proofs use only their signs and that they differ.
- `time.dfy` (module `OsdepTime`, pure): `psDiffMsecs`, `psDiffUsecs` and
  `psCompareTime` for the microsecond (`gettimeofday`) build and the
  nanosecond (Linux `CLOCK_MONOTONIC`) build. C's truncating division and
  the `(int32)` conversions are written out.
- `mutex.dfy` (module `OsdepMutex`, pure): the flag check of
  `psCreateMutex` and the order of the pthread calls it issues.
- `entropy.dfy` (module `OsdepEntropy`, imperative): `osdepEntropyOpen`,
  `osdepEntropyClose` and `psGetEntropy`. The global descriptors, `errno` and
  the log of closed descriptors are fields of `EntropySource`. The
  `psGetEntropy` loops are `while` loops over an `array<byte>`, proved equal to
  the functional specification `Run`, which takes one iteration (`Step`) at a
  time. A device is a script: the result of its k-th read, and the descriptor
  a reopen gives.
- `trace.dfy` (module `OsdepTrace`, imperative): `_psGetTraceFile`, which
  resolves the trace sink on first use and caches it in the static
  `tracefile`, and the `_psTrace*` writers. The decision itself is the pure
  function `Resolve`.
- `fileload.dfy` (module `OsdepFile`, imperative): `psGetFileBufFp` and
  `psGetFileBuf` over a `Stream` class that has `fread` and `fclose`. The
  stream holds the bytes it can still deliver and what `fstat` reports.

## Model

| member | source | states |
|---|---|---|
| OsdepTime.Int32 | core/POSIX/osdep.c:112 | the `(int32)` conversion lands in the int32 range, leaves in-range values alone and changes a value by a multiple of 2^32 |
| OsdepTime.CDiv | core/POSIX/osdep.c:113 | C division truncates toward zero: it is floor division on non-negative operands, and on negative ones the quotient q is rounded up, (q - 1) * d < a <= q * d |
| OsdepTime.Borrow | core/POSIX/osdep.c:107-111 | the borrow keeps the instant, and it takes a second exactly when now's sub-second part is below then's; afterwards the sub-second difference lies in [0, one second) |
| OsdepTime.DiffMsecs | core/POSIX/osdep.c:105-114 | psDiffMsecs always returns a value in the int32 range, whatever the samples |
| OsdepTime.DiffUsecsAsWritten | core/POSIX/osdep.c:214-223 | the psDiffUsecs as written never exceeds the int32 range by a second or more on well-formed samples, so it cannot report intervals much past 2147 s |
| OsdepTime.DiffUsecs | core/POSIX/osdep.c:214-223 | with the seconds term kept at int64 width, psDiffUsecs is non-negative exactly when then is not later than now, and lies within one second above the whole-second difference |
| OsdepTime.DiffMsecsIsFloor | core/POSIX/osdep.c:105-114 | for well-formed samples less than 2,000,000 s apart, psDiffMsecs (both builds) is the floor of the exact difference in milliseconds |
| OsdepTime.DiffMsecsBorrowExample | core/POSIX/osdep.c:105-114 | then = (s, 900000 us), now = (s + 1, 100000 us) gives 200 ms |
| OsdepTime.DiffUsecsIsFloor | core/POSIX/osdep.c:214-223 | psDiffUsecs, with the seconds term kept at int64 width, is the floor of the exact difference in microseconds |
| OsdepTime.DiffUsecsAsWrittenAgreesNearby | core/POSIX/osdep.c:214-223 | within 2000 s, the psDiffUsecs as written equals the full-width one |
| OsdepTime.DiffUsecsAsWrittenWraps | core/POSIX/osdep.c:221-222 | two samples 2148 s apart make the psDiffUsecs as written return -2,146,967,296 instead of 2,148,000,000 |
| OsdepTime.CompareTime | core/POSIX/osdep.c:225-237 | psCompareTime returns only 1 or 0 |
| OsdepTime.CompareMatchesTotal | core/POSIX/osdep.c:116-130 | on well-formed samples, psCompareTime returns 1 exactly when a is not later than b |
| OsdepTime.CompareIsTotalOrder | core/POSIX/osdep.c:225-237 | psCompareTime is reflexive, antisymmetric, transitive and total |
| OsdepTime.CompareImpliesNonNegativeDiff | core/POSIX/osdep.c:105-130 | for well-formed samples at most 2,000,000 s apart, psCompareTime(then, now) == 1 implies psDiffMsecs(then, now) >= 0 |
| OsdepTime.DiffMsecsWrapsAfterDays | core/POSIX/osdep.c:112-113 | samples 2,148,000 s apart are ordered by psCompareTime, yet psDiffMsecs returns -2,146,967,296: the int32 millisecond count wraps after about 24.9 days |
| OsdepMutex.CreateMutexWith | core/POSIX/osdep.c:260-294 | unsupported flags fail before any pthread call; the attribute object is destroyed, last and once, exactly when its initialisation passed; setpshared is called exactly when PS_SHARED is asked for; success exactly when every tested call passed |
| OsdepMutex.CreateMutexAsWritten | core/POSIX/osdep.c:260-294 | as written, psCreateMutex succeeds exactly when the flags are supported, both attribute calls return a non-negative value and pthread_mutex_init returns 0; a shared mutex is process-shared only if setpshared returned 0 |
| OsdepMutex.CreateMutex | core/POSIX/osdep.c:260-294 | with every pthread result tested against 0, success holds exactly when the flags are supported and every call returned 0, and a successful mutex is process-shared exactly when PS_SHARED was asked for |
| OsdepMutex.CreateMutexAsWrittenMissesPositiveErrors | core/POSIX/osdep.c:274-280 | setpshared returning ENOTSUP (95) gives PS_SUCCESS as written, with a mutex that is not process-shared; the corrected version fails |
| OsdepEntropy.EntropySource.constructor | core/POSIX/osdep.c:329-330 | both static descriptors start at -1 and nothing has been closed |
| OsdepEntropy.EntropySource.Open | core/POSIX/osdep.c:334-352 | a failed /dev/urandom open fails the call; a failed /dev/random open makes randfd alias urandfd |
| OsdepEntropy.CloseOrder | core/POSIX/osdep.c:354-361 | each of the two descriptors is closed exactly once, and the shared one is closed once when they alias |
| OsdepEntropy.EntropySource.Close | core/POSIX/osdep.c:354-361 | osdepEntropyClose closes the descriptors in CloseOrder |
| OsdepEntropy.Step | core/POSIX/osdep.c:379-412 | one iteration keeps readBytes + size equal to the request and the loop invariant, and a continuing iteration shrinks the termination measure |
| OsdepEntropy.StepFacts | core/POSIX/osdep.c:377-451 | one iteration issues exactly one read, appends to the counted bytes, writes nothing past the request and closes at most one descriptor per loop; the /dev/random loop fails only past the interrupt budget, and the /dev/urandom loop never breaks |
| OsdepEntropy.Run | core/POSIX/osdep.c:377-413 | a loop ends, keeping readBytes + size equal to the request |
| OsdepEntropy.RunFrame | core/POSIX/osdep.c:377-413 | a loop only appends to the counted bytes and never writes past the request |
| OsdepEntropy.RunCounts | core/POSIX/osdep.c:377-413 | a loop issues at most size + MAX_RAND_READS + 3 reads, none when size is 0 and at least one otherwise, and closes at most one descriptor |
| OsdepEntropy.SanityCountsReads | core/POSIX/osdep.c:388-389 | every interrupt a loop absorbs costs one read |
| OsdepEntropy.PreferredFailsOnlyOnInterrupts | core/POSIX/osdep.c:377-413 | the /dev/random loop fails only after MAX_RAND_READS + 1 interrupted reads, with errno EINTR |
| OsdepEntropy.GuaranteedFillsOrFails | core/POSIX/osdep.c:416-451 | the /dev/urandom loop either fills the whole request or fails, and when it fills it every read delivered or failed with EINTR or EBADF |
| OsdepEntropy.NoInterruptsNoPreferredFailure | core/POSIX/osdep.c:377-413 | a /dev/random loop that sees no EINTR never fails |
| OsdepEntropy.ReliableGuaranteedFills | core/POSIX/osdep.c:416-451 | a /dev/urandom loop whose reads all deliver fills the request |
| OsdepEntropy.AfterPreferred | core/POSIX/osdep.c:415-453 | after a failed /dev/random loop the call fails without reading /dev/urandom; otherwise it fails, or returns a count equal to everything the first loop left wanted, extending the bytes already counted |
| OsdepEntropy.GetEntropySpec | core/POSIX/osdep.c:366-453 | psGetEntropy returns either PS_PLATFORM_FAIL or exactly the requested size, never a short count |
| OsdepEntropy.NonNegativeReturnIsExact | core/POSIX/osdep.c:366-453 | psGetEntropy returns the requested size, with exactly the delivered bytes at the front of the buffer, or PS_PLATFORM_FAIL; nothing past size is written |
| OsdepEntropy.ZeroRequestReadsNothing | core/POSIX/osdep.c:377-416 | a request for 0 bytes returns 0 without reading, closing or writing anything |
| OsdepEntropy.ReadsAreBounded | core/POSIX/osdep.c:366-453 | each device is read at most size + MAX_RAND_READS + 3 times, and at most one descriptor per device is closed |
| OsdepEntropy.PreferredErrorsFallThrough | core/POSIX/osdep.c:379-409 | a failure before /dev/urandom is read is the /dev/random interrupt budget running out; every other /dev/random error falls through |
| OsdepEntropy.WouldBlockFallsThrough | core/POSIX/osdep.c:391-394 | when /dev/random would block at once, the call is the /dev/urandom loop on the untouched buffer and the full size |
| OsdepEntropy.ReliableDevicesDeliverAll | core/POSIX/osdep.c:366-453 | with no EINTR from /dev/random and only delivering reads from /dev/urandom, psGetEntropy returns the requested size |
| OsdepEntropy.EntropySource.Read | core/POSIX/osdep.c:379 | read(2) stores what it delivers, cut to the request, at `where`; it returns the count, or -1 and sets errno |
| OsdepEntropy.EntropySource.RecoverPreferred | core/POSIX/osdep.c:380-408 | the error branch of the /dev/random loop takes the branch Step prescribes, and fails only on EINTR past the budget |
| OsdepEntropy.EntropySource.RecoverGuaranteed | core/POSIX/osdep.c:419-446 | the error branch of the /dev/urandom loop takes the branch Step prescribes, and never breaks |
| OsdepEntropy.EntropySource.IteratePreferred | core/POSIX/osdep.c:379-412 | one pass of the /dev/random loop body (read, then count or recover) ends as Step prescribes, and fails only on EINTR past the budget |
| OsdepEntropy.EntropySource.IterateGuaranteed | core/POSIX/osdep.c:418-450 | one pass of the /dev/urandom loop body ends as Step prescribes, and never breaks |
| OsdepEntropy.EntropySource.DrainPreferred | core/POSIX/osdep.c:375-413 | the /dev/random loop leaves the buffer, randfd, errno and the close log as Run says |
| OsdepEntropy.EntropySource.DrainGuaranteed | core/POSIX/osdep.c:415-451 | the /dev/urandom loop leaves the buffer, urandfd, errno and the close log as Run says |
| OsdepEntropy.EntropySource.GetEntropy | core/POSIX/osdep.c:366-453 | psGetEntropy returns and leaves behind what GetEntropySpec says |
| OsdepTrace.Resolve | core/POSIX/osdep.c:487-529 | at most one warning is printed, and a file sink is one whose fopen succeeded |
| OsdepTrace.DebugFileTakesPrecedence | core/POSIX/osdep.c:489-507 | once PSCORE_DEBUG_FILE is set, PSCORE_DEBUG_FILE_APPEND plays no part, even when the open fails, and a file sink is that file opened with "w" |
| OsdepTrace.AppendFileIsFallback | core/POSIX/osdep.c:504-522 | without PSCORE_DEBUG_FILE, PSCORE_DEBUG_FILE_APPEND is opened with "a", and standard output is used if that fails |
| OsdepTrace.StdoutExactlyWhen | core/POSIX/osdep.c:487-529 | the sink is standard output exactly when no variable is set or the chosen open fails, and a warning is printed exactly when the chosen open fails |
| OsdepTrace.Tracer.constructor | core/POSIX/osdep.c:474 | tracefile starts NULL and nothing has been written |
| OsdepTrace.Tracer.GetTraceFile | core/POSIX/osdep.c:472-541 | the first call resolves and caches the sink; every later call returns the cached sink and changes nothing, whatever the environment then says |
| OsdepTrace.Tracer.Trace | core/POSIX/osdep.c:543-551 | _psTrace writes the message to the cached sink |
| OsdepTrace.Tracer.TraceStr | core/POSIX/osdep.c:554-571 | _psTraceStr writes the bare message when the value is NULL, and the message as a format for the value otherwise |
| OsdepTrace.Tracer.TraceInt | core/POSIX/osdep.c:574-582 | _psTraceInt writes the message as a format for the value |
| OsdepTrace.Tracer.TracePtr | core/POSIX/osdep.c:585-593 | _psTracePtr writes the message as a format for the address |
| OsdepTrace.CachedSinkIgnoresLaterEnv | core/POSIX/osdep.c:479-540 | two trace calls under different environments both write to the sink the first one chose, and only the first can warn |
| OsdepFile.Loaded | core/POSIX/osdep.c:635-647 | the loaded buffer has st_size + 1 bytes, starts with the first min(st_size, stream length) bytes of the stream and is zero after them, so its last byte is 0 |
| OsdepFile.ExactStreamLoadsWhole | core/POSIX/osdep.c:643-647 | a stream of exactly st_size bytes is loaded whole, followed by one zero |
| OsdepFile.AsWrittenLoop | core/POSIX/osdep.c:643-647 | the loop as written counts only bytes it read, at least min(st_size, stream length) of them, and its furthest write is at most one uncounted 512-byte read past the count |
| OsdepFile.AsWrittenExactStreamIsSafe | core/POSIX/osdep.c:643-647 | on a stream of exactly st_size bytes the loop as written, whose fread writes only the bytes it delivers, writes nothing past st_size and ends with *bufLen == st_size |
| OsdepFile.AsWrittenLongStreamOverruns | core/POSIX/osdep.c:643-647 | on a stream two or more bytes longer than st_size the loop as written writes past the st_size + 1 bytes allocated |
| OsdepFile.AsWrittenOneExtraByteOverwritesTerminator | core/POSIX/osdep.c:641-647 | on a stream one byte longer than st_size the loop as written stores a stream byte at index st_size, over the terminating zero, and leaves *bufLen at st_size or st_size + 1 |
| OsdepFile.AsWrittenOneExtraByteExample | core/POSIX/osdep.c:643-647 | st_size 6 and a 7-byte stream: the loop as written writes 7 bytes and leaves *bufLen at 7 |
| OsdepFile.AsWrittenOverrunExample | core/POSIX/osdep.c:643-647 | st_size 0 and a 10-byte stream: the first fread writes 10 bytes into a 1-byte buffer |
| OsdepFile.Stream.Fread | core/POSIX/osdep.c:643 | fread delivers min(n, what is left) bytes into the destination at the offset, writes nothing else, and advances the stream |
| OsdepFile.Stream.Fclose | core/POSIX/osdep.c:648 | fclose leaves the stream closed |
| OsdepFile.GetFileBufFp | core/POSIX/osdep.c:622-650 | the corrected loop, each fread bounded by the room left before the terminator: fstat failure gives PS_PLATFORM_FAIL, allocation failure PS_MEM_FAIL, both without reading the stream; otherwise PS_SUCCESS with a fresh buffer holding Loaded and *bufLen = min(st_size, stream length); the stream is closed on every path |
| OsdepFile.GetFileBuf | core/POSIX/osdep.c:652-670 | a NULL name gives PS_ARG_FAIL and a failed fopen PS_PLATFORM_FAIL, both with *buf NULL and *bufLen 0; otherwise the file is loaded as GetFileBufFp does and the stream it opened is closed |

## Left out

- The Apple `mach_absolute_time` build of the time functions (lines 141-176): its tick scaling depends on unsigned 64-bit overflow of `tick * numer`.
- `psGetTime` in every build: sampling a clock is a foreign call; timestamps are inputs.
- OsdepTime.CompareImpliesNonNegativeDiff: proved only for samples at most 2,000,000 s apart; psDiffMsecs's int32 millisecond result wraps after about 24.9 days, so further apart an ordered pair can give a negative difference (DiffMsecsWrapsAfterDays).
- OsdepTime.DiffMsecsIsFloor: proved only for samples at most 2,000,000 s apart, where the `(int32)` conversions do not wrap; beyond that the wrap is modelled but not characterised.
- `osdepTimeOpen`/`Close`, `osdepMutexOpen`/`Close`, `osdepTraceOpen`/`Close` and `osdepBreak`: empty stubs, or a call to `abort()`.
- `psLockMutex`, `psUnlockMutex` and `psDestroyMutex`: concurrency and process termination.
- OsdepMutex.CreateMutexWith: the mutex object and attribute themselves are not modelled, only the return codes and the order of the calls; the log messages are left out.
- `psGetEntropy`: a read that returns 0 (end of file) would make the source loop for ever; devices are required never to do that (`NoEof`).
- `psGetEntropy`: `readBytes` is an int32 while `size` is a uint32; a request above 2^31 - 1 bytes would wrap the returned count, and the model returns the mathematical count.
- `psGetEntropy`: `errno` changes only through failed reads in the model; a successful read or a successful `open` is taken to leave it alone, which is what makes the stale-`errno` test past the interrupt budget deterministic. A failed reopen also keeps errno at EBADF in the model, where open(2) would set its own error; only the errno left behind (`Entropy.errno`, `EntropySource.errno`) is affected, since no test reads errno after a failed reopen.
- The diagnostics that `psGetEntropy`, `psCreateMutex` and `psGetFileBufFp` print on failure (`psTraceCore`, `psErrorInt`, `psTraceIntCore`): output only, no effect on results.
- `_psGetTraceFile`: the double-checked locking on `tracefile_mutex` only matters for concurrent first use; the model is sequential. `setvbuf` is left out.
- `_psTrace*`: printf formatting with a caller-supplied format is not modelled; a line records its format and argument. `tracefile` is never NULL once resolved, so the NULL checks in the writers are dead and not modelled.
- `psGetFileBufFp`: `*bufLen` is not initialised by the function itself; the model starts it at 0, as `psGetFileBuf` does. On an `fstat` failure the source leaves `*buf` untouched; the model returns null, which is what a `psGetFileBuf` caller sees.
- `psGetFileBufFp`: `fread` read errors, which end the loop like end of file, are folded into the stream running out; the `size_t` to `int32` conversion of the count is not modelled.
- The test key data under `testkeys/` is a static certificate array with no logic.

## Findings

| source | as written | input that shows it | evidently intended | confidence | as-written member | corrected member |
|---|---|---|---|---|---|---|
| core/POSIX/osdep.c:221 | psDiffUsecs converts the seconds term `(now.tv_sec - then.tv_sec) * 1000000` to int32 although it returns int64_t | then = (0 s, 0 ns), now = (2148 s, 0 ns): returns -2,146,967,296 | the difference in microseconds, 2,148,000,000 | not executed | OsdepTime.DiffUsecsAsWrittenWraps | OsdepTime.DiffUsecsIsFloor |
| core/POSIX/osdep.c:270-277 | psCreateMutex treats pthread_mutexattr_init and pthread_mutexattr_setpshared as failed only on a negative result, but POSIX reports errors as positive numbers | flags = PS_SHARED, setpshared returns ENOTSUP (95): PS_SUCCESS with a process-private mutex | PS_PLATFORM_FAIL whenever a pthread call returns non-zero | not executed | OsdepMutex.CreateMutexAsWrittenMissesPositiveErrors | OsdepMutex.CreateMutex |
| core/POSIX/osdep.c:643 | the loading loop asks fread for 512 bytes at `*buf + *bufLen` whatever room is left, and tests `*bufLen < st_size` only after the read | fstat reports st_size 0 (a pipe or a /proc file) and the stream delivers 10 bytes: 10 bytes are written into a 1-byte buffer | read at most st_size - *bufLen bytes, and stop once st_size bytes are in | not executed | OsdepFile.AsWrittenLongStreamOverruns | OsdepFile.GetFileBufFp |
| core/POSIX/osdep.c:641-647 | the same loop on a stream only one byte longer than st_size stores that byte at index st_size, where memset put the terminating zero | st_size 6 and a 7-byte stream: *bufLen ends at 7 and the buffer is no longer zero-terminated | the buffer keeps its terminating zero and *bufLen <= st_size | not executed | OsdepFile.AsWrittenOneExtraByteOverwritesTerminator | OsdepFile.GetFileBufFp |

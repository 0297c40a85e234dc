# SwiftLaTeX engine workers and controllers, modelled in Dafny

SwiftLaTeX runs a TeX engine (XeTeX) and a DVI-to-PDF converter (dvipdfmx) in web
workers. This project models four pieces of that system and proves properties of the model:

- The shared file cache (`shared-cache.js`).
  - It is a persistent store of records `{cacheKey, exists, lastUpdated, content}` with a 30-day time to live.
  - Its resolver `downloadAndCacheFile` tries three sources in order: a negative record, then a positive record restored into the worker's file system, then the network.
  - 301/404 answers are remembered. Other failures are not, so they are retried later.
- The worker scope of the engine builds (`dvipdfm.wasm/pre.js`).
  - The globals `memlog`, `mainfile` and `texlive_endpoint`, and the start-up that creates `/tex` and `/work`.
  - The compile routine and the replies it posts.
  - `mkdir` and `writefile` under `/work`, and the recursive `cleanDir`.
  - The command dispatcher.
  - The file lookup the engine calls back into (`kpse_find_file_impl`).
- The two host-side controllers (`XeTeXEngine.js`, `DvipdfmxEngine.js`).
  - Each is a state machine over `Init | Ready | Busy | Error` plus a "worker present" flag.
  - Commands are guarded by readiness.
  - Replies are filtered by `cmd === "compile"` and turned into a `CompileResult`.

Modules:

| file | module | models |
|---|---|---|
| `common.dfy` | `Common` | bytes, `Option`, a throwing call's `Outcome`, `split("/").pop()`, `String(n)` |
| `memfs.dfy` | `MemFs` | the worker's in-memory file system, a value whose tree invariant is `Valid` |
| `protocol.dfy` | `Protocol` | the messages between host and worker, `EngineStatus`, `CompileResult`, promise settlement |
| `shared_cache.dfy` | `SharedCache` | the store as class `FileCache`, and the resolver as the function `Resolve` and the method `DownloadAndCacheFile` |
| `worker.dfy` | `Worker` | the worker's global scope as class `WorkerScope` |
| `xetex_engine.dfy` | `XeTeX` | class `XeTeXEngine` |
| `dvipdfmx_engine.dfy` | `Dvipdfmx` | class `DvipdfmxEngine` |

How the model stands in for the environment:

- The clock is a parameter `now`, read once per resolution.
- The network is a parameter `fetch: string -> Fetch`, which answers with a status and a body or throws. The resolver also returns the URL it fetched, if any, so "no fetch" can be stated.
- The file system's write failures are structural: the parent is missing, the path is a directory, or the name is bad. A set `writeFaults` of paths on which every write throws can be injected on top.
- The TeX engine's run is an input `EngineRun`. It lists, in order, the lines the engine printed, the files it wrote and its calls of `kpse_find_file_impl` (each with the clock and network that call meets), and says how the run ended.
- A controller records the promises its async methods returned (`promises`) and every message it posted (`posted`).
  - A message or error event from the worker is a method call.
  - When a handler resolves a pending promise, the continuation after the `await` runs at once and puts back the no-op handlers.
  - A rejected promise leaves the handlers installed, as in the source.

## Model

| member | source | states |
|---|---|---|
| Common.LastSegment | shared-cache.js:111 | `split("/").pop()`: the longest suffix without `/`; it is preceded by `/` whenever it is not the whole string |
| Common.LastSegmentPrepend | shared-cache.js:139-140 | prefixing text to a string that has a `/` does not change its last segment, so `texlive_endpoint + endpoint + key` and `key` give the same file id |
| Common.DecimalString | dvipdfm.wasm/pre.js:217 | `String(format)`: nonempty and free of `/`, a leading `-` exactly for negatives, then decimal digits without a leading zero |
| Common.NatDigitsValue | dvipdfm.wasm/pre.js:217 | the digits printed for a natural number read back as that number |
| Common.DecimalStringValue | dvipdfm.wasm/pre.js:217 | the printed form denotes the number: its digits read back as the absolute value, and `-` marks the negatives |
| Common.DecimalStringInjective | dvipdfm.wasm/pre.js:217 | distinct formats print differently |
| MemFs.WriteFile | dvipdfm.wasm/pre.js:155 | `FS.writeFile` succeeds exactly on an attached non-directory path without an injected fault, and then stores exactly the data there and changes nothing else |
| MemFs.Stat | dvipdfm.wasm/pre.js:47-54 | `FS.stat` throws exactly for a missing node and reports a directory exactly for a directory |
| MemFs.ReadFile | dvipdfm.wasm/pre.js:103-105 | `FS.readFile` returns the stored bytes, and throws when no file is there |
| MemFs.Mkdir | dvipdfm.wasm/pre.js:136-139 | `FS.mkdir` fails on an existing name or a missing parent, otherwise adds exactly that directory |
| MemFs.Unlink | dvipdfm.wasm/pre.js:57-61 | `FS.unlink` removes exactly that file, and fails when it is not a file |
| MemFs.Rmdir | dvipdfm.wasm/pre.js:65-71 | `FS.rmdir` removes exactly an empty directory, and fails otherwise |
| MemFs.ReadDir | dvipdfm.wasm/pre.js:40 | `FS.readdir` lists "." and ".." and the directory's children, and throws for a non-directory |
| MemFs.ChildrenAreGoodNames | dvipdfm.wasm/pre.js:41-46 | in a valid tree no listed child is "", "." or "..", and none contains `/`, so `dir + "/" + item` names that child |
| MemFs.WriteThenRead | dvipdfm.wasm/pre.js:155 | after a successful write, `FS.readFile` of that path returns exactly the data written and `FS.stat` reports a regular file; every other path reads and stats as before |
| MemFs.MkdirThenStat | dvipdfm.wasm/pre.js:139 | after a successful `FS.mkdir` the path stats as a directory and is listed by its parent; every other path keeps its kind |
| MemFs.WriteFileValid | dvipdfm.wasm/pre.js:155 | a successful write keeps the file system a valid tree |
| MemFs.MkdirValid | dvipdfm.wasm/pre.js:139 | a successful `FS.mkdir` keeps the file system a valid tree |
| MemFs.UnlinkValid | dvipdfm.wasm/pre.js:58 | unlinking a file keeps the file system a valid tree |
| MemFs.RmdirValid | dvipdfm.wasm/pre.js:67 | removing an empty directory keeps the file system a valid tree |
| Protocol.NewCompileResult | xetex.wasm/XeTeXEngine.js:24-30 | a fresh `CompileResult` has no pdf, status -254 and log "No log" |
| Protocol.ResultOfReply | dvipdfm.wasm/DvipdfmxEngine.js:88-99 | the report copies the reply's status and log; it carries a pdf exactly when `result === 'ok'`, with the reply's bytes (empty for none) |
| Protocol.Settle | xetex.wasm/XeTeXEngine.js:49 | resolving or rejecting a settled promise leaves it as it was |
| SharedCache.Lookup | shared-cache.js:35-51 | a record is returned exactly when it exists and `now - lastUpdated <= TTL_MS`, and it is the stored record |
| SharedCache.AfterLookup | shared-cache.js:42-49 | the lookup deletes exactly the expired record of its key and keeps every other record |
| SharedCache.Restore | shared-cache.js:116-120 | the write followed by a stat succeeds exactly when `FS.writeFile` does, leaving the written file system; a failed write changes nothing |
| SharedCache.FileCache.constructor | shared-cache.js:7-26 | the store opens with the records an earlier session left, keyed by cache key |
| SharedCache.FileCache.GetCacheEntry | shared-cache.js:28-55 | returns `Lookup` of the old store and leaves `AfterLookup` of it: an expired record is deleted and reported absent |
| SharedCache.FileCache.SetCacheEntry | shared-cache.js:57-74 | a put: replaces any record of the key with `{key, exists, now, content}`; content defaults to none |
| SharedCache.FileCache.DeleteCacheEntry | shared-cache.js:76-86 | removes exactly the key's record |
| SharedCache.FileCache.PurgeCache | shared-cache.js:88-98 | the store becomes empty |
| SharedCache.FileCache.DownloadAndCacheFile | shared-cache.js:100-173 | its path, fetched URL, new store and new file system are exactly `Resolve` of the old store and file system, for every clock and network answer; the store stays keyed by cache key |
| SharedCache.PutThenLookup | shared-cache.js:43-51 | a record put at time t is returned while `now - t <= TTL_MS`, the boundary included, and is deleted by the first lookup after it |
| SharedCache.NegativeHitShortCircuits | shared-cache.js:104-107 | a live negative record gives null with no fetch, no file system change and no store change |
| SharedCache.PositiveHitRestores | shared-cache.js:109-128 | a live positive record with content is written to `/tex/<last segment of key>` and that path is returned with no fetch; when the write fails the record is deleted and resolution goes on to the network |
| SharedCache.FetchesOnlyOnMiss | shared-cache.js:102-134 | the resolver fetches if and only if there is neither a live negative record nor a live positive record that could be restored, and the URL is exactly `texlive_endpoint + endpoint + cacheKey` |
| SharedCache.OkCachedOnlyAfterWrite | shared-cache.js:136-159 | an ok response is written to `/tex/<file id>` and only then recorded as positive with those bytes; when the write fails, null is returned and nothing is recorded |
| SharedCache.DefinitiveAbsenceCached | shared-cache.js:161-164 | 301 and 404 record a negative entry without content and return null, leaving the file system alone |
| SharedCache.TransientFailureNotCached | shared-cache.js:165-172 | any other status, or a thrown fetch, returns null and changes neither the store nor the file system |
| SharedCache.ResolvedPathUnderCacheRoot | shared-cache.js:111-140 | a resolved path lies under `/tex/` and holds a file; for a key with `/` the hit path and the network path coincide at `/tex/<last segment of key>` |
| SharedCache.CacheAgreesWithFs | shared-cache.js:109-154 | after every successful resolution the key has a live positive record whose content is exactly the bytes at the returned path |
| SharedCache.ResolvePreservesInvariants | shared-cache.js:100-173 | resolution keeps the file system a valid tree, creates no directory, keeps the store keyed by cache key and never gives a negative record content |
| SharedCache.ResolveWritesOnlyCacheRoot | shared-cache.js:109-154 | the resolver creates no directory, loses no file, and leaves every file outside `/tex` as it was |
| SharedCache.FetchStagePreservesInvariants | shared-cache.js:131-172 | the same invariants for the network stage alone |
| SharedCache.FetchStageStored | shared-cache.js:136-154 | after a successful download the record holds the body and the file system holds it at the save path under the cache root |
| SharedCache.HitAfterStored | shared-cache.js:109-123 | a live positive record whose bytes are already at the save path resolves to that path with no fetch and no change |
| SharedCache.FetchedThenHit | shared-cache.js:109-154 | a file just fetched is, on the next resolution within the time to live, restored to the same path with no fetch and no change |
| SharedCache.AbsentThenShortCircuit | shared-cache.js:161-164 | after a 301/404 the next resolution changes nothing and does not fetch while within the time to live, and fetches the same URL again after it |
| SharedCache.TransientThenRetry | shared-cache.js:165-172 | after a transient failure the next resolution fetches the same URL again, whatever the network then says |
| Worker.StripCacheRoot | dvipdfm.wasm/pre.js:209-211 | exactly one leading `/tex/` is removed; other names are kept |
| Worker.NormalizeName | dvipdfm.wasm/pre.js:209-215 | a name is looked up exactly when no `/` is left after stripping, and it is the stripped name |
| Worker.NormalizeNameExact | dvipdfm.wasm/pre.js:209-215 | `n` is looked up for a request if and only if `n` has no `/` and the request is `n` or `/tex/` + `n` |
| Worker.CacheKeyFor | dvipdfm.wasm/pre.js:217 | the cache key `format + "/" + name` always contains `/` |
| Worker.CacheKeyForParts | dvipdfm.wasm/pre.js:217-218 | the key's file id is the name, so the file lands at `/tex/<name>`; equal keys mean equal names and equal formats |
| Worker.EndpointWithSlash | dvipdfm.wasm/pre.js:170-174 | the result ends with `/`, extends the url by at most that `/`, and equals the url exactly when it already ended with `/` |
| Worker.EndpointWithSlashIdempotent | dvipdfm.wasm/pre.js:171-173 | normalising twice is normalising once |
| Worker.Utf16Prefix | dvipdfm.wasm/pre.js:102 | `substr(0, k)` counted in UTF-16 code units: the longest prefix with at most `k` units, none for a negative `k` |
| Worker.Stem | dvipdfm.wasm/pre.js:102 | `substr(0, length - 4)` in UTF-16 code units: the longest prefix of the name that leaves at least four units off, and "" for names under four units |
| Worker.StemOfBmpName | dvipdfm.wasm/pre.js:102 | for a name of Basic Multilingual Plane characters the stem drops exactly the last four characters |
| Worker.StemCountsCodeUnits | dvipdfm.wasm/pre.js:102 | a character outside the Basic Multilingual Plane counts two: the stem of `"abc\U{1F600}"` is `"a"` |
| Worker.PdfPath | dvipdfm.wasm/pre.js:102 | the PDF is looked for inside `/work` |
| Worker.PdfPathOfTexFile | dvipdfm.wasm/pre.js:102 | for `<name>.tex` the PDF is `/work/<name>.pdf` |
| Worker.CompileReply | dvipdfm.wasm/pre.js:99-132 | `ok` exactly for status 0 with a readable PDF, with the PDF; otherwise `failed` without PDF, with status -253 when status 0 gave no PDF and the engine's status otherwise; always `cmd: 'compile'` and the log |
| Worker.CrashReply | dvipdfm.wasm/pre.js:76-85 | the crash reply is `failed` with status -254, the log and `cmd: 'compile'` |
| Worker.ExceptionReply | dvipdfm.wasm/pre.js:182-185 | a throwing compile routine is reported as `failed` with status -1 and the error as log |
| Worker.AckReply | dvipdfm.wasm/pre.js:140-149 | the `mkdir`/`writefile` acknowledgement is `ok` or `failed` with its cmd, and nothing else |
| Worker.CompileReplyRoundTrip | dvipdfm.wasm/pre.js:117-131 | the controller's report of a compile reply has a PDF exactly when the engine returned 0 and the PDF was readable, with those bytes, and carries the worker's status and log |
| Worker.CrashReplyRoundTrip | dvipdfm.wasm/pre.js:76-85 | a crash reaches the caller as status -254 without PDF, with the log |
| Worker.ReplayKeepsInvariants | dvipdfm.wasm/pre.js:90-96 | during an engine run the log grows by exactly the printed lines, each with a newline; the file system stays a valid tree with the same directories and no file lost; the cache store keeps its key invariant and contentless negatives |
| Worker.ReplayKeepsOutsideCacheRoot | dvipdfm.wasm/pre.js:204-219 | however many file lookups the engine makes, a file outside `/tex` that the engine does not write itself reads as before |
| Worker.CompileOutcomeReply | dvipdfm.wasm/pre.js:88-133 | a compilation posts one `compile` reply: `ok` with the PDF's bytes exactly when the engine returned 0 and left a file at the PDF path, -253 when it returned 0 without one, its status otherwise, -254 after an abort, -1 with the error after a rejection; the engine's writes and lookups persist on every ending |
| Worker.ConcludeReply | dvipdfm.wasm/pre.js:76-185 | from whatever state the run left, each ending posts its reply and keeps the store and file system: `ok` with the PDF exactly for status 0 and an existing PDF, -253, the status, -254 with "Engine crashed" appended to the log, or -1 with the error |
| Worker.CompileOutcomeState | dvipdfm.wasm/pre.js:88-98 | on every ending, including a rejected `ccall`, the engine's writes and lookups persist; the tree stays valid with the same directories, no file is lost, and the store keeps its invariants |
| Worker.SourceBytes | dvipdfm.wasm/pre.js:155 | `FS.writeFile` can store exactly a string and a `Uint8Array` |
| Worker.WriteSource | dvipdfm.wasm/pre.js:155 | returns exactly when the value can be stored and the path can be opened, and then the path reads as the value's bytes; a value of another type (undefined, an `ArrayBuffer`) throws after leaving an empty file at the path; a path that cannot be opened changes nothing; no other path and no directory changes |
| Worker.WriteSourceValid | dvipdfm.wasm/pre.js:155 | writing a source keeps the file system a valid tree, whether or not it throws |
| Worker.CleanedLeavesDirEmpty | dvipdfm.wasm/pre.js:39-72 | after cleaning, the directory has no children (`readdir` of `/work` gives only "." and ".."), and every node outside it keeps its kind and content |
| Worker.FlushKeepsCacheRoot | dvipdfm.wasm/pre.js:197-198 | `flushcache` keeps `/tex` and every file and directory below it, with its content |
| Worker.TrimmedAll | dvipdfm.wasm/pre.js:41-63 | removing every entry `readdir` listed, with everything below each, empties the directory |
| Worker.WorkerScope.constructor | dvipdfm.wasm/pre.js:1-20 | start-up: `memlog` "", `mainfile` "main.tex", `texlive_endpoint` "/lib/", the file system is exactly `/tex` and `/work`, and the handshake is posted |
| Worker.WorkerScope.PostRun | dvipdfm.wasm/pre.js:33-37 | posts exactly the handshake `{result: 'ok'}` |
| Worker.WorkerScope.Print | dvipdfm.wasm/pre.js:7-15 | appends the line and a newline to `memlog` |
| Worker.WorkerScope.PrepareExecutionContext | dvipdfm.wasm/pre.js:28-31 | the log is emptied and the current directory is `/work` |
| Worker.WorkerScope.OnAbort | dvipdfm.wasm/pre.js:76-85 | appends "Engine crashed" to the log and posts the crash reply with that log |
| Worker.WorkerScope.CompilePdfRoutine | dvipdfm.wasm/pre.js:88-133 | the log, the cache store and the file system become those of `CompileOutcome` for the engine's actions from an emptied log, and exactly its one reply is posted; the current directory is `/work` and the state stays valid |
| Worker.WorkerScope.RunEngine | dvipdfm.wasm/pre.js:90-96 | the engine's prints, writes and calls of `kpse_find_file_impl` take effect in order: the log, store and file system become the `Replay` of the actions |
| Worker.WorkerScope.MkdirRoutine | dvipdfm.wasm/pre.js:136-151 | creates `/work/<dirname>` when `FS.mkdir` can, and acknowledges `ok`/`failed` accordingly |
| Worker.WorkerScope.WriteFileRoutine | dvipdfm.wasm/pre.js:153-167 | the file system becomes that of `WriteSource` on `/work/<filename>`, including the empty file a rejected value leaves, and the reply is `ok` exactly when `FS.writeFile` returned |
| Worker.WorkerScope.SetTexliveEndpoint | dvipdfm.wasm/pre.js:169-176 | an empty url changes nothing; any other url is stored ending with `/` |
| Worker.WorkerScope.CleanDir | dvipdfm.wasm/pre.js:39-72 | the new file system is `Cleaned(old, dir)`: everything below `dir` is gone, and so is `dir` unless it is `/work`; everything else is unchanged and the tree stays valid |
| Worker.WorkerScope.CleanEntry | dvipdfm.wasm/pre.js:42-62 | one loop turn skips "." and "..", recursively cleans a directory entry and unlinks a file entry; afterwards that entry is removed with everything below it |
| Worker.WorkerScope.UnlinkEntry | dvipdfm.wasm/pre.js:57-61 | unlinking a file entry removes exactly that entry |
| Worker.WorkerScope.KpseFindFile | dvipdfm.wasm/pre.js:204-219 | a name with `/` left gives 0 with no fetch and no cache or file system access; otherwise the result is `Resolve` for key `format/name` and endpoint `xetex/`, and a found file is `/tex/<name>` and exists |
| Worker.WorkerScope.OnMessage | dvipdfm.wasm/pre.js:178-202 | each command does what the dispatcher promises and nothing else: `compilepdf` leaves the log, store and file system of `CompileOutcome` and posts its reply; `setmainfile` sets the main file, `settexliveurl` the endpoint, `mkdir`/`writefile` act under `/work` and reply with their cmd, `flushcache` cleans only `/work`, `grace` closes the worker, and an unknown command changes nothing; only `compilepdf` touches the log, the current directory or the store |
| Worker.WorkerScope.OnFileCommand | dvipdfm.wasm/pre.js:186-201 | the dispatcher's branches other than `compilepdf`, with the same promises and the log, current directory and store untouched |
| XeTeX.XeTeXEngine.constructor | xetex.wasm/XeTeXEngine.js:31-35 | a new engine is `Init` with no worker, no handlers, no timers and nothing posted |
| XeTeX.XeTeXEngine.LoadEngine | xetex.wasm/XeTeXEngine.js:36-72 | with a worker present, the promise is rejected with "Other instance is running, abort()" and nothing else changes; otherwise the status is `Init`, a worker exists, the handshake handlers and the timer wait on the new promise, and nothing is posted |
| XeTeX.XeTeXEngine.OnWorkerMessage | xetex.wasm/XeTeXEngine.js:43-147 | the handshake `ok` sets `Ready` and fulfils the load; another handshake sets `Error` and rejects it; while compiling, replies without `cmd: 'compile'` change nothing; the compile reply sets `Ready` and fulfils `compileLaTeX` with `ResultOfReply`, or settles `compileFormat` (fulfilled on `ok`, rejected with the log otherwise) |
| XeTeX.XeTeXEngine.OnWorkerError | xetex.wasm/XeTeXEngine.js:56-65 | while the load's error handler is installed, an error event sets `Error` and rejects the load's promise (a no-op once that promise is settled); the handler stays installed until a successful handshake puts back the no-op handlers, which never happens after a rejected load, so a later error event can still set `Error` even while a compile waits; with the no-op handler an error event does nothing |
| XeTeX.XeTeXEngine.OnTimeout | xetex.wasm/XeTeXEngine.js:67-72 | the ten-second timer rejects the load only if the status is still `Init`, and never changes the status |
| XeTeX.XeTeXEngine.IsReady | xetex.wasm/XeTeXEngine.js:79-81 | true if and only if the status is `Ready` |
| XeTeX.XeTeXEngine.CheckEngineStatus | xetex.wasm/XeTeXEngine.js:82-86 | passes if and only if the status is `Ready`, and otherwise throws "Engine is still spinning or not ready yet!" |
| XeTeX.XeTeXEngine.CompileLaTeX | xetex.wasm/XeTeXEngine.js:87-117 | unless `Ready`, rejects with the readiness error and changes nothing; otherwise the status is `Busy` and, with a worker, the compile handler waits and `compilelatex` is posted |
| XeTeX.XeTeXEngine.CompileFormat | xetex.wasm/XeTeXEngine.js:119-148 | as `CompileLaTeX`, with the format handler and `compileformat` |
| XeTeX.XeTeXEngine.SetEngineMainFile | xetex.wasm/XeTeXEngine.js:149-154 | throws and posts nothing unless `Ready`; otherwise posts `setmainfile` with the name when a worker exists |
| XeTeX.XeTeXEngine.WriteMemFSFile | xetex.wasm/XeTeXEngine.js:155-160 | throws and posts nothing unless `Ready`; otherwise posts `writefile` with the name and source unchanged when a worker exists |
| XeTeX.XeTeXEngine.MakeMemFSFolder | xetex.wasm/XeTeXEngine.js:161-169 | throws and posts nothing unless `Ready`; "" and "/" post nothing; otherwise posts `mkdir` when a worker exists |
| XeTeX.XeTeXEngine.FlushCache | xetex.wasm/XeTeXEngine.js:170-176 | throws and posts nothing unless `Ready`; otherwise posts `flushcache` when a worker exists, and leaves the status alone |
| XeTeX.XeTeXEngine.SetTexliveEndpoint | xetex.wasm/XeTeXEngine.js:177-181 | no readiness check: posts `settexliveurl` exactly when a worker exists |
| XeTeX.XeTeXEngine.CloseWorker | xetex.wasm/XeTeXEngine.js:182-187 | posts `grace` once if a worker exists and forgets the worker; the status is unchanged |
| XeTeX.LoadAndCompile | xetex.wasm/XeTeXEngine.js:36-117 | load, handshake, compile and compile reply: the load promise is fulfilled, the compile promise holds the report of the reply, the late timer rejects nothing, the status is `Ready` and only `compilelatex` was posted |
| Dvipdfmx.PostedSource | dvipdfm.wasm/DvipdfmxEngine.js:116-121 | an undefined source is not posted, an `ArrayBuffer` is posted as a `Uint8Array` of the same bytes, and anything else as is |
| Dvipdfmx.DvipdfmxEngine.constructor | dvipdfm.wasm/DvipdfmxEngine.js:32-35 | a new engine is `Init` with no worker, no handlers and nothing posted |
| Dvipdfmx.DvipdfmxEngine.LoadEngine | dvipdfm.wasm/DvipdfmxEngine.js:36-68 | with a worker present, the promise is rejected with "Other instance is running, abort()" and nothing else changes; otherwise the status is `Init` and the handshake handlers wait on the new promise; there is no timer |
| Dvipdfmx.DvipdfmxEngine.OnWorkerMessage | dvipdfm.wasm/DvipdfmxEngine.js:43-105 | the handshake `ok` sets `Ready` and fulfils the load; another handshake sets `Error` and rejects it; while compiling, replies without `cmd: 'compile'` change nothing, and the compile reply sets `Ready` and fulfils `compilePDF` with `ResultOfReply` |
| Dvipdfmx.DvipdfmxEngine.OnWorkerError | dvipdfm.wasm/DvipdfmxEngine.js:56-65 | while the load's error handler is installed, an error event sets `Error` and rejects the load's promise (a no-op once that promise is settled); the handler stays installed until a successful handshake puts back the no-op handlers, which never happens after a rejected load, so a later error event can still set `Error` even while a compile waits; with the no-op handler an error event does nothing |
| Dvipdfmx.DvipdfmxEngine.IsReady | dvipdfm.wasm/DvipdfmxEngine.js:70-72 | true if and only if the status is `Ready` |
| Dvipdfmx.DvipdfmxEngine.CheckEngineStatus | dvipdfm.wasm/DvipdfmxEngine.js:73-77 | passes if and only if the status is `Ready`, and otherwise throws the readiness error |
| Dvipdfmx.DvipdfmxEngine.CompilePDF | dvipdfm.wasm/DvipdfmxEngine.js:78-107 | unless `Ready`, rejects with the readiness error and changes nothing; otherwise `Busy`, and with a worker the compile handler waits and `compilepdf` is posted |
| Dvipdfmx.DvipdfmxEngine.SetEngineMainFile | dvipdfm.wasm/DvipdfmxEngine.js:108-113 | throws and posts nothing unless `Ready`; otherwise posts `setmainfile` when a worker exists |
| Dvipdfmx.DvipdfmxEngine.WriteMemFSFile | dvipdfm.wasm/DvipdfmxEngine.js:114-125 | throws and posts nothing unless `Ready`; an undefined source posts nothing; otherwise posts `writefile` with `PostedSource` of the source when a worker exists |
| Dvipdfmx.DvipdfmxEngine.MakeMemFSFolder | dvipdfm.wasm/DvipdfmxEngine.js:126-134 | throws and posts nothing unless `Ready`; "" and "/" post nothing; otherwise posts `mkdir` when a worker exists |
| Dvipdfmx.DvipdfmxEngine.SetTexliveEndpoint | dvipdfm.wasm/DvipdfmxEngine.js:135-139 | no readiness check: posts `settexliveurl` exactly when a worker exists |
| Dvipdfmx.DvipdfmxEngine.CloseWorker | dvipdfm.wasm/DvipdfmxEngine.js:140-145 | posts `grace` once if a worker exists and forgets the worker; the status is unchanged, so a later `loadEngine` is allowed |
| Dvipdfmx.LoadAndCompile | dvipdfm.wasm/DvipdfmxEngine.js:36-106 | load, handshake, compile and compile reply: the load promise is fulfilled, the compile promise holds the report of the reply, the status is `Ready` and only `compilepdf` was posted |

## Left out

- IndexedDB itself is replaced by an in-memory map. This covers `initCache`, transactions, `onupgradeneeded` and request errors, which would reject the calling promise. Races between tabs sharing the store are not modelled, and each `await` is one sequential step.
- `xetex.wasm/library.js` and `dvipdfm.wasm/library.js` are not part of this model. They are Emscripten's Asyncify glue that suspends the engine while the resolver runs.
- `kpse_find_file_impl` passes three more arguments that `downloadAndCacheFile` ignores: `'TexLive'`, `texlive200_cache` and `texlive404_cache`. Only the two parameters it uses are modelled.
- The resolver reads the clock for the TTL check and again for the new record. The model reads it once, so both are `now`.
- A failure of the cached blob's `arrayBuffer()` is merged with a failed write. Both lead to the deletion of the record. A failure of `response.arrayBuffer()` is merged into a thrown fetch.
- The returned path is an `Option<string>`, not a heap pointer. `_malloc`, `_allocate`, `HEAPU8` and `intArrayFromString` are not modelled.
- The file system does not normalise paths: `.`, `..`, repeated `/` and a trailing `/` simply fail (Emscripten drops a trailing `/`, so `FS.mkdir("/work/sub/")` creates `/work/sub` there, while `MemFs.Mkdir` fails on it). Emscripten's mount points, permissions and symlinks are not modelled.
- `cleanDir` sees no failing `FS.stat`, `FS.unlink` or `FS.rmdir`: in a valid tree every listed entry exists and can be removed. The recovery branches for those failures are therefore not modelled.
- The typesetting itself is not modelled: `ccall("compilePDF")` and `setMainEntry` become the input `EngineRun`. The files the engine reads do not change the state and are not listed.
  - The routine runs to completion before the next message is handled, so no interleaving with concurrent messages is modelled.
  - An abort is modelled as `onAbort` followed by the end of the routine. The exception Emscripten raises after `onAbort` is not modelled.
- The XeTeX worker script is not part of this model. `XeTeXEngine` posts `compilelatex` and `compileformat`, while the only worker script modelled, `dvipdfm.wasm/pre.js`, handles `compilepdf`. Each controller is therefore modelled on its own, against the messages it posts and receives.
- `compileFormat`'s `Blob`, `URL.createObjectURL` and the 30-second revoke timer are not modelled. So are all `console` output and `performance.now()`.
- The `engineUrl` parameter of `loadEngine` is not modelled. The Worker constructor itself cannot fail in the model.
- Messages from a worker that was dropped by `closeWorker` are not modelled: `OnWorkerMessage` and `OnWorkerError` require a current worker.
- Rejection reasons built from `JSON.stringify(data)` or from the error event's fields are `None`. So is the `TypeError` thrown when a compile runs with no worker. The readiness error, "Other instance is running", the timeout message and `compileFormat`'s log are kept.
- A message field that is absent (`url`, `src`) is read as "" or `Undefined`.
- Three behaviours of the code, as modelled:
  - `shared-cache.js` has one backend, the IndexedDB store.
  - A worker crash while busy posts a -254 `compile` reply, which returns the controller to `Ready` (`Worker.CrashReplyRoundTrip`).
  - The start-up timeout rejects the load and leaves the status `Init` (`XeTeX.XeTeXEngine.OnTimeout`).
- Worker.Stem: when `length - 4` falls between the two code units of a character outside the Basic Multilingual Plane, JavaScript keeps a lone high surrogate, which a Dafny `string` cannot hold; the model leaves that character out whole.
- Worker.WriteSource: the truncation before the type check follows Emscripten's `FS.writeFile`, which opens the path with `O_CREAT | O_TRUNC` first; Emscripten's file system library is not part of this model.

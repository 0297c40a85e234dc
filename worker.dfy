/** The worker scope of the engine builds (`pre.js`): the globals `memlog`, `mainfile`
    and `texlive_endpoint`, the file system prepared at start-up, the message
    dispatcher with its routines, and the file lookup the TeX engine calls back into. */
module Worker {
  import opened Common
  import opened MemFs
  import opened Protocol
  import opened SharedCache

  /** The working directory of every compilation. */
  const WORKROOT: string := "/work"

  /** The endpoint `kpse_find_file_impl` fetches TeX files from, below `texlive_endpoint`. */
  const KpseEndpoint: string := "xetex/"

  // ---------------------------------------------------------------------------
  // File lookup on behalf of the engine

  /** The request name after the `/tex/` prefix is stripped (once). */
  function StripCacheRoot(reqname: string): (r: string)
    ensures "/tex/" <= reqname ==> reqname == "/tex/" + r
    ensures !("/tex/" <= reqname) ==> r == reqname
  {
    if "/tex/" <= reqname then reqname[5..] else reqname
  }

  /** The name `kpse_find_file_impl` looks up, or `None` when it returns 0 straight away
      because a `/` is left after the prefix is stripped. */
  function NormalizeName(reqname: string): (r: Option<string>)
    ensures r.Some? <==> '/' !in StripCacheRoot(reqname)
    ensures r.Some? ==> r.value == StripCacheRoot(reqname)
  {
    var name := StripCacheRoot(reqname);
    if '/' in name then None else Some(name)
  }

  /** Exactly the plain names and the plain names under `/tex/` are looked up, each as itself. */
  lemma {:induction false} NormalizeNameExact(reqname: string, name: string)
    ensures NormalizeName(reqname) == Some(name) <==> '/' !in name && (reqname == name || reqname == "/tex/" + name)
  {
    if '/' !in name && reqname == name && |name| > 0 {
      assert reqname[0] != '/';
    }
  }

  /** The cache key `format + "/" + reqname`, with the numeric format as JavaScript prints it. */
  function CacheKeyFor(format: int, name: string): (r: string)
    ensures '/' in r
  {
    var f := DecimalString(format);
    assert (f + "/" + name)[|f|] == '/';
    f + "/" + name
  }

  /** The key's last segment is the name, so the cache hit and the network path both
      materialise the file at `/tex/<name>`; and the key determines the name and the format. */
  lemma {:induction false} CacheKeyForParts(format: int, name: string, format': int, name': string)
    requires '/' !in name && '/' !in name'
    ensures SavePath(CacheKeyFor(format, name)) == TEXCACHEROOT + "/" + name
    ensures CacheKeyFor(format, name) == CacheKeyFor(format', name') ==>
              name == name' && format == format'
  {
    var f := DecimalString(format);
    var f' := DecimalString(format');
    LastSegmentAfterSlash(f, name);
    if CacheKeyFor(format, name) == CacheKeyFor(format', name') {
      var k := f + "/" + name;
      assert k == f' + "/" + name';
      assert k[|f|] == '/' && k[|f'|] == '/';
      assert |f| == |f'|;
      assert f == k[..|f|] == f';
      assert name == k[|f| + 1..] == name';
      DecimalStringInjective(format, format');
    }
  }

  // ---------------------------------------------------------------------------
  // Host-controlled settings

  predicate EndsWithSlash(url: string) {
    |url| > 0 && url[|url| - 1] == '/'
  }

  /** `url` with a `/` appended unless it already ends with one. */
  function EndpointWithSlash(url: string): (r: string)
    ensures EndsWithSlash(r)
    ensures url <= r && |r| <= |url| + 1
    ensures EndsWithSlash(url) <==> r == url
  {
    if EndsWithSlash(url) then url else url + "/"
  }

  /** Normalising an endpoint twice is normalising it once. */
  lemma EndpointWithSlashIdempotent(url: string)
    ensures EndpointWithSlash(EndpointWithSlash(url)) == EndpointWithSlash(url)
  {
  }

  /** The number of UTF-16 code units JavaScript stores for `c`: two outside the Basic Multilingual Plane. */
  function CodeUnits(c: char): nat {
    if c as int >= 0x1_0000 then 2 else 1
  }

  /** JavaScript's `s.length`: the number of UTF-16 code units of `s`. */
  function Utf16Length(s: string): nat
    decreases |s|
  {
    if s == [] then 0 else CodeUnits(s[0]) + Utf16Length(s[1..])
  }

  /** `s.substr(0, k)`: the longest prefix of `s` with at most `k` code units (none for a
      negative `k`). A character whose two code units the cut would separate is left out whole. */
  function Utf16Prefix(s: string, k: int): (r: string)
    ensures r <= s
    ensures Utf16Length(r) <= if k < 0 then 0 else k
    ensures |r| < |s| ==> Utf16Length(r) + CodeUnits(s[|r|]) > k
    decreases |s|
  {
    if s == [] || CodeUnits(s[0]) > k then []
    else
      var rest := Utf16Prefix(s[1..], k - CodeUnits(s[0]));
      assert ([s[0]] + rest)[1..] == rest;
      [s[0]] + rest
  }

  /** `mainfile.substr(0, mainfile.length - 4)`: the name without its last four code units. */
  function Stem(mainfile: string): (r: string)
    ensures r <= mainfile
    ensures Utf16Length(r) + 4 <= Utf16Length(mainfile) || r == ""
    ensures |r| < |mainfile| ==> Utf16Length(r) + CodeUnits(mainfile[|r|]) + 4 > Utf16Length(mainfile)
  {
    Utf16Prefix(mainfile, Utf16Length(mainfile) - 4)
  }

  /** Code units add up over a concatenation. */
  lemma {:induction false} Utf16LengthConcat(a: string, b: string)
    ensures Utf16Length(a + b) == Utf16Length(a) + Utf16Length(b)
    decreases |a|
  {
    if a != [] {
      assert (a + b)[1..] == a[1..] + b;
      Utf16LengthConcat(a[1..], b);
    } else {
      assert a + b == b;
    }
  }

  /** Cutting `a + b` after the code units of `a` gives `a`. */
  lemma {:induction false} Utf16PrefixOfConcat(a: string, b: string)
    ensures Utf16Prefix(a + b, Utf16Length(a)) == a
    decreases |a|
  {
    if a != [] {
      assert (a + b)[0] == a[0] && (a + b)[1..] == a[1..] + b;
      assert Utf16Length(a) == CodeUnits(a[0]) + Utf16Length(a[1..]);
      assert Utf16Prefix(a + b, Utf16Length(a)) == [a[0]] + Utf16Prefix(a[1..] + b, Utf16Length(a[1..]));
      Utf16PrefixOfConcat(a[1..], b);
      assert [a[0]] + a[1..] == a;
    }
  }

  /** For a name of characters inside the Basic Multilingual Plane, the stem drops the last four characters. */
  lemma {:induction false} StemOfBmpName(mainfile: string)
    requires |mainfile| >= 4
    requires forall i :: 0 <= i < |mainfile| ==> CodeUnits(mainfile[i]) == 1
    ensures Stem(mainfile) == mainfile[..|mainfile| - 4]
  {
    var a, b := mainfile[..|mainfile| - 4], mainfile[|mainfile| - 4..];
    assert a + b == mainfile;
    BmpLength(a);
    BmpLength(b);
    Utf16LengthConcat(a, b);
    Utf16PrefixOfConcat(a, b);
  }

  lemma {:induction false} BmpLength(s: string)
    requires forall i :: 0 <= i < |s| ==> CodeUnits(s[i]) == 1
    ensures Utf16Length(s) == |s|
    decreases |s|
  {
    if s != [] {
      assert forall i :: 0 <= i < |s[1..]| ==> s[1..][i] == s[i + 1];
      BmpLength(s[1..]);
    }
  }

  /** A name ending in a character outside the Basic Multilingual Plane loses that character's
      two code units and two more: `"abc\U{1F600}".substr(0, 1)` is `"a"`. */
  lemma StemCountsCodeUnits()
    ensures Stem("abc\U{1F600}") == "a"
  {
    var s := "abc\U{1F600}";
    assert s[1..][1..][1..][1..] == [];
    assert Utf16Length(s) == 5;
    assert Utf16Prefix(s, 1) == [s[0]] + Utf16Prefix(s[1..], 0);
  }

  /** Where the engine is expected to leave the PDF of `mainfile`. */
  function PdfPath(mainfile: string): (r: string)
    ensures Under(r, WORKROOT)
  {
    WORKROOT + "/" + Stem(mainfile) + ".pdf"
  }

  /** For a main file named `<name>.tex` the PDF is `/work/<name>.pdf`. */
  lemma PdfPathOfTexFile(name: string)
    ensures PdfPath(name + ".tex") == WORKROOT + "/" + name + ".pdf"
  {
    assert Utf16Length(".tex") == 4 by {
      assert ".tex"[1..][1..][1..][1..] == [];
    }
    Utf16LengthConcat(name, ".tex");
    Utf16PrefixOfConcat(name, ".tex");
  }

  // ---------------------------------------------------------------------------
  // Replies

  /** The reply ending a compilation the engine finished with `status`; `pdf` is the
      PDF file read on status 0 (`None` when reading it threw). */
  function CompileReply(status: int, pdf: Option<Bytes>, log: string): (r: Reply)
    ensures r.cmd == Some("compile") && r.log == Some(log)
    ensures r.result == "ok" <==> status == 0 && pdf.Some?
    ensures r.result == "ok" ==> r.status == Some(0) && r.pdf == pdf
    ensures r.result != "ok" ==> r.result == "failed" && r.pdf.None?
    ensures r.result != "ok" ==> r.status == Some(if status == 0 then -253 else status)
  {
    if status == 0 then
      if pdf.Some? then Reply("ok", Some("compile"), Some(status), Some(log), pdf)
      else Reply("failed", Some("compile"), Some(-253), Some(log), None)
    else Reply("failed", Some("compile"), Some(status), Some(log), None)
  }

  /** The reply `Module.onAbort` posts. */
  function CrashReply(memlog: string): (r: Reply)
    ensures r.result == "failed" && r.cmd == Some("compile")
    ensures r.status == Some(CrashStatus) && r.log == Some(memlog) && r.pdf.None?
  {
    Reply("failed", Some("compile"), Some(-254), Some(memlog), None)
  }

  /** The reply the dispatcher posts when the compile routine throws. */
  function ExceptionReply(error: string): (r: Reply)
    ensures r.result == "failed" && r.cmd == Some("compile")
    ensures r.status == Some(-1) && r.log == Some(error) && r.pdf.None?
  {
    Reply("failed", Some("compile"), Some(-1), Some(error), None)
  }

  /** The reply of the `mkdir` and `writefile` routines. */
  function AckReply(ok: bool, cmd: string): (r: Reply)
    ensures r.result == (if ok then "ok" else "failed") && r.cmd == Some(cmd)
    ensures r.status.None? && r.log.None? && r.pdf.None?
  {
    Reply(if ok then "ok" else "failed", Some(cmd), None, None, None)
  }

  /** What the host makes of a compile reply is what the worker meant: a PDF exactly when
      the engine succeeded and the PDF could be read, with those bytes, and the status and
      log carried over (-253 for a status-0 run without PDF). */
  lemma {:induction false} CompileReplyRoundTrip(status: int, pdf: Option<Bytes>, log: string)
    ensures var res := ResultOfReply(CompileReply(status, pdf, log));
            && (res.pdf.Some? <==> status == 0 && pdf.Some?)
            && (res.pdf.Some? ==> res.pdf == pdf)
            && res.status == Some(if status == 0 && pdf.None? then -253 else status)
            && res.log == Some(log)
  {
    var reply := CompileReply(status, pdf, log);
    if reply.result == "ok" {
      assert reply.pdf.GetOr([]) == pdf.value;
    }
  }

  /** A crash is reported to the host as status -254 without PDF, with the log. */
  lemma CrashReplyRoundTrip(memlog: string)
    ensures ResultOfReply(CrashReply(memlog)) == CompileResult(None, Some(CrashStatus), Some(memlog))
  {
  }

  // ---------------------------------------------------------------------------
  // The engine run, from the worker's point of view

  /** One thing the engine does, while `ccall("compilePDF")` runs, that the worker scope can see:
      a line through `Module.print` or `Module.printErr`, a file written through `FS`, or a call
      back into `kpse_find_file_impl`, with the clock and the network that call meets. */
  datatype EngineAction =
    | PrintLine(line: string)
    | WriteOut(path: string, data: Bytes)
    | FindFile(reqname: string, format: int, now: int, fetch: string -> Fetch)

  /** How `ccall("compilePDF")` ended: it returned `status`, the engine ended in
      `Module.onAbort`, or the call rejected with `error`. */
  datatype RunEnd = Finished(status: int) | Aborted | Raised(error: string)

  /** A whole engine run: its actions, in order, and how it ended. */
  datatype EngineRun = EngineRun(actions: seq<EngineAction>, ending: RunEnd)

  /** The part of the worker's state an engine run changes: `memlog`, the cache store
      and the file system. */
  datatype Snapshot = Snapshot(memlog: string, store: Store, fs: Fs)

  /** The effect of one engine action; a write that throws is skipped. */
  function Step(s: Snapshot, texliveEndpoint: string, a: EngineAction): Snapshot {
    match a
    case PrintLine(line) => s.(memlog := s.memlog + line + "\n")
    case WriteOut(path, data) => s.(fs := WriteFile(s.fs, path, data).GetOr(s.fs))
    case FindFile(reqname, format, now, fetch) =>
      match NormalizeName(reqname)
      case None => s
      case Some(name) =>
        var r := Resolve(s.store, s.fs, texliveEndpoint, CacheKeyFor(format, name), KpseEndpoint, now, fetch);
        s.(store := r.store, fs := r.fs)
  }

  /** The effect of a sequence of engine actions, in order. */
  function Replay(s: Snapshot, texliveEndpoint: string, actions: seq<EngineAction>): Snapshot
    decreases |actions|
  {
    if actions == [] then s
    else Step(Replay(s, texliveEndpoint, actions[..|actions| - 1]), texliveEndpoint, actions[|actions| - 1])
  }

  /** The text the actions print, each line followed by a newline. */
  function Printed(actions: seq<EngineAction>): string
    decreases |actions|
  {
    if actions == [] then ""
    else
      var last := actions[|actions| - 1];
      Printed(actions[..|actions| - 1]) + (if last.PrintLine? then last.line + "\n" else "")
  }

  /** Whether the engine writes `p` itself at some point of the run. */
  predicate WritesTo(actions: seq<EngineAction>, p: string) {
    exists i :: 0 <= i < |actions| && actions[i].WriteOut? && actions[i].path == p
  }

  /** Whatever the engine does, the log grows by exactly what it printed; the file system
      stays a valid tree with the same directories and no file lost; the store stays keyed
      by cache key, and negative records stay contentless. */
  lemma {:induction false} ReplayKeepsInvariants(s: Snapshot, texliveEndpoint: string, actions: seq<EngineAction>)
    requires MemFs.Valid(s.fs) && KeyedByCacheKey(s.store)
    ensures var r := Replay(s, texliveEndpoint, actions);
            && r.memlog == s.memlog + Printed(actions)
            && MemFs.Valid(r.fs) && r.fs.dirs == s.fs.dirs && r.fs.writeFaults == s.fs.writeFaults
            && s.fs.files.Keys <= r.fs.files.Keys
            && KeyedByCacheKey(r.store) && (NegativesEmpty(s.store) ==> NegativesEmpty(r.store))
    decreases |actions|
  {
    if actions != [] {
      var init := actions[..|actions| - 1];
      ReplayKeepsInvariants(s, texliveEndpoint, init);
      StepKeepsInvariants(Replay(s, texliveEndpoint, init), texliveEndpoint, actions[|actions| - 1]);
    }
  }

  /** A file outside `/tex` that the engine does not write itself reads after the run as it
      did before, however many lookups the run makes. */
  lemma {:induction false} ReplayKeepsOutsideCacheRoot(s: Snapshot, texliveEndpoint: string, actions: seq<EngineAction>, p: string)
    requires !Under(p, TEXCACHEROOT) && !WritesTo(actions, p)
    ensures ReadFile(Replay(s, texliveEndpoint, actions).fs, p) == ReadFile(s.fs, p)
    decreases |actions|
  {
    if actions != [] {
      var init := actions[..|actions| - 1];
      var last := actions[|actions| - 1];
      ReplayKeepsOutsideCacheRoot(s, texliveEndpoint, init, p);
      StepKeepsOutsideCacheRoot(Replay(s, texliveEndpoint, init), texliveEndpoint, last, p);
    }
  }

  lemma StepKeepsOutsideCacheRoot(s: Snapshot, texliveEndpoint: string, a: EngineAction, p: string)
    requires !Under(p, TEXCACHEROOT) && !(a.WriteOut? && a.path == p)
    ensures ReadFile(Step(s, texliveEndpoint, a).fs, p) == ReadFile(s.fs, p)
  {
    if a.FindFile? && NormalizeName(a.reqname).Some? {
      var key := CacheKeyFor(a.format, NormalizeName(a.reqname).value);
      ResolveWritesOnlyCacheRoot(s.store, s.fs, texliveEndpoint, key, KpseEndpoint, a.now, a.fetch);
    }
  }

  /** One action keeps the invariants. */
  lemma StepKeepsInvariants(s: Snapshot, texliveEndpoint: string, a: EngineAction)
    requires MemFs.Valid(s.fs) && KeyedByCacheKey(s.store)
    ensures var r := Step(s, texliveEndpoint, a);
            && r.memlog == s.memlog + (if a.PrintLine? then a.line + "\n" else "")
            && MemFs.Valid(r.fs) && r.fs.dirs == s.fs.dirs && r.fs.writeFaults == s.fs.writeFaults
            && s.fs.files.Keys <= r.fs.files.Keys
            && KeyedByCacheKey(r.store) && (NegativesEmpty(s.store) ==> NegativesEmpty(r.store))
  {
    match a
    case PrintLine(_) =>
    case WriteOut(path, data) =>
      if WriteFile(s.fs, path, data).Some? {
        WriteFileValid(s.fs, path, data);
      }
    case FindFile(reqname, format, now, fetch) =>
      if NormalizeName(reqname).Some? {
        var key := CacheKeyFor(format, NormalizeName(reqname).value);
        ResolvePreservesInvariants(s.store, s.fs, texliveEndpoint, key, KpseEndpoint, now, fetch);
        ResolveWritesOnlyCacheRoot(s.store, s.fs, texliveEndpoint, key, KpseEndpoint, now, fetch);
      }
  }

  /** The state a compilation leaves and the reply it posts. */
  datatype Compiled = Compiled(after: Snapshot, reply: Reply)

  /** What `compilePDFRoutine()` and its `.catch` leave behind when the engine does `run`,
      starting from the store `store` and the file system `fs`: the new snapshot and the
      one reply posted. */
  function CompileOutcome(store: Store, fs: Fs, texliveEndpoint: string, mainfile: string, run: EngineRun): Compiled
  {
    Conclude(Replay(Snapshot("", store, fs), texliveEndpoint, run.actions), mainfile, run.ending)
  }

  /** How `compilePDFRoutine()` ends once the engine's run left the snapshot `s`. */
  function Conclude(s: Snapshot, mainfile: string, ending: RunEnd): Compiled
  {
    match ending
    case Finished(status) =>
      Compiled(s, CompileReply(status, if status == 0 then ReadFile(s.fs, PdfPath(mainfile)) else None, s.memlog))
    case Aborted =>
      var crashed := s.(memlog := s.memlog + "Engine crashed");
      Compiled(crashed, CrashReply(crashed.memlog))
    case Raised(error) =>
      Compiled(s, ExceptionReply(error))
  }

  /** The reply of a compilation: always a `compile` reply, `ok` with the PDF exactly when the
      engine returned 0 and left a file at the PDF path, -254 after an abort, -1 after a
      rejection, and otherwise the engine's status (or -253 for a missing PDF). The log is
      what the engine printed. */
  lemma CompileOutcomeReply(store: Store, fs: Fs, texliveEndpoint: string, mainfile: string, run: EngineRun)
    requires MemFs.Valid(fs) && KeyedByCacheKey(store)
    ensures var c := CompileOutcome(store, fs, texliveEndpoint, mainfile, run);
            var s, reply := c.after, c.reply;
            && reply.cmd == Some("compile")
            && (reply.result == "ok" <==> run.ending == Finished(0) && PdfPath(mainfile) in s.fs.files)
            && (reply.result == "ok" ==> reply.pdf == Some(s.fs.files[PdfPath(mainfile)]))
            && (run.ending.Finished? ==>
                  && s.memlog == Printed(run.actions) && reply.log == Some(s.memlog)
                  && reply.status == Some(if run.ending.status == 0 && PdfPath(mainfile) !in s.fs.files then -253 else run.ending.status))
            && (run.ending.Aborted? ==> s.memlog == Printed(run.actions) + "Engine crashed" && reply.status == Some(-254))
            && (run.ending.Raised? ==> reply.status == Some(-1) && reply.log == Some(run.ending.error))
  {
    ReplayKeepsInvariants(Snapshot("", store, fs), texliveEndpoint, run.actions);
    ConcludeReply(Replay(Snapshot("", store, fs), texliveEndpoint, run.actions), mainfile, run.ending);
  }

  /** The ending alone: the reply for each way the run can end, from whatever state it left. */
  lemma ConcludeReply(s: Snapshot, mainfile: string, ending: RunEnd)
    ensures var c := Conclude(s, mainfile, ending);
            && c.after.fs == s.fs && c.after.store == s.store
            && c.reply.cmd == Some("compile")
            && (c.reply.result == "ok" <==> ending == Finished(0) && PdfPath(mainfile) in s.fs.files)
            && (c.reply.result == "ok" ==> c.reply.pdf == Some(s.fs.files[PdfPath(mainfile)]))
            && (ending.Finished? ==>
                  && c.after.memlog == s.memlog && c.reply.log == Some(s.memlog)
                  && c.reply.status == Some(if ending.status == 0 && PdfPath(mainfile) !in s.fs.files then -253 else ending.status))
            && (ending.Aborted? ==> c.after.memlog == s.memlog + "Engine crashed" && c.reply.status == Some(-254))
            && (ending.Raised? ==> c.reply.status == Some(-1) && c.reply.log == Some(ending.error))
  {
  }

  /** On every ending the engine's writes and lookups persist, and the state stays valid. */
  lemma CompileOutcomeState(store: Store, fs: Fs, texliveEndpoint: string, mainfile: string, run: EngineRun)
    requires MemFs.Valid(fs) && KeyedByCacheKey(store)
    ensures var s := CompileOutcome(store, fs, texliveEndpoint, mainfile, run).after;
            var s0 := Replay(Snapshot("", store, fs), texliveEndpoint, run.actions);
            && s.fs == s0.fs && s.store == s0.store
            && MemFs.Valid(s.fs) && s.fs.dirs == fs.dirs && fs.files.Keys <= s.fs.files.Keys
            && KeyedByCacheKey(s.store) && (NegativesEmpty(store) ==> NegativesEmpty(s.store))
  {
    ReplayKeepsInvariants(Snapshot("", store, fs), texliveEndpoint, run.actions);
    ConcludeReply(Replay(Snapshot("", store, fs), texliveEndpoint, run.actions), mainfile, run.ending);
  }

  // ---------------------------------------------------------------------------
  // Cleaning the working directory

  /** The text of `s` before its first `/`. */
  function FirstSegment(s: string): (r: string)
    ensures r <= s && '/' !in r
    ensures |r| < |s| ==> s[|r|] == '/'
  {
    if s == [] || s[0] == '/' then "" else [s[0]] + FirstSegment(s[1..])
  }

  /** `n` is the first segment of `s` exactly when `s` is `n` or starts with `n + "/"`. */
  lemma {:induction false} FirstSegmentIs(s: string, n: string)
    requires '/' !in n
    ensures FirstSegment(s) == n <==> (s == n || n + "/" <= s)
  {
    var r := FirstSegment(s);
    if s == n || n + "/" <= s {
      FirstSegmentOfPrefix(s, n);
    }
    if r == n && s != n {
      assert |r| < |s|;
      assert s[..|n| + 1] == n + "/";
    }
  }

  lemma {:induction false} FirstSegmentOfPrefix(s: string, n: string)
    requires '/' !in n && (s == n || n + "/" <= s)
    ensures FirstSegment(s) == n
    decreases |n|
  {
    if n != [] {
      assert s[0] == n[0];
      assert s[1..] == n[1..] || n[1..] + "/" <= s[1..];
      FirstSegmentOfPrefix(s[1..], n[1..]);
      assert n == [n[0]] + n[1..];
    }
  }

  /** The name of the entry of `dir` that contains `p`. */
  function Head(dir: string, p: string): (r: string)
    requires Under(p, dir)
    ensures '/' !in r
  {
    FirstSegment(p[|dir| + 1..])
  }

  /** `p` lies in the entry `n` of `dir` exactly when `p` is that entry or is below it. */
  lemma {:induction false} HeadIs(dir: string, p: string, n: string)
    requires Under(p, dir) && '/' !in n
    ensures Head(dir, p) == n <==> (p == dir + "/" + n || Under(p, dir + "/" + n))
  {
    var s := p[|dir| + 1..];
    assert p == dir + "/" + s;
    FirstSegmentIs(s, n);
    assert p == dir + "/" + n <==> s == n;
    assert (dir + "/" + n) + "/" == (dir + "/") + (n + "/");
    if n + "/" <= s {
      assert (dir + "/") + (n + "/") <= (dir + "/") + s;
    }
    if Under(p, dir + "/" + n) {
      assert s[..|n| + 1] == p[|dir| + 1..|dir| + |n| + 2] == n + "/";
    }
  }

  /** The entry of `dir` that contains a node is itself a node. */
  lemma {:induction false} HeadIsNode(fs: Fs, dir: string, p: string)
    requires MemFs.Valid(fs) && IsNode(fs, p) && Under(p, dir)
    ensures IsNode(fs, dir + "/" + Head(dir, p))
  {
    var n := Head(dir, p);
    var c := dir + "/" + n;
    HeadIs(dir, p, n);
    if p != c {
      assert |c| > 0;
      AncestorOfNode(fs, c, p);
    }
  }

  /** Every node below `dir` lies in an entry `FS.readdir(dir)` lists. */
  lemma {:induction false} HeadIsChild(fs: Fs, dir: string, p: string)
    requires MemFs.Valid(fs) && IsNode(fs, p) && Under(p, dir)
    ensures Head(dir, p) in Children(fs, dir)
  {
    var n := Head(dir, p);
    var c := dir + "/" + n;
    HeadIsNode(fs, dir, p);
    ChildPath(dir, n);
    assert c[|dir|] == '/';
    ListedInParent(fs, c);
  }

  /** Whatever a node lies below is a directory. */
  lemma AncestorOfNode(fs: Fs, a: string, p: string)
    requires MemFs.Valid(fs) && IsNode(fs, p) && |a| > 0 && Under(p, a)
    ensures a in fs.dirs
  {
    assert p[..|a|] == a;
    AncestorIsDir(fs, p, |a|);
  }

  /** Whatever has a node below it is a directory: a regular file has nothing below it. */
  lemma AncestorsAreDirs(fs: Fs, a: string)
    requires MemFs.Valid(fs) && |a| > 0
    ensures forall p :: IsNode(fs, p) && Under(p, a) ==> a in fs.dirs
  {
    forall p | IsNode(fs, p) && Under(p, a) ensures a in fs.dirs {
      AncestorOfNode(fs, a, p);
    }
  }

  /** `p` lies in one of the entries `names` of `dir`. */
  predicate Below(p: string, dir: string, names: set<string>) {
    Under(p, dir) && Head(dir, p) in names
  }

  /** `fs` with the entries `names` of `dir` removed, with everything below them. */
  function Trimmed(fs: Fs, dir: string, names: set<string>): Fs {
    fs.(files := map p | p in fs.files && !Below(p, dir, names) :: fs.files[p],
        dirs := set q | q in fs.dirs && !Below(q, dir, names))
  }

  /** `cleanDir(dir)` as a value: everything below `dir` is gone, and so is `dir` unless it
      is the working root; everything else is as it was. */
  function Cleaned(fs: Fs, dir: string): Fs {
    var e := Emptied(fs, dir);
    if dir == WORKROOT then e else e.(dirs := e.dirs - {dir})
  }

  /** `fs` with every node below `dir` removed. */
  function Emptied(fs: Fs, dir: string): Fs {
    fs.(files := map p | p in fs.files && !Under(p, dir) :: fs.files[p],
        dirs := set q | q in fs.dirs && !Under(q, dir))
  }

  /** After `cleanDir(dir)`, `FS.readdir` lists nothing in `dir` but "." and ".."; nodes
      outside `dir` keep their kind and content. */
  lemma CleanedLeavesDirEmpty(fs: Fs, dir: string)
    ensures Children(Cleaned(fs, dir), dir) == {}
    ensures forall p :: p in fs.files && !Under(p, dir) ==> p in Cleaned(fs, dir).files && Cleaned(fs, dir).files[p] == fs.files[p]
    ensures forall q :: q in fs.dirs && !Under(q, dir) && q != dir ==> q in Cleaned(fs, dir).dirs
    ensures dir == WORKROOT && dir in fs.dirs ==> ReadDir(Cleaned(fs, dir), dir) == Some({".", ".."})
  {
    var fs' := Cleaned(fs, dir);
    EmptiedHasNoChildren(fs, dir);
    NothingListedWhenNothingBelow(fs', dir);
    assert {".", ".."} + Children(fs', dir) == {".", ".."};
  }

  /** `flushcache` cleans the working root only: the files and directories the file lookup
      saved below the cache root survive it. */
  lemma FlushKeepsCacheRoot(fs: Fs)
    ensures forall p :: p in fs.files && Under(p, TEXCACHEROOT) ==>
              p in Cleaned(fs, WORKROOT).files && Cleaned(fs, WORKROOT).files[p] == fs.files[p]
    ensures forall q :: q in fs.dirs && (q == TEXCACHEROOT || Under(q, TEXCACHEROOT)) ==> q in Cleaned(fs, WORKROOT).dirs
  {
    forall p | Under(p, TEXCACHEROOT) || p == TEXCACHEROOT
      ensures !Under(p, WORKROOT) && p != WORKROOT
    {
      assert p[1] == 't';
    }
    CleanedLeavesDirEmpty(fs, WORKROOT);
  }

  /** A directory with no node below it lists no entries. */
  lemma NothingListedWhenNothingBelow(fs: Fs, dir: string)
    requires forall p :: IsNode(fs, p) ==> !Under(p, dir)
    ensures Children(fs, dir) == {}
  {
    forall q | q in fs.files.Keys + fs.dirs && '/' in q
      ensures Parent(q) != dir
    {
      if Parent(q) == dir {
        assert q == dir + "/" + LastSegment(q);
        assert Under(q, dir);
      }
    }
  }

  /** The child `path` is not the working root: it has a `/` after its parent's first character. */
  lemma ChildIsNotWorkRoot(dir: string, item: string)
    requires |dir| > 0
    ensures dir + "/" + item != WORKROOT
  {
    var path := dir + "/" + item;
    assert path[|dir|] == '/';
  }

  /** Cleaning the directory entry `item` of `dir` is trimming it. */
  lemma {:induction false} TrimDirStep(fs0: Fs, dir: string, done: set<string>, item: string)
    requires '/' !in item && |dir| > 0 && dir + "/" + item !in fs0.files
    ensures Cleaned(Trimmed(fs0, dir, done), dir + "/" + item) == Trimmed(fs0, dir, done + {item})
  {
    var path := dir + "/" + item;
    ChildIsNotWorkRoot(dir, item);
    var t := Trimmed(fs0, dir, done);
    var a := Cleaned(t, path);
    var b := Trimmed(fs0, dir, done + {item});
    forall p ensures Below(p, dir, done + {item}) <==> Below(p, dir, done) || p == path || Under(p, path) {
      InEntry(dir, item, p);
    }
    assert a.files.Keys == b.files.Keys;
    assert a.files == b.files;
    assert a.dirs == b.dirs;
  }

  /** `p` lies in the entry `item` of `dir` exactly when it is that entry or below it. */
  lemma InEntry(dir: string, item: string, p: string)
    requires '/' !in item
    ensures (Under(p, dir) && Head(dir, p) == item) <==> p == dir + "/" + item || Under(p, dir + "/" + item)
  {
    var path := dir + "/" + item;
    if Under(p, dir) {
      HeadIs(dir, p, item);
    }
    if p == path {
      assert p[..|dir| + 1] == dir + "/";
    }
    if Under(p, path) {
      assert path + "/" == (dir + "/") + (item + "/");
      assert p[..|dir| + 1] == (path + "/")[..|dir| + 1];
      HeadIs(dir, p, item);
    }
  }

  /** Cleaning the directory entry `item` when a file of that name is in the way. */
  lemma {:induction false} TrimFileStep(fs0: Fs, fs: Fs, dir: string, done: set<string>, item: string)
    requires '/' !in item && fs == Trimmed(fs0, dir, done)
    requires dir + "/" + item in fs.files && dir + "/" + item !in fs.dirs
    requires forall p :: IsNode(fs, p) ==> !Under(p, dir + "/" + item)
    ensures fs.(files := fs.files - {dir + "/" + item}) == Trimmed(fs0, dir, done + {item})
  {
    var path := dir + "/" + item;
    var a := fs.(files := fs.files - {path});
    var b := Trimmed(fs0, dir, done + {item});
    forall p ensures Below(p, dir, done + {item}) <==> Below(p, dir, done) || p == path || Under(p, path) {
      InEntry(dir, item, p);
    }
    assert a.files.Keys == b.files.Keys;
    assert a.files == b.files;
    assert a.dirs == b.dirs;
  }

  /** Nothing is left below an emptied directory, and `FS.readdir` lists no entry in it. */
  lemma EmptiedHasNoChildren(fs: Fs, dir: string)
    ensures dir in fs.dirs ==> dir in Emptied(fs, dir).dirs
    ensures Children(Emptied(fs, dir), dir) == {}
  {
    assert !Under(dir, dir);
    NothingListedWhenNothingBelow(Emptied(fs, dir), dir);
  }

  /** Trimming a name that is not an entry of `dir` ("." or "..") changes nothing. */
  lemma {:induction false} TrimNonEntry(fs0: Fs, dir: string, done: set<string>, item: string)
    requires HeadsAreChildren(fs0, dir) && item !in Children(fs0, dir)
    ensures Trimmed(fs0, dir, done + {item}) == Trimmed(fs0, dir, done)
  {
    var a := Trimmed(fs0, dir, done + {item});
    var b := Trimmed(fs0, dir, done);
    assert a.files.Keys == b.files.Keys;
    assert a.files == b.files;
    assert a.dirs == b.dirs;
  }

  /** Once every entry of `dir` is trimmed, nothing below `dir` is left. */
  lemma {:induction false} TrimmedAll(fs0: Fs, dir: string)
    requires HeadsAreChildren(fs0, dir)
    ensures Trimmed(fs0, dir, {".", ".."} + Children(fs0, dir)) == Emptied(fs0, dir)
  {
    var a := Trimmed(fs0, dir, {".", ".."} + Children(fs0, dir));
    var b := Emptied(fs0, dir);
    assert a.files.Keys == b.files.Keys;
    assert a.files == b.files;
    assert a.dirs == b.dirs;
  }

  /** Every node below `dir` lies in an entry `FS.readdir(dir)` lists. */
  ghost predicate HeadsAreChildren(fs: Fs, dir: string) {
    forall p :: IsNode(fs, p) && Under(p, dir) ==> Head(dir, p) in Children(fs, dir)
  }

  lemma HeadsAreChildrenInValid(fs: Fs, dir: string)
    requires MemFs.Valid(fs)
    ensures HeadsAreChildren(fs, dir)
  {
    forall p | IsNode(fs, p) && Under(p, dir) ensures Head(dir, p) in Children(fs, dir) {
      HeadIsChild(fs, dir, p);
    }
  }

  /** While `cleanDir(dir)` works through the entries it listed, an entry not yet
      handled is still a node; when it is a directory, fewer directories lie below it
      than below `dir` at the start. */
  lemma {:induction false} EntryStillPresent(fs0: Fs, fs: Fs, dir: string, done: set<string>, item: string)
    requires MemFs.Valid(fs0) && MemFs.Valid(fs) && dir in fs0.dirs
    requires fs == Trimmed(fs0, dir, done)
    requires item in Children(fs0, dir) && item !in done
    ensures '/' !in item && |dir| > 0
    ensures IsNode(fs, dir + "/" + item)
    ensures dir + "/" + item in fs.files ==>
              dir + "/" + item !in fs.dirs && forall p :: IsNode(fs, p) ==> !Under(p, dir + "/" + item)
    ensures dir + "/" + item in fs.dirs ==>
              && dir + "/" + item !in fs0.files
              && (set q | q in fs.dirs && Under(q, dir + "/" + item)) < (set q | q in fs0.dirs && Under(q, dir))
  {
    var path := dir + "/" + item;
    assert Attached(fs0, dir);
    ChildIsNode(fs0, dir, item);
    InEntry(dir, item, path);
    if path in fs.files {
      assert Attached(fs, path);
      AncestorsAreDirs(fs, path);
    }
    if path in fs.dirs {
      var lhs := set q | q in fs.dirs && Under(q, path);
      var rhs := set q | q in fs0.dirs && Under(q, dir);
      forall q | q in lhs ensures q in rhs {
        InEntry(dir, item, q);
      }
      assert path in rhs && path !in lhs;
    }
  }

  // ---------------------------------------------------------------------------
  // The worker

  /** The worker's global scope: `self.memlog`, `self.mainfile`, `self.texlive_endpoint`,
      the current directory, the file system, the persistent cache, the messages posted
      to the host, and whether the worker closed itself. */
  class WorkerScope {
    var memlog: string
    var mainfile: string
    var texliveEndpoint: string
    var cwd: string
    var fs: Fs
    const cache: FileCache
    var outbox: seq<Reply>
    var closed: bool

    ghost predicate Valid()
      reads this, cache
    {
      && MemFs.Valid(fs)
      && TEXCACHEROOT in fs.dirs && WORKROOT in fs.dirs
      && EndsWithSlash(texliveEndpoint)
      && cache.Valid()
    }

    /** Start-up: the globals' initial values, `preRun` (create `/tex` and `/work`) and
        `postRun` (post the handshake). `writeFaults` are the paths writes will fail on. */
    constructor (cache: FileCache, writeFaults: set<string>)
      requires cache.Valid()
      ensures Valid()
      ensures memlog == "" && mainfile == "main.tex" && texliveEndpoint == "/lib/" && cwd == "/"
      ensures fs == Fs(map[], {TEXCACHEROOT, WORKROOT}, writeFaults)
      ensures this.cache == cache && outbox == [Handshake] && !closed
    {
      memlog := "";
      mainfile := "main.tex";
      texliveEndpoint := "/lib/";
      cwd := "/";
      this.cache := cache;
      closed := false;
      outbox := [];
      new;
      var empty := Fs(map[], {}, writeFaults);
      ChildPath("", "tex");
      ChildPath("", "work");
      assert "" + "/" + "tex" == TEXCACHEROOT && "" + "/" + "work" == WORKROOT;
      MkdirValid(empty, TEXCACHEROOT);
      MkdirValid(Mkdir(empty, TEXCACHEROOT).value, WORKROOT);
      fs := Mkdir(Mkdir(empty, TEXCACHEROOT).value, WORKROOT).value;
      PostRun();
    }

    /** `Module.postRun`: the handshake. */
    method PostRun()
      modifies this`outbox
      ensures outbox == old(outbox) + [Handshake]
    {
      outbox := outbox + [Handshake];
    }

    /** `Module.print` and `Module.printErr`: append a line to the log. */
    method Print(a: string)
      modifies this`memlog
      ensures memlog == old(memlog) + a + "\n"
    {
      memlog := memlog + a + "\n";
    }

    /** `prepareExecutionContext()`: a fresh log, and the working root as current directory. */
    method PrepareExecutionContext()
      modifies this`memlog, this`cwd
      ensures memlog == "" && cwd == WORKROOT
    {
      memlog := "";
      cwd := WORKROOT;
    }

    /** `Module.onAbort`: note the crash in the log and report it. */
    method OnAbort()
      modifies this`memlog, this`outbox
      ensures memlog == old(memlog) + "Engine crashed"
      ensures outbox == old(outbox) + [CrashReply(memlog)]
    {
      memlog := memlog + "Engine crashed";
      outbox := outbox + [CrashReply(memlog)];
    }

    /** `compilePDFRoutine()` run to its end, with its `.catch` in the dispatcher: the
        engine's actions take effect in order, and then exactly one `compile` reply is posted. */
    method CompilePdfRoutine(run: EngineRun)
      requires Valid()
      modifies this`memlog, this`cwd, this`fs, this`outbox, cache
      ensures Valid()
      ensures cwd == WORKROOT
      ensures var c := CompileOutcome(old(cache.store), old(fs), texliveEndpoint, mainfile, run);
              Snapshot(memlog, cache.store, fs) == c.after && outbox == old(outbox) + [c.reply]
    {
      PrepareExecutionContext();
      RunEngine(run.actions);
      match run.ending
      case Raised(error) =>
        outbox := outbox + [ExceptionReply(error)];
      case Aborted =>
        OnAbort();
      case Finished(status) =>
        if status == 0 {
          var pdfurl := PdfPath(mainfile);
          var pdf := ReadFile(fs, pdfurl);
          outbox := outbox + [CompileReply(status, pdf, memlog)];
        } else {
          outbox := outbox + [CompileReply(status, None, memlog)];
        }
    }

    /** `ccall("compilePDF")` as the worker scope sees it: each print, write and file lookup
        of the engine in turn. */
    method RunEngine(actions: seq<EngineAction>)
      requires Valid()
      modifies this`memlog, this`fs, cache
      ensures Valid()
      ensures Snapshot(memlog, cache.store, fs) == Replay(Snapshot(old(memlog), old(cache.store), old(fs)), texliveEndpoint, actions)
    {
      ghost var s0 := Snapshot(memlog, cache.store, fs);
      for i := 0 to |actions|
        invariant Valid()
        invariant Snapshot(memlog, cache.store, fs) == Replay(s0, texliveEndpoint, actions[..i])
      {
        assert actions[..i + 1][..i] == actions[..i];
        match actions[i]
        case PrintLine(line) =>
          Print(line);
        case WriteOut(path, data) =>
          var written := WriteFile(fs, path, data);
          if written.Some? {
            WriteFileValid(fs, path, data);
            fs := written.value;
          }
        case FindFile(reqname, format, now, fetch) =>
          var path, fetched := KpseFindFile(reqname, format, now, fetch);
      }
      assert actions[..|actions|] == actions;
    }

    /** `mkdirRoutine(dirname)`: create `/work/<dirname>` and acknowledge. */
    method MkdirRoutine(dirname: string)
      requires Valid()
      modifies this`fs, this`outbox
      ensures Valid()
      ensures var made := Mkdir(old(fs), WORKROOT + "/" + dirname);
              && fs == made.GetOr(old(fs))
              && outbox == old(outbox) + [AckReply(made.Some?, "mkdir")]
    {
      var made := Mkdir(fs, WORKROOT + "/" + dirname);
      if made.Some? {
        MkdirValid(fs, WORKROOT + "/" + dirname);
        fs := made.value;
        outbox := outbox + [AckReply(true, "mkdir")];
      } else {
        outbox := outbox + [AckReply(false, "mkdir")];
      }
    }

    /** `writeFileRoutine(filename, content)`: write `/work/<filename>` and acknowledge
        whether `FS.writeFile` returned. */
    method WriteFileRoutine(filename: string, content: Source)
      requires Valid()
      modifies this`fs, this`outbox
      ensures Valid()
      ensures var written := WriteSource(old(fs), WORKROOT + "/" + filename, content);
              fs == written.1 && outbox == old(outbox) + [AckReply(written.0, "writefile")]
    {
      var (ok, written) := WriteSource(fs, WORKROOT + "/" + filename, content);
      WriteSourceValid(fs, WORKROOT + "/" + filename, content);
      fs := written;
      if ok {
        outbox := outbox + [AckReply(true, "writefile")];
      } else {
        outbox := outbox + [AckReply(false, "writefile")];
      }
    }

    /** `setTexliveEndpoint(url)`: an empty (falsy) url changes nothing. */
    method SetTexliveEndpoint(url: string)
      modifies this`texliveEndpoint
      ensures url == "" ==> texliveEndpoint == old(texliveEndpoint)
      ensures url != "" ==> texliveEndpoint == EndpointWithSlash(url)
    {
      if url != "" {
        texliveEndpoint := EndpointWithSlash(url);
      }
    }

    /** `cleanDir(dir)`: remove everything below `dir`, depth first, and `dir` itself
        unless it is the working root. The entries are taken in any order. */
    method CleanDir(dir: string)
      requires MemFs.Valid(fs) && dir in fs.dirs
      modifies this`fs
      ensures MemFs.Valid(fs)
      ensures fs == Cleaned(old(fs), dir)
      decreases set q | q in fs.dirs && Under(q, dir), 1
    {
      ghost var fs0 := fs;
      var l := ReadDir(fs, dir).value;
      var pending := l;
      ghost var done: set<string> := {};
      assert fs == Trimmed(fs0, dir, done);
      HeadsAreChildrenInValid(fs0, dir);
      ChildrenAreGoodNames(fs0, dir);
      while pending != {}
        invariant pending !! done && pending + done == l
        invariant MemFs.Valid(fs)
        invariant fs == Trimmed(fs0, dir, done)
        decreases pending
      {
        var item :| item in pending;
        pending := pending - {item};
        CleanEntry(fs0, dir, done, item);
        done := done + {item};
      }
      TrimmedAll(fs0, dir);
      EmptiedHasNoChildren(fs0, dir);
      if dir != WORKROOT {
        RmdirValid(fs, dir);
        fs := Rmdir(fs, dir).value;
      }
    }

    /** One turn of `cleanDir`'s loop: skip "." and "..", clean a directory entry
        recursively, unlink a file entry. `fs0` is the file system `cleanDir(dir)`
        started from and `done` the entries already handled. */
    method CleanEntry(ghost fs0: Fs, dir: string, ghost done: set<string>, item: string)
      requires MemFs.Valid(fs0) && MemFs.Valid(fs) && dir in fs0.dirs && HeadsAreChildren(fs0, dir)
      requires "." !in Children(fs0, dir) && ".." !in Children(fs0, dir)
      requires fs == Trimmed(fs0, dir, done)
      requires item in {".", ".."} + Children(fs0, dir) && item !in done
      modifies this`fs
      ensures MemFs.Valid(fs) && fs == Trimmed(fs0, dir, done + {item})
      decreases set q | q in fs0.dirs && Under(q, dir), 0
    {
      if item == "." || item == ".." {
        TrimNonEntry(fs0, dir, done, item);
      } else {
        var path := dir + "/" + item;
        EntryStillPresent(fs0, fs, dir, done, item);
        var st := Stat(fs, path);
        if st == Some(Directory) {
          TrimDirStep(fs0, dir, done, item);
          CleanDir(path);
        } else {
          UnlinkEntry(fs0, dir, done, item);
        }
      }
    }

    /** The file entry `item` of `dir` is unlinked. */
    method UnlinkEntry(ghost fs0: Fs, dir: string, ghost done: set<string>, item: string)
      requires MemFs.Valid(fs) && fs == Trimmed(fs0, dir, done) && '/' !in item
      requires dir + "/" + item in fs.files && dir + "/" + item !in fs.dirs
      requires forall p :: IsNode(fs, p) ==> !Under(p, dir + "/" + item)
      modifies this`fs
      ensures MemFs.Valid(fs) && fs == Trimmed(fs0, dir, done + {item})
    {
      var path := dir + "/" + item;
      TrimFileStep(fs0, fs, dir, done, item);
      UnlinkValid(fs, path);
      fs := Unlink(fs, path).value;
    }

    /** `kpse_find_file_impl(nameptr, format, mustexist)`: the path the engine is to open,
        or `None` for 0, and the URL fetched, if any. */
    method KpseFindFile(reqname: string, format: int, now: int, fetch: string -> Fetch)
      returns (path: Option<string>, fetched: Option<string>)
      requires Valid()
      modifies this`fs, cache
      ensures Valid()
      ensures NormalizeName(reqname).None? ==>
                path.None? && fetched.None? && fs == old(fs) && cache.store == old(cache.store)
      ensures NormalizeName(reqname).Some? ==>
                Resolution(path, fetched, cache.store, fs)
                  == Resolve(old(cache.store), old(fs), texliveEndpoint,
                             CacheKeyFor(format, NormalizeName(reqname).value), KpseEndpoint, now, fetch)
      ensures path.Some? ==> path.value == TEXCACHEROOT + "/" + NormalizeName(reqname).value && path.value in fs.files
    {
      var name := NormalizeName(reqname);
      if name.None? {
        return None, None;
      }
      var cacheKey := CacheKeyFor(format, name.value);
      ResolvePreservesInvariants(cache.store, fs, texliveEndpoint, cacheKey, KpseEndpoint, now, fetch);
      ResolvedPathUnderCacheRoot(cache.store, fs, texliveEndpoint, cacheKey, KpseEndpoint, now, fetch);
      CacheKeyForParts(format, name.value, format, name.value);
      path, fs, fetched := cache.DownloadAndCacheFile(fs, texliveEndpoint, cacheKey, KpseEndpoint, now, fetch);
    }

    /** `self.onmessage`: dispatch on `cmd`. `run` is what the engine does if the command
        starts a compilation. The worker receives no message after it closed itself. */
    method OnMessage(data: Command, run: EngineRun)
      requires Valid() && !closed
      modifies this`memlog, this`cwd, this`fs, this`outbox, this`mainfile, this`texliveEndpoint, this`closed, cache
      ensures Valid()
      ensures closed <==> data.cmd == "grace"
      ensures data.cmd == "compilepdf" ==>
                var c := CompileOutcome(old(cache.store), old(fs), old(texliveEndpoint), old(mainfile), run);
                cwd == WORKROOT && Snapshot(memlog, cache.store, fs) == c.after && outbox == old(outbox) + [c.reply]
      ensures data.cmd != "compilepdf" ==> cwd == old(cwd) && memlog == old(memlog) && cache.store == old(cache.store)
      ensures data.cmd == "mkdir" ==>
                var made := Mkdir(old(fs), WORKROOT + "/" + data.url);
                fs == made.GetOr(old(fs)) && outbox == old(outbox) + [AckReply(made.Some?, "mkdir")]
      ensures data.cmd == "writefile" ==>
                var written := WriteSource(old(fs), WORKROOT + "/" + data.url, data.src);
                fs == written.1 && outbox == old(outbox) + [AckReply(written.0, "writefile")]
      ensures data.cmd == "settexliveurl" ==>
                texliveEndpoint == if data.url == "" then old(texliveEndpoint) else EndpointWithSlash(data.url)
      ensures data.cmd != "settexliveurl" ==> texliveEndpoint == old(texliveEndpoint)
      ensures mainfile == if data.cmd == "setmainfile" then data.url else old(mainfile)
      ensures data.cmd == "flushcache" ==> fs == Cleaned(old(fs), WORKROOT)
      ensures data.cmd !in {"compilepdf", "mkdir", "writefile", "flushcache"} ==> fs == old(fs)
      ensures data.cmd !in {"compilepdf", "mkdir", "writefile"} ==> outbox == old(outbox)
    {
      if data.cmd == "compilepdf" {
        CompilePdfRoutine(run);
      } else {
        OnFileCommand(data);
      }
    }

    /** The branches of `self.onmessage` other than `compilepdf`; none of them touches the
        log, the current directory or the cache store. */
    method OnFileCommand(data: Command)
      requires Valid() && !closed && data.cmd != "compilepdf"
      modifies this`fs, this`outbox, this`mainfile, this`texliveEndpoint, this`closed
      ensures Valid()
      ensures closed <==> data.cmd == "grace"
      ensures data.cmd == "mkdir" ==>
                var made := Mkdir(old(fs), WORKROOT + "/" + data.url);
                fs == made.GetOr(old(fs)) && outbox == old(outbox) + [AckReply(made.Some?, "mkdir")]
      ensures data.cmd == "writefile" ==>
                var written := WriteSource(old(fs), WORKROOT + "/" + data.url, data.src);
                fs == written.1 && outbox == old(outbox) + [AckReply(written.0, "writefile")]
      ensures data.cmd == "settexliveurl" ==>
                texliveEndpoint == if data.url == "" then old(texliveEndpoint) else EndpointWithSlash(data.url)
      ensures data.cmd != "settexliveurl" ==> texliveEndpoint == old(texliveEndpoint)
      ensures mainfile == if data.cmd == "setmainfile" then data.url else old(mainfile)
      ensures data.cmd == "flushcache" ==> fs == Cleaned(old(fs), WORKROOT)
      ensures data.cmd !in {"mkdir", "writefile", "flushcache"} ==> fs == old(fs)
      ensures data.cmd !in {"mkdir", "writefile"} ==> outbox == old(outbox)
    {
      var cmd := data.cmd;
      if cmd == "mkdir" {
        MkdirRoutine(data.url);
      } else if cmd == "settexliveurl" {
        SetTexliveEndpoint(data.url);
      } else if cmd == "writefile" {
        WriteFileRoutine(data.url, data.src);
      } else if cmd == "setmainfile" {
        mainfile := data.url;
      } else if cmd == "grace" {
        closed := true;
      } else if cmd == "flushcache" {
        CleanDir(WORKROOT);
        CleanedLeavesDirEmpty(old(fs), WORKROOT);
      }
    }
  }

  /** The bytes `FS.writeFile` stores for the JavaScript value `content`: a string UTF-8
      encoded, a `Uint8Array` as it is; any other value is an unsupported data type. */
  function SourceBytes(content: Source): (r: Option<Bytes>)
    ensures r.Some? <==> content.Text? || content.Uint8Array?
  {
    match content
    case Text(t) => Some(Utf8Encode(t))
    case Uint8Array(v) => Some(v)
    case _ => None
  }

  /** `FS.writeFile(path, content)`: whether it returned, and the file system afterwards.
      The path is opened with `O_CREAT | O_TRUNC` before the data is looked at, so a value
      of an unsupported type throws after leaving an empty file there. */
  function WriteSource(fs: Fs, path: string, content: Source): (r: (bool, Fs))
    ensures r.0 <==> SourceBytes(content).Some? && WriteFile(fs, path, []).Some?
    ensures r.0 ==> ReadFile(r.1, path) == SourceBytes(content)
    ensures !r.0 && WriteFile(fs, path, []).Some? ==> ReadFile(r.1, path) == Some([])
    ensures WriteFile(fs, path, []).None? ==> r.1 == fs
    ensures r.1.dirs == fs.dirs && r.1.writeFaults == fs.writeFaults
    ensures forall q :: q != path ==> ReadFile(r.1, q) == ReadFile(fs, q)
  {
    match WriteFile(fs, path, [])
    case None => (false, fs)
    case Some(truncated) =>
      match SourceBytes(content)
      case None => (false, truncated)
      case Some(data) => (true, WriteFile(truncated, path, data).value)
  }

  /** Writing a source keeps the file system a valid tree, whether or not the write throws. */
  lemma WriteSourceValid(fs: Fs, path: string, content: Source)
    requires MemFs.Valid(fs)
    ensures MemFs.Valid(WriteSource(fs, path, content).1)
  {
    var created := WriteFile(fs, path, []);
    if created.Some? {
      WriteFileValid(fs, path, []);
      if SourceBytes(content).Some? {
        WriteFileValid(created.value, path, SourceBytes(content).value);
      }
    }
  }
}

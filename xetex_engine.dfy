/** The host-side controller of the XeTeX worker (`XeTeXEngine.js`): the status machine
    over `EngineStatus`, the worker's current message and error handlers, the promises
    its async methods returned, and the messages it posted to the worker. */
module XeTeX {
  import opened Common
  import opened Protocol

  const TimeoutMessage: string := "XeTeX Worker initialization timeout"

  /** The `onmessage` handler installed on the current worker: the no-op one, or the one of
      a pending `loadEngine`, `compileLaTeX` or `compileFormat`, with the index of the
      promise it settles. */
  datatype Handler = Discard | AwaitHandshake(promise: nat) | AwaitLatex(promise: nat) | AwaitFormat(promise: nat)

  class XeTeXEngine {
    var status: EngineStatus
    /** Whether `latexWorker` is defined. */
    var worker: bool
    var onmessage: Handler
    /** The promise the current `onerror` handler rejects; `None` for the no-op handler. */
    var onerror: Option<nat>
    /** The promises whose ten-second initialisation timer has not fired yet. */
    var timers: set<nat>
    /** The promise returned by each call of an async method, in call order. */
    var promises: seq<Settlement>
    /** Every message posted to a worker, in order. */
    var posted: seq<Command>

    /** Handlers refer to promises that exist, and a busy engine with a worker is always
        waiting for the `compile` reply of a pending compilation. */
    ghost predicate Valid()
      reads this
    {
      && (!onmessage.Discard? ==> onmessage.promise < |promises|)
      && (onerror.Some? ==> onerror.value < |promises|)
      && (forall t :: t in timers ==> t < |promises|)
      && (status == Busy && worker ==>
            (onmessage.AwaitLatex? || onmessage.AwaitFormat?) && promises[onmessage.promise].Pending?)
    }

    /** `new XeTeXEngine()`. */
    constructor ()
      ensures Valid()
      ensures status == Init && !worker && onmessage == Discard && onerror.None?
      ensures timers == {} && promises == [] && posted == []
    {
      status := Init;
      worker := false;
      onmessage := Discard;
      onerror := None;
      timers := {};
      promises := [];
      posted := [];
    }

    /** Resolve or reject promise `p`; a settled promise stays as it is. */
    method SettlePromise(p: nat, outcome: Settlement)
      requires p < |promises| && !outcome.Pending?
      modifies this`promises
      ensures promises == old(promises)[p := Settle(old(promises)[p], outcome)]
    {
      promises := promises[p := Settle(promises[p], outcome)];
    }

    /** `loadEngine()`: with a worker already present the returned promise is rejected
        and nothing else changes; otherwise a new worker is started in status `Init`,
        with the handshake handlers and the timeout armed. */
    method LoadEngine() returns (p: nat)
      requires Valid()
      modifies this
      ensures Valid()
      ensures p == |old(promises)| && posted == old(posted)
      ensures old(worker) ==>
                && promises == old(promises) + [Rejected(Some(RunningMessage))]
                && status == old(status) && worker && onmessage == old(onmessage)
                && onerror == old(onerror) && timers == old(timers)
      ensures !old(worker) ==>
                && promises == old(promises) + [Pending]
                && status == Init && worker && onmessage == AwaitHandshake(p)
                && onerror == Some(p) && timers == old(timers) + {p}
    {
      p := |promises|;
      if worker {
        promises := promises + [Rejected(Some(RunningMessage))];
        return;
      }
      status := Init;
      promises := promises + [Pending];
      worker := true;
      onmessage := AwaitHandshake(p);
      onerror := Some(p);
      timers := timers + {p};
    }

    /** The current worker posts `msg` to the host; the installed handler runs. When it
        resolves the promise of its method, that method's continuation runs at once and
        puts back the no-op handlers. */
    method OnWorkerMessage(msg: Reply)
      requires Valid() && worker
      modifies this`status, this`onmessage, this`onerror, this`promises
      ensures Valid()
      ensures |promises| == |old(promises)|
      ensures old(onmessage).Discard? ==>
                status == old(status) && onmessage == old(onmessage) && onerror == old(onerror) && promises == old(promises)
      ensures old(onmessage).AwaitHandshake? ==>
                var p := old(onmessage).promise;
                if msg.result == "ok" then
                  && status == Ready
                  && promises == old(promises)[p := Settle(old(promises)[p], Fulfilled(None))]
                  && (onmessage, onerror) == if old(promises)[p].Pending? then (Discard, None) else (old(onmessage), old(onerror))
                else
                  && status == Error
                  && promises == old(promises)[p := Settle(old(promises)[p], Rejected(None))]
                  && onmessage == old(onmessage) && onerror == old(onerror)
      ensures old(onmessage).AwaitLatex? || old(onmessage).AwaitFormat? ==>
                onerror == old(onerror) && (status == if IsCompileReply(msg) then Ready else old(status))
      ensures old(onmessage).AwaitLatex? ==>
                var p := old(onmessage).promise;
                if IsCompileReply(msg) then
                  && promises == old(promises)[p := Settle(old(promises)[p], Fulfilled(Some(ResultOfReply(msg))))]
                  && onmessage == if old(promises)[p].Pending? then Discard else old(onmessage)
                else
                  promises == old(promises) && onmessage == old(onmessage)
      ensures old(onmessage).AwaitFormat? ==>
                var p := old(onmessage).promise;
                if IsCompileReply(msg) && msg.result == "ok" then
                  && promises == old(promises)[p := Settle(old(promises)[p], Fulfilled(None))]
                  && onmessage == if old(promises)[p].Pending? then Discard else old(onmessage)
                else if IsCompileReply(msg) then
                  promises == old(promises)[p := Settle(old(promises)[p], Rejected(msg.log))] && onmessage == old(onmessage)
                else
                  promises == old(promises) && onmessage == old(onmessage)
    {
      match onmessage
      case Discard =>
      case AwaitHandshake(p) =>
        if msg.result == "ok" {
          status := Ready;
          var resumes := promises[p].Pending?;
          SettlePromise(p, Fulfilled(None));
          if resumes {
            onmessage := Discard;
            onerror := None;
          }
        } else {
          status := Error;
          SettlePromise(p, Rejected(None));
        }
      case AwaitLatex(p) =>
        if IsCompileReply(msg) {
          status := Ready;
          var niceReport := ResultOfReply(msg);
          var resumes := promises[p].Pending?;
          SettlePromise(p, Fulfilled(Some(niceReport)));
          if resumes {
            onmessage := Discard;
          }
        }
      case AwaitFormat(p) =>
        if IsCompileReply(msg) {
          status := Ready;
          if msg.result == "ok" {
            var resumes := promises[p].Pending?;
            SettlePromise(p, Fulfilled(None));
            if resumes {
              onmessage := Discard;
            }
          } else {
            SettlePromise(p, Rejected(msg.log));
          }
        }
    }

    /** The current worker raises an error event. */
    method OnWorkerError()
      requires Valid() && worker
      modifies this`status, this`promises
      ensures Valid()
      ensures old(onerror).None? ==> status == old(status) && promises == old(promises)
      ensures old(onerror).Some? ==>
                && status == Error
                && promises == old(promises)[old(onerror).value := Settle(old(promises)[old(onerror).value], Rejected(None))]
    {
      if onerror.Some? {
        status := Error;
        SettlePromise(onerror.value, Rejected(None));
      }
    }

    /** The initialisation timer of `loadEngine`'s promise `p` fires: it rejects `p` only
        while the status is still `Init`, and never changes the status. */
    method OnTimeout(p: nat)
      requires Valid() && p in timers
      modifies this`timers, this`promises
      ensures Valid()
      ensures timers == old(timers) - {p}
      ensures status == Init ==> promises == old(promises)[p := Settle(old(promises)[p], Rejected(Some(TimeoutMessage)))]
      ensures status != Init ==> promises == old(promises)
    {
      timers := timers - {p};
      if status == Init {
        SettlePromise(p, Rejected(Some(TimeoutMessage)));
      }
    }

    /** `isReady()`. */
    method IsReady() returns (r: bool)
      ensures r <==> status == Ready
    {
      r := status == Ready;
    }

    /** `checkEngineStatus()`: throws unless the engine is ready. */
    method CheckEngineStatus() returns (r: Outcome)
      ensures r.Pass? <==> status == Ready
      ensures r.Fail? ==> r.error == NotReadyMessage
    {
      var ready := IsReady();
      if !ready {
        return Fail(NotReadyMessage);
      }
      return Pass;
    }

    /** `compileLaTeX()`: unless ready, the promise is rejected; otherwise the status
        becomes `Busy` and, with a worker, the compile handler is installed and
        `compilelatex` posted. Its `compile` reply fulfils the promise with the report.
        Without a worker, installing the handler throws: the promise is rejected and the
        status stays `Busy`. */
    method CompileLaTeX() returns (p: nat)
      requires Valid()
      modifies this`status, this`onmessage, this`promises, this`posted
      ensures Valid()
      ensures p == |old(promises)|
      ensures old(status) != Ready ==>
                && promises == old(promises) + [Rejected(Some(NotReadyMessage))]
                && status == old(status) && onmessage == old(onmessage) && posted == old(posted)
      ensures old(status) == Ready && worker ==>
                && promises == old(promises) + [Pending]
                && status == Busy && onmessage == AwaitLatex(p) && posted == old(posted) + [Cmd("compilelatex")]
      ensures old(status) == Ready && !worker ==>
                && promises == old(promises) + [Rejected(None)]
                && status == Busy && onmessage == old(onmessage) && posted == old(posted)
    {
      p := |promises|;
      var check := CheckEngineStatus();
      if check.Fail? {
        promises := promises + [Rejected(Some(check.error))];
        return;
      }
      status := Busy;
      if !worker {
        // `this.latexWorker.onmessage = ...` throws a TypeError inside the promise executor.
        promises := promises + [Rejected(None)];
        return;
      }
      promises := promises + [Pending];
      onmessage := AwaitLatex(p);
      posted := posted + [Cmd("compilelatex")];
    }

    /** `compileFormat()`: as `compileLaTeX()`, with `compileformat`; its `compile` reply
        fulfils the promise on `ok` and rejects it with the log otherwise. */
    method CompileFormat() returns (p: nat)
      requires Valid()
      modifies this`status, this`onmessage, this`promises, this`posted
      ensures Valid()
      ensures p == |old(promises)|
      ensures old(status) != Ready ==>
                && promises == old(promises) + [Rejected(Some(NotReadyMessage))]
                && status == old(status) && onmessage == old(onmessage) && posted == old(posted)
      ensures old(status) == Ready && worker ==>
                && promises == old(promises) + [Pending]
                && status == Busy && onmessage == AwaitFormat(p) && posted == old(posted) + [Cmd("compileformat")]
      ensures old(status) == Ready && !worker ==>
                && promises == old(promises) + [Rejected(None)]
                && status == Busy && onmessage == old(onmessage) && posted == old(posted)
    {
      p := |promises|;
      var check := CheckEngineStatus();
      if check.Fail? {
        promises := promises + [Rejected(Some(check.error))];
        return;
      }
      status := Busy;
      if !worker {
        // `this.latexWorker.onmessage = ...` throws a TypeError inside the promise executor.
        promises := promises + [Rejected(None)];
        return;
      }
      promises := promises + [Pending];
      onmessage := AwaitFormat(p);
      posted := posted + [Cmd("compileformat")];
    }

    /** Post `cmd` to the current worker, if there is one. */
    method PostIfWorker(cmd: Command)
      modifies this`posted
      ensures posted == if worker then old(posted) + [cmd] else old(posted)
    {
      if worker {
        posted := posted + [cmd];
      }
    }

    /** `setEngineMainFile(filename)`. */
    method SetEngineMainFile(filename: string) returns (r: Outcome)
      modifies this`posted
      ensures r.Pass? <==> status == Ready
      ensures r.Fail? ==> r.error == NotReadyMessage
      ensures posted == if r.Pass? && worker then old(posted) + [CmdUrl("setmainfile", filename)] else old(posted)
    {
      r := CheckEngineStatus();
      if r.Pass? {
        PostIfWorker(CmdUrl("setmainfile", filename));
      }
    }

    /** `writeMemFSFile(filename, srccode)`: the source is posted as it is. */
    method WriteMemFSFile(filename: string, srccode: Source) returns (r: Outcome)
      modifies this`posted
      ensures r.Pass? <==> status == Ready
      ensures r.Fail? ==> r.error == NotReadyMessage
      ensures posted == if r.Pass? && worker then old(posted) + [Command("writefile", filename, srccode)] else old(posted)
    {
      r := CheckEngineStatus();
      if r.Pass? {
        PostIfWorker(Command("writefile", filename, srccode));
      }
    }

    /** `makeMemFSFolder(folder)`: the names "" and "/" are not posted. */
    method MakeMemFSFolder(folder: string) returns (r: Outcome)
      modifies this`posted
      ensures r.Pass? <==> status == Ready
      ensures r.Fail? ==> r.error == NotReadyMessage
      ensures posted == if r.Pass? && worker && folder != "" && folder != "/"
                        then old(posted) + [CmdUrl("mkdir", folder)] else old(posted)
    {
      r := CheckEngineStatus();
      if r.Pass? && worker {
        if folder == "" || folder == "/" {
          return;
        }
        posted := posted + [CmdUrl("mkdir", folder)];
      }
    }

    /** `flushCache()`. */
    method FlushCache() returns (r: Outcome)
      modifies this`posted
      ensures r.Pass? <==> status == Ready
      ensures r.Fail? ==> r.error == NotReadyMessage
      ensures posted == if r.Pass? && worker then old(posted) + [Cmd("flushcache")] else old(posted)
    {
      r := CheckEngineStatus();
      if r.Pass? {
        PostIfWorker(Cmd("flushcache"));
      }
    }

    /** `setTexliveEndpoint(url)`: no readiness check. */
    method SetTexliveEndpoint(url: string)
      modifies this`posted
      ensures posted == if worker then old(posted) + [CmdUrl("settexliveurl", url)] else old(posted)
    {
      PostIfWorker(CmdUrl("settexliveurl", url));
    }

    /** `closeWorker()`: ask the worker to close and forget it; the status is kept, so a
        later `loadEngine` may start a new worker. */
    method CloseWorker()
      requires Valid()
      modifies this`posted, this`worker
      ensures Valid()
      ensures !worker
      ensures posted == if old(worker) then old(posted) + [Cmd("grace")] else old(posted)
    {
      if worker {
        posted := posted + [Cmd("grace")];
        worker := false;
      }
    }
  }

  /** A whole session: a new engine loads, its worker shakes hands before the timer fires,
      and a compilation's `compile` reply fulfils the compile promise with the report
      built from that reply; the late timer no longer rejects anything. */
  method LoadAndCompile(reply: Reply) returns (e: XeTeXEngine, load: nat, compile: nat)
    requires IsCompileReply(reply)
    ensures fresh(e) && e.Valid()
    ensures e.promises == [Fulfilled(None), Fulfilled(Some(ResultOfReply(reply)))]
    ensures load == 0 && compile == 1
    ensures e.status == Ready && e.worker && e.onmessage == Discard && e.onerror.None? && e.timers == {}
    ensures e.posted == [Cmd("compilelatex")]
  {
    e := new XeTeXEngine();
    load := e.LoadEngine();
    e.OnWorkerMessage(Handshake);
    compile := e.CompileLaTeX();
    e.OnWorkerMessage(reply);
    e.OnTimeout(load);
  }
}

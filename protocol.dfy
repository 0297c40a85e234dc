/** The messages exchanged between an engine controller (host side) and its worker,
    and the types both engine controllers declare: `EngineStatus` and `CompileResult`. */
module Protocol {
  import opened Common

  datatype EngineStatus = Init | Ready | Busy | Error

  /** The JavaScript value passed as the `src` of a `writefile` command. */
  datatype Source = Undefined | Text(text: string) | ArrayBuffer(buffer: Bytes) | Uint8Array(view: Bytes)

  /** A host-to-worker message `{cmd, url, src}`; a command without a `url` or `src`
      carries "" and `Undefined` there. */
  datatype Command = Command(cmd: string, url: string, src: Source)

  function Cmd(cmd: string): Command {
    Command(cmd, "", Undefined)
  }

  function CmdUrl(cmd: string, url: string): Command {
    Command(cmd, url, Undefined)
  }

  /** A worker-to-host message `{result, cmd?, status?, log?, pdf?}`.
      The start-up handshake is `{result: 'ok'}` and carries no `cmd`. */
  datatype Reply = Reply(result: string, cmd: Option<string>, status: Option<int>, log: Option<string>, pdf: Option<Bytes>)

  const Handshake: Reply := Reply("ok", None, None, None, None)

  /** The status the worker reports when the engine crashed. */
  const CrashStatus: int := -254

  /** `CompileResult`: `status` and `log` hold whatever the reply carried (possibly undefined). */
  datatype CompileResult = CompileResult(pdf: Option<Bytes>, status: Option<int>, log: Option<string>)

  /** `new CompileResult()`. */
  function NewCompileResult(): (r: CompileResult)
    ensures r.pdf.None? && r.status == Some(CrashStatus) && r.log == Some("No log")
  {
    CompileResult(None, Some(-254), Some("No log"))
  }

  /** Replies the compile handlers act on; all others are ignored while compiling. */
  predicate IsCompileReply(msg: Reply) {
    msg.cmd == Some("compile")
  }

  /** The report a compile handler builds from the worker's `compile` reply: a fresh
      `CompileResult` whose status and log are overwritten by the reply's, with a pdf
      (`new Uint8Array(data.pdf)`, empty when the reply has none) only on `result === 'ok'`. */
  function ResultOfReply(msg: Reply): (r: CompileResult)
    ensures r.status == msg.status && r.log == msg.log
    ensures r.pdf.Some? <==> msg.result == "ok"
    ensures r.pdf.Some? ==> r.pdf.value == msg.pdf.GetOr([])
  {
    var report := NewCompileResult().(status := msg.status, log := msg.log);
    if msg.result == "ok" then report.(pdf := Some(msg.pdf.GetOr([]))) else report
  }

  const NotReadyMessage: string := "Engine is still spinning or not ready yet!"
  const RunningMessage: string := "Other instance is running, abort()"

  /** The state of a JavaScript promise returned by an async controller method. */
  datatype Settlement = Pending | Fulfilled(value: Option<CompileResult>) | Rejected(reason: Option<string>)

  /** Resolving or rejecting a promise that has already settled has no effect. */
  function Settle(current: Settlement, outcome: Settlement): (r: Settlement)
    requires !outcome.Pending?
    ensures current.Pending? ==> r == outcome
    ensures !current.Pending? ==> r == current
  {
    if current.Pending? then outcome else current
  }
}

/**
 * The command-line client (`clipto`): the `copy`/`paste` subcommands, the
 * request each sends, and what it makes of the daemon's reply.
 */
module Client {
  import opened Wrappers
  import Ipc

  /** The `--source` values of `clipto copy`. */
  datatype Source = User | Wayland

  datatype Cmd = Copy(source: Source) | Paste

  /** `From<Source> for CopySource`. */
  function ToCopySource(s: Source): Ipc.CopySource
  {
    match s
    case User => Ipc.CopySource.User
    case Wayland => Ipc.CopySource.Wayland
  }

  /** The conversion keeps the two sources apart, and each maps to the tag of the same name. */
  lemma ToCopySourceInjective(a: Source, b: Source)
    ensures ToCopySource(a) == ToCopySource(b) ==> a == b
    ensures ToCopySource(a).User? <==> a.User?
  {
  }

  const DEFAULT_SOURCE := "user"

  /**
   * The value of `copy --source`: the names `user` and `wayland`, with `user`
   * when the option is absent; anything else is rejected.
   */
  function SourceArgument(flag: Option<string>): (r: Option<Source>)
    ensures flag.None? ==> r == Some(User)
    ensures flag == Some("user") ==> r == Some(User)
    ensures flag == Some("wayland") ==> r == Some(Wayland)
    ensures r.Some? <==> flag.None? || flag.value == "user" || flag.value == "wayland"
  {
    var name := if flag.Some? then flag.value else DEFAULT_SOURCE;
    if name == "user" then Some(User)
    else if name == "wayland" then Some(Wayland)
    else None
  }

  /** The request `clipto copy` sends: all of standard input, tagged with its source. */
  function CopyRequest(stdin: Ipc.Bytes, source: Source): (r: Ipc.Request)
    ensures r.Copy? && r.payload == stdin
    ensures r.source == Ipc.CopySource.Wayland <==> source == Wayland
  {
    Ipc.Request.Copy(stdin, ToCopySource(source))
  }

  /** The request a subcommand sends; `paste` sends a bare Paste and reads no input. */
  function RequestFor(cmd: Cmd, stdin: Ipc.Bytes): (r: Ipc.Request)
    ensures r.Paste? <==> cmd.Paste?
    ensures cmd.Copy? ==> r == CopyRequest(stdin, cmd.source)
  {
    match cmd
    case Copy(source) => CopyRequest(stdin, source)
    case Paste => Ipc.Request.Paste
  }

  /**
   * The arm of `main`'s match that the client takes: success with what it
   * writes to standard output, the daemon's error message, a reply of the
   * wrong kind for the command, or a failure to read any reply.
   */
  datatype Verdict =
    | Succeeded(stdout: Ipc.Bytes)
    | DaemonError(message: string)
    | Unexpected(command: string)
    | NoReply(error: Ipc.FrameError)

  /** The process exit status: 0 on success, 1 on every other arm. */
  function ExitCode(o: Verdict): nat
  {
    if o.Succeeded? then 0 else 1
  }

  /** What the client prints on standard error before exiting with 1 (for a daemon or wrong-kind reply). */
  function Diagnostic(o: Verdict): string
  {
    match o
    case DaemonError(message) => "clipd: " + message
    case Unexpected(command) => "clipd: unexpected response to " + command
    case _ => ""
  }

  /** What `clipto copy` makes of the reply it read. */
  function CopyVerdict(reply: Result<Ipc.Response, Ipc.FrameError>): Verdict
  {
    match reply
    case Failure(e) => NoReply(e)
    case Success(Ok) => Succeeded([])
    case Success(Error(message)) => DaemonError(message)
    case Success(_) => Unexpected("Copy")
  }

  /** What `clipto paste` makes of the reply it read. */
  function PasteVerdict(reply: Result<Ipc.Response, Ipc.FrameError>): Verdict
  {
    match reply
    case Failure(e) => NoReply(e)
    case Success(Payload(data)) => Succeeded(data)
    case Success(Error(message)) => DaemonError(message)
    case Success(_) => Unexpected("Paste")
  }

  /** The arm the subcommand's own match takes on the reply. */
  function VerdictFor(cmd: Cmd, reply: Result<Ipc.Response, Ipc.FrameError>): Verdict
  {
    match cmd
    case Copy(_) => CopyVerdict(reply)
    case Paste => PasteVerdict(reply)
  }

  /**
   * `clipto copy` succeeds, printing nothing, exactly when the reply is `Ok`;
   * an `Error` reply exits 1 with its message; a `Payload` reply exits 1 as
   * unexpected.
   */
  lemma CopySucceedsIffOk(reply: Result<Ipc.Response, Ipc.FrameError>)
    ensures ExitCode(CopyVerdict(reply)) == 0 <==> reply == Success(Ipc.Response.Ok)
    ensures CopyVerdict(reply).Succeeded? ==> CopyVerdict(reply).stdout == []
    ensures reply.Success? && reply.value.Error? ==>
      Diagnostic(CopyVerdict(reply)) == "clipd: " + reply.value.message
    ensures CopyVerdict(reply).Unexpected? <==> reply.Success? && reply.value.Payload?
  {
  }

  /**
   * `clipto paste` succeeds exactly on a `Payload` reply and writes exactly
   * its data; `Error` and `Ok` replies both exit 1, the latter as unexpected.
   */
  lemma PasteWritesPayload(reply: Result<Ipc.Response, Ipc.FrameError>, data: Ipc.Bytes)
    ensures PasteVerdict(reply) == Succeeded(data) <==> reply == Success(Ipc.Response.Payload(data))
    ensures ExitCode(PasteVerdict(reply)) == 0 <==> reply.Success? && reply.value.Payload?
    ensures PasteVerdict(reply).Unexpected? <==> reply == Success(Ipc.Response.Ok)
  {
  }
}

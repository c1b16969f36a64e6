/**
 * The client and the daemon together: each client invocation writes one
 * request frame, the daemon serves that connection, and the client reads
 * whatever reply frame comes back.
 */
module System {
  import opened Wrappers
  import opened Ipc
  import opened Daemon
  import Client

  /**
   * One client invocation against the daemon: the daemon's turn on the
   * client's request frame, and the reply the client reads from what the
   * daemon wrote (an unexpected end of file when it wrote nothing).
   */
  function Exchange(cipher: Cipher, wayland: bool, slot: Option<EncryptedBuffer>, wire: Wire,
                    req: Request, nonce: Nonce, wlCopyOk: bool): (Turn, Result<Response, FrameError>)
    requires EncodeFrame(wire.requests, req).Success?
  {
    var t := Serve(cipher, wayland, slot, wire, EncodeFrame(wire.requests, req).value, false, nonce, wlCopyOk);
    (t, ParseFrame(wire.responses, t.written).result)
  }

  /**
   * The client reads exactly the response the daemon chose for its request,
   * and the daemon reads exactly the client's request; when no response can
   * be framed the client sees the connection close.
   */
  lemma ClientReadsDaemonReply(cipher: Cipher, wayland: bool, slot: Option<EncryptedBuffer>, wire: Wire,
                               req: Request, nonce: Nonce, wlCopyOk: bool)
    requires wire.requests.RoundTrips() && wire.responses.RoundTrips()
    requires EncodeFrame(wire.requests, req).Success?
    ensures
      var (t, reply) := Exchange(cipher, wayland, slot, wire, req, nonce, wlCopyOk);
      var step := Dispatch(cipher, wayland, slot, req, nonce, wlCopyOk);
      && t.slot == step.slot
      && t.forwarded == step.forwarded
      && t.consumed == |EncodeFrame(wire.requests, req).value|
      && (if step.reply.Success? && EncodeFrame(wire.responses, step.reply.value).Success?
          then reply == Success(step.reply.value)
          else reply == Failure(UnexpectedEof))
  {
    var frame := EncodeFrame(wire.requests, req).value;
    FrameRoundTrip(wire.requests, req, []);
    assert frame + [] == frame;
    var step := Dispatch(cipher, wayland, slot, req, nonce, wlCopyOk);
    if step.reply.Success? && EncodeFrame(wire.responses, step.reply.value).Success? {
      var answer := EncodeFrame(wire.responses, step.reply.value).value;
      FrameRoundTrip(wire.responses, step.reply.value, []);
      assert answer + [] == answer;
    }
  }

  /**
   * Against this daemon the client's "unexpected response" arms are
   * unreachable: a Copy is never answered with a payload, a Paste never with
   * a bare `Ok`.
   */
  lemma NoUnexpectedReply(cipher: Cipher, wayland: bool, slot: Option<EncryptedBuffer>, wire: Wire,
                          cmd: Client.Cmd, stdin: Bytes, nonce: Nonce, wlCopyOk: bool)
    requires wire.requests.RoundTrips() && wire.responses.RoundTrips()
    requires EncodeFrame(wire.requests, Client.RequestFor(cmd, stdin)).Success?
    ensures
      var reply := Exchange(cipher, wayland, slot, wire, Client.RequestFor(cmd, stdin), nonce, wlCopyOk).1;
      !Client.VerdictFor(cmd, reply).Unexpected?
  {
    var req := Client.RequestFor(cmd, stdin);
    ClientReadsDaemonReply(cipher, wayland, slot, wire, req, nonce, wlCopyOk);
    ReplyKinds(cipher, wayland, slot, req, nonce, wlCopyOk);
  }

  /**
   * `clipto copy` of some input followed by `clipto paste` prints that input
   * again, whatever the clipboard held before, provided the cipher and the
   * serializers behave, the frames fit, and a forward that is attempted
   * succeeds.
   */
  lemma CopyThenPasteRoundTrip(cipher: Cipher, wayland: bool, slot: Option<EncryptedBuffer>, wire: Wire,
                               stdin: Bytes, source: Client.Source, n1: Nonce, n2: Nonce, wlCopyOk: bool)
    requires cipher.aead.Sound()
    requires wire.requests.RoundTrips() && wire.responses.RoundTrips()
    requires EncodeFrame(wire.requests, Client.CopyRequest(stdin, source)).Success?
    requires EncodeFrame(wire.requests, Paste).Success?
    requires EncodeFrame(wire.responses, Response.Ok).Success?
    requires EncodeFrame(wire.responses, Payload(stdin)).Success?
    requires cipher.Encrypt(n1, stdin).Some?
    requires wayland && source == Client.User ==> wlCopyOk
    ensures
      var (copied, copyReply) := Exchange(cipher, wayland, slot, wire, Client.CopyRequest(stdin, source), n1, wlCopyOk);
      var (_, pasteReply) := Exchange(cipher, wayland, copied.slot, wire, Paste, n2, wlCopyOk);
      && Client.CopyVerdict(copyReply) == Client.Succeeded([])
      && Client.PasteVerdict(pasteReply) == Client.Succeeded(stdin)
  {
    var req := Client.CopyRequest(stdin, source);
    ClientReadsDaemonReply(cipher, wayland, slot, wire, req, n1, wlCopyOk);
    CopyThenPaste(cipher, wayland, slot, stdin, req.source, n1, n2, wlCopyOk);
    var copied := Exchange(cipher, wayland, slot, wire, req, n1, wlCopyOk).0;
    ClientReadsDaemonReply(cipher, wayland, copied.slot, wire, Paste, n2, wlCopyOk);
  }

  /**
   * Right after start-up the slot is empty, so `clipto paste` exits 1 with the
   * daemon's "clipboard is empty" message.
   */
  lemma PasteBeforeCopy(cipher: Cipher, wayland: bool, wire: Wire, nonce: Nonce, wlCopyOk: bool)
    requires wire.requests.RoundTrips() && wire.responses.RoundTrips()
    requires EncodeFrame(wire.requests, Paste).Success?
    requires EncodeFrame(wire.responses, Response.Error(EMPTY_CLIPBOARD)).Success?
    ensures
      var reply := Exchange(cipher, wayland, None, wire, Paste, nonce, wlCopyOk).1;
      && Client.PasteVerdict(reply) == Client.DaemonError(EMPTY_CLIPBOARD)
      && Client.ExitCode(Client.PasteVerdict(reply)) == 1
  {
    ClientReadsDaemonReply(cipher, wayland, None, wire, Paste, nonce, wlCopyOk);
  }

  /**
   * A copy the compositor watcher relays (`clipto copy --source wayland`) is
   * stored but never forwarded back to `wl-copy`.
   */
  lemma CompositorCopyNotEchoed(cipher: Cipher, wayland: bool, slot: Option<EncryptedBuffer>, wire: Wire,
                                stdin: Bytes, nonce: Nonce, wlCopyOk: bool)
    requires wire.requests.RoundTrips() && wire.responses.RoundTrips()
    requires EncodeFrame(wire.requests, Client.CopyRequest(stdin, Client.Wayland)).Success?
    ensures
      var t := Exchange(cipher, wayland, slot, wire, Client.CopyRequest(stdin, Client.Wayland), nonce, wlCopyOk).0;
      && t.forwarded.None?
      && t.slot == StoreSlot(cipher, slot, nonce, stdin).slot
  {
    ClientReadsDaemonReply(cipher, wayland, slot, wire, Client.CopyRequest(stdin, Client.Wayland), nonce, wlCopyOk);
  }
}

/**
 * The clipboard daemon (`clipd`): the single encrypted clipboard slot, the
 * loading and checking of the session key at start-up, and the handling of one
 * client connection.
 */
module Daemon {
  import opened Wrappers
  import opened Ipc

  const NONCE_LENGTH := 12
  const KEY_LENGTH := 32

  /** A 96-bit ChaCha20-Poly1305 nonce. */
  type Nonce = s: Bytes | |s| == NONCE_LENGTH witness [0, 0, 0, 0, 0, 0, 0, 0, 0, 0, 0, 0]

  /** A 256-bit session key. */
  type Key = s: Bytes | |s| == KEY_LENGTH
    witness [0, 0, 0, 0, 0, 0, 0, 0, 0, 0, 0, 0, 0, 0, 0, 0, 0, 0, 0, 0, 0, 0, 0, 0, 0, 0, 0, 0, 0, 0, 0, 0]

  // ---------------------------------------------------------------------------
  // The cipher, left abstract
  // ---------------------------------------------------------------------------

  /** An authenticated cipher as a pair of functions; sealing may fail, and opening rejects forgeries. */
  datatype Aead = Aead(seal: (Key, Nonce, Bytes) -> Option<Bytes>, open: (Key, Nonce, Bytes) -> Option<Bytes>)
  {
    /** Opening what was sealed under the same key and nonce gives back the plaintext. */
    ghost predicate Sound() {
      forall k, n, p :: seal(k, n, p).Some? ==> open(k, n, seal(k, n, p).value) == Some(p)
    }
  }

  /** The cipher built from the session key (`ChaCha20Poly1305::new_from_slice`). */
  datatype Cipher = Cipher(key: Key, aead: Aead)
  {
    function Encrypt(nonce: Nonce, plaintext: Bytes): Option<Bytes> {
      aead.seal(key, nonce, plaintext)
    }

    function Decrypt(nonce: Nonce, ciphertext: Bytes): Option<Bytes> {
      aead.open(key, nonce, ciphertext)
    }
  }

  // ---------------------------------------------------------------------------
  // The clipboard slot
  // ---------------------------------------------------------------------------

  /** The one clipboard entry: a nonce and the ciphertext sealed with it. */
  datatype EncryptedBuffer = EncryptedBuffer(nonce: Nonce, ciphertext: Bytes)

  const ENCRYPTION_FAILED := "encryption failed"
  const EMPTY_CLIPBOARD := "clipboard is empty"
  const DECRYPTION_FAILED := "decryption failed"

  /** The outcome of `State::store` and the slot it leaves behind. */
  datatype Stored = Stored(outcome: Outcome<string>, slot: Option<EncryptedBuffer>)

  /**
   * `State::store`: seal the plaintext under the given nonce and put it in the
   * slot, replacing whatever was there; if sealing fails the slot is left as it
   * was.
   */
  function StoreSlot(cipher: Cipher, slot: Option<EncryptedBuffer>, nonce: Nonce, plaintext: Bytes): Stored
  {
    match cipher.Encrypt(nonce, plaintext)
    case None => Stored(Fail(ENCRYPTION_FAILED), slot)
    case Some(ciphertext) => Stored(Pass, Some(EncryptedBuffer(nonce, ciphertext)))
  }

  /** `State::load`: the plaintext of the entry, or why there is none. */
  function LoadSlot(cipher: Cipher, slot: Option<EncryptedBuffer>): Result<Bytes, string>
  {
    match slot
    case None => Failure(EMPTY_CLIPBOARD)
    case Some(entry) =>
      match cipher.Decrypt(entry.nonce, entry.ciphertext)
      case None => Failure(DECRYPTION_FAILED)
      case Some(plaintext) => Success(plaintext)
  }

  /** A successful store can be loaded back, the empty plaintext included. */
  lemma StoreThenLoad(cipher: Cipher, slot: Option<EncryptedBuffer>, nonce: Nonce, plaintext: Bytes)
    requires cipher.aead.Sound()
    ensures StoreSlot(cipher, slot, nonce, plaintext).outcome.Pass? ==>
      LoadSlot(cipher, StoreSlot(cipher, slot, nonce, plaintext).slot) == Success(plaintext)
  {
  }

  /**
   * A store overwrites: what it leaves does not depend on the previous slot,
   * so after two successful stores only the second plaintext is recoverable.
   */
  lemma StoreReplaces(cipher: Cipher, slot: Option<EncryptedBuffer>,
                      n1: Nonce, p1: Bytes, n2: Nonce, p2: Bytes)
    requires cipher.aead.Sound()
    ensures forall other :: StoreSlot(cipher, slot, n2, p2).outcome.Pass? ==>
      StoreSlot(cipher, slot, n2, p2).slot == StoreSlot(cipher, other, n2, p2).slot
    ensures
      var first := StoreSlot(cipher, slot, n1, p1);
      var second := StoreSlot(cipher, first.slot, n2, p2);
      second.outcome.Pass? ==> LoadSlot(cipher, second.slot) == Success(p2)
  {
  }

  /** A store fails exactly when sealing fails, and then it reports so and changes nothing. */
  lemma StoreFailureKeepsSlot(cipher: Cipher, slot: Option<EncryptedBuffer>, nonce: Nonce, plaintext: Bytes)
    ensures StoreSlot(cipher, slot, nonce, plaintext).outcome.Fail? <==> cipher.Encrypt(nonce, plaintext).None?
    ensures StoreSlot(cipher, slot, nonce, plaintext).outcome.Fail? ==>
      StoreSlot(cipher, slot, nonce, plaintext) == Stored(Fail(ENCRYPTION_FAILED), slot)
  {
  }

  /** Loading from the empty slot reports "clipboard is empty"; a full slot never does. */
  lemma LoadEmpty(cipher: Cipher, slot: Option<EncryptedBuffer>)
    ensures LoadSlot(cipher, slot) == Failure(EMPTY_CLIPBOARD) <==> slot.None?
  {
  }

  /**
   * The daemon context shared by all connections: the cipher, the slot, and
   * whether a Wayland session was detected at start-up.
   */
  class State {
    const cipher: Cipher
    var buffer: Option<EncryptedBuffer>
    const wayland: bool

    constructor (cipher: Cipher, wayland: bool)
      ensures this.cipher == cipher && this.wayland == wayland
      ensures buffer == None
    {
      this.cipher := cipher;
      this.wayland := wayland;
      buffer := None;
    }

    method Store(nonce: Nonce, plaintext: Bytes) returns (r: Outcome<string>)
      modifies this`buffer
      ensures Stored(r, buffer) == StoreSlot(cipher, old(buffer), nonce, plaintext)
      ensures r.Pass? && cipher.aead.Sound() ==> LoadSlot(cipher, buffer) == Success(plaintext)
      ensures r.Fail? ==> buffer == old(buffer)
    {
      var sealed := cipher.Encrypt(nonce, plaintext);
      if sealed.None? {
        return Fail(ENCRYPTION_FAILED);
      }
      buffer := Some(EncryptedBuffer(nonce, sealed.value));
      r := Pass;
    }

    method Load() returns (r: Result<Bytes, string>)
      ensures r == LoadSlot(cipher, buffer)
      ensures buffer.None? ==> r == Failure(EMPTY_CLIPBOARD)
    {
      if buffer.None? {
        return Failure(EMPTY_CLIPBOARD);
      }
      var entry := buffer.value;
      var decrypted := cipher.Decrypt(entry.nonce, entry.ciphertext);
      if decrypted.None? {
        r := Failure(DECRYPTION_FAILED);
      } else {
        r := Success(decrypted.value);
      }
    }
  }

  // ---------------------------------------------------------------------------
  // Request dispatch
  // ---------------------------------------------------------------------------

  /** Why a connection ended without an answer; `handle_connection` only logs it. */
  datatype ConnError = Frame(error: FrameError) | SyncFailed

  /**
   * The effect of one request: the slot afterwards, the payload handed to
   * `wl-copy` if it was invoked, and the response chosen, or the error that
   * ended the handler before a response was written.
   */
  datatype Step = Step(slot: Option<EncryptedBuffer>, forwarded: Option<Bytes>, reply: Result<Response, ConnError>)

  /**
   * The match in `handle_connection`. A Copy is stored; after a successful
   * store in a Wayland session a `User` copy is forwarded to `wl-copy`, whose
   * failure (`wlCopyOk` false) propagates out of the handler so that no
   * response is sent. A Paste loads the slot.
   */
  function Dispatch(cipher: Cipher, wayland: bool, slot: Option<EncryptedBuffer>,
                    req: Request, nonce: Nonce, wlCopyOk: bool): Step
  {
    match req
    case Copy(payload, source) =>
      var stored := StoreSlot(cipher, slot, nonce, payload);
      if stored.outcome.Fail? then
        Step(stored.slot, None, Success(Response.Error(stored.outcome.error)))
      else if wayland && source == CopySource.User then
        Step(stored.slot, Some(payload), if wlCopyOk then Success(Response.Ok) else Failure(SyncFailed))
      else
        Step(stored.slot, None, Success(Response.Ok))
    case Paste =>
      match LoadSlot(cipher, slot)
      case Success(data) => Step(slot, None, Success(Payload(data)))
      case Failure(message) => Step(slot, None, Success(Response.Error(message)))
  }

  /**
   * `wl-copy` is invoked exactly when a Copy was stored successfully in a
   * Wayland session and came from the user, and it is given exactly the
   * payload.
   */
  lemma ForwardIff(cipher: Cipher, wayland: bool, slot: Option<EncryptedBuffer>,
                   req: Request, nonce: Nonce, wlCopyOk: bool)
    ensures
      var step := Dispatch(cipher, wayland, slot, req, nonce, wlCopyOk);
      && (step.forwarded.Some? <==>
            req.Copy? && cipher.Encrypt(nonce, req.payload).Some? && wayland && req.source == CopySource.User)
      && (step.forwarded.Some? ==> step.forwarded.value == req.payload)
  {
  }

  /** A Copy whose store fails is answered with the store's error and changes nothing. */
  lemma FailedStoreAnswersError(cipher: Cipher, wayland: bool, slot: Option<EncryptedBuffer>,
                                payload: Bytes, source: CopySource, nonce: Nonce, wlCopyOk: bool)
    requires cipher.Encrypt(nonce, payload).None?
    ensures Dispatch(cipher, wayland, slot, Copy(payload, source), nonce, wlCopyOk) ==
      Step(slot, None, Success(Response.Error(ENCRYPTION_FAILED)))
  {
  }

  /**
   * When forwarding fails after a successful store, the new entry stays
   * stored, but the handler ends with an error instead of an answer.
   */
  lemma FailedForwardKeepsEntry(cipher: Cipher, slot: Option<EncryptedBuffer>, payload: Bytes, nonce: Nonce)
    requires cipher.aead.Sound()
    requires cipher.Encrypt(nonce, payload).Some?
    ensures
      var step := Dispatch(cipher, true, slot, Copy(payload, CopySource.User), nonce, false);
      step.reply == Failure(SyncFailed) && LoadSlot(cipher, step.slot) == Success(payload)
  {
  }

  /**
   * A Copy is only ever answered with `Ok` or `Error`, a Paste with `Payload`
   * or `Error`; a Paste always gets an answer and never changes the slot.
   */
  lemma ReplyKinds(cipher: Cipher, wayland: bool, slot: Option<EncryptedBuffer>,
                   req: Request, nonce: Nonce, wlCopyOk: bool)
    ensures
      var step := Dispatch(cipher, wayland, slot, req, nonce, wlCopyOk);
      && (req.Copy? && step.reply.Success? ==> step.reply.value.Ok? || step.reply.value.Error?)
      && (req.Paste? ==> step.reply.Success? && (step.reply.value.Payload? || step.reply.value.Error?))
      && (req.Paste? ==> step.slot == slot && step.forwarded.None?)
  {
  }

  /**
   * A Copy that is stored and, where it must be forwarded, forwarded, is
   * answered `Ok`, and the Paste after it returns its payload.
   */
  lemma CopyThenPaste(cipher: Cipher, wayland: bool, slot: Option<EncryptedBuffer>,
                      payload: Bytes, source: CopySource, n1: Nonce, n2: Nonce, wlCopyOk: bool)
    requires cipher.aead.Sound()
    requires cipher.Encrypt(n1, payload).Some?
    requires wayland && source == CopySource.User ==> wlCopyOk
    ensures
      var copy := Dispatch(cipher, wayland, slot, Copy(payload, source), n1, wlCopyOk);
      && copy.reply == Success(Response.Ok)
      && Dispatch(cipher, wayland, copy.slot, Paste, n2, wlCopyOk).reply == Success(Payload(payload))
  {
  }

  // ---------------------------------------------------------------------------
  // One connection
  // ---------------------------------------------------------------------------

  /**
   * What one connection does: the slot afterwards, how many input bytes it
   * read, the bytes it wrote back, what it handed to `wl-copy`, and the error
   * it logged in place of an answer.
   */
  datatype Turn = Turn(slot: Option<EncryptedBuffer>, consumed: nat, written: Bytes,
                       forwarded: Option<Bytes>, logged: Option<ConnError>)

  /**
   * `handle_connection` on a stream whose unread bytes are `input`: read one
   * request frame, dispatch it, and write one response frame; any error on
   * the way ends the connection with nothing further written.
   */
  function Serve(cipher: Cipher, wayland: bool, slot: Option<EncryptedBuffer>, wire: Wire,
                 input: Bytes, peerClosed: bool, nonce: Nonce, wlCopyOk: bool): (t: Turn)
    ensures t.consumed <= |input|
  {
    var parsed := ParseFrame(wire.requests, input);
    match parsed.result
    case Failure(e) => Turn(slot, parsed.consumed, [], None, Some(Frame(e)))
    case Success(req) =>
      var step := Dispatch(cipher, wayland, slot, req, nonce, wlCopyOk);
      match step.reply
      case Failure(e) => Turn(step.slot, parsed.consumed, [], step.forwarded, Some(e))
      case Success(response) =>
        match EncodeFrame(wire.responses, response)
        case Failure(e) => Turn(step.slot, parsed.consumed, [], step.forwarded, Some(Frame(e)))
        case Success(frame) =>
          if peerClosed then Turn(step.slot, parsed.consumed, [], step.forwarded, Some(Frame(BrokenPipe)))
          else Turn(step.slot, parsed.consumed, frame, step.forwarded, None)
  }

  /** A request that cannot be read leaves the slot alone and gets no answer. */
  lemma UnreadableRequestChangesNothing(cipher: Cipher, wayland: bool, slot: Option<EncryptedBuffer>, wire: Wire,
                                        input: Bytes, peerClosed: bool, nonce: Nonce, wlCopyOk: bool)
    requires ParseFrame(wire.requests, input).result.Failure?
    ensures
      var t := Serve(cipher, wayland, slot, wire, input, peerClosed, nonce, wlCopyOk);
      t.slot == slot && t.written == [] && t.forwarded.None? && t.logged.Some?
  {
  }

  /**
   * A connection writes at most one frame: either nothing and an error is
   * logged, or exactly one complete response frame with nothing logged.
   */
  lemma {:induction false} AtMostOneResponse(cipher: Cipher, wayland: bool, slot: Option<EncryptedBuffer>, wire: Wire,
                                             input: Bytes, peerClosed: bool, nonce: Nonce, wlCopyOk: bool)
    requires wire.responses.RoundTrips()
    ensures
      var t := Serve(cipher, wayland, slot, wire, input, peerClosed, nonce, wlCopyOk);
      && (t.written == [] <==> t.logged.Some?)
      && (t.written != [] ==>
            var answer := ParseFrame(wire.responses, t.written);
            answer.result.Success? && answer.consumed == |t.written|)
  {
    var t := Serve(cipher, wayland, slot, wire, input, peerClosed, nonce, wlCopyOk);
    var parsed := ParseFrame(wire.requests, input);
    if parsed.result.Success? {
      var step := Dispatch(cipher, wayland, slot, parsed.result.value, nonce, wlCopyOk);
      if step.reply.Success? && EncodeFrame(wire.responses, step.reply.value).Success? && !peerClosed {
        var frame := EncodeFrame(wire.responses, step.reply.value).value;
        FrameRoundTrip(wire.responses, step.reply.value, []);
        assert frame + [] == frame;
      }
    }
  }

  /** The match in `handle_connection`, against the daemon state, with `wl-copy`'s outcome as an oracle. */
  method Respond(state: State, req: Request, nonce: Nonce, wlCopyOk: bool)
    returns (forwarded: Option<Bytes>, reply: Result<Response, ConnError>)
    modifies state`buffer
    ensures Step(state.buffer, forwarded, reply) ==
      Dispatch(state.cipher, state.wayland, old(state.buffer), req, nonce, wlCopyOk)
  {
    forwarded := None;
    match req {
      case Copy(payload, source) =>
        var stored := state.Store(nonce, payload);
        if stored.Fail? {
          reply := Success(Response.Error(stored.error));
          return;
        }
        var shouldSync := state.wayland && source == CopySource.User;
        if shouldSync {
          forwarded := Some(payload);
          if !wlCopyOk {
            reply := Failure(SyncFailed);
            return;
          }
        }
        reply := Success(Response.Ok);
      case Paste =>
        var loaded := state.Load();
        if loaded.Success? {
          reply := Success(Payload(loaded.value));
        } else {
          reply := Success(Response.Error(loaded.error));
        }
    }
  }

  /** `handle_connection` against the daemon state, its stream and the two oracles. */
  method HandleConnection(stream: Stream, state: State, wire: Wire, nonce: Nonce, wlCopyOk: bool)
    returns (forwarded: Option<Bytes>, logged: Option<ConnError>)
    requires stream.Valid()
    modifies stream, state
    ensures stream.Valid()
    ensures
      var t := Serve(state.cipher, state.wayland, old(state.buffer), wire,
                     old(stream.Unread()), stream.peerClosed, nonce, wlCopyOk);
      && state.buffer == t.slot
      && stream.pos == old(stream.pos) + t.consumed
      && stream.output == old(stream.output) + t.written
      && forwarded == t.forwarded
      && logged == t.logged
  {
    var request := ReadFrame(stream, wire.requests);
    if request.Failure? {
      forwarded, logged := None, Some(Frame(request.error));
      assert old(stream.output) + [] == stream.output;
      return;
    }
    var reply;
    forwarded, reply := Respond(state, request.value, nonce, wlCopyOk);
    if reply.Failure? {
      logged := Some(reply.error);
      assert old(stream.output) + [] == stream.output;
      return;
    }
    var written := WriteFrame(stream, wire.responses, reply.value);
    if written.Fail? {
      logged := Some(Frame(written.error));
      assert old(stream.output) + [] == stream.output;
    } else {
      logged := None;
    }
  }

  // ---------------------------------------------------------------------------
  // Start-up: the key and the initial state
  // ---------------------------------------------------------------------------

  const CREDENTIALS_VAR := "CREDENTIALS_DIRECTORY"
  const CREDENTIAL_NAME := "clipto-key"
  const KEY_FILE_VAR := "CLIPTO_KEY_FILE"
  const WAYLAND_VAR := "WAYLAND_DISPLAY"

  /** A file that exists, and whether it can be read. */
  datatype FileStatus = Readable(contents: Bytes) | Unreadable

  datatype StartupError =
    | KeyUnreadable(path: string)
    | NoKey
    | BadKeyLength(length: nat)
    | RuntimeDirUnset

  /** `std::fs::read`: the contents of an existing, readable file. */
  function ReadFile(files: map<string, FileStatus>, path: string): Option<Bytes>
  {
    if path in files && files[path].Readable? then Some(files[path].contents) else None
  }

  /** Reads the key from `path`, naming the path when that fails. */
  function ReadKey(files: map<string, FileStatus>, path: string): Result<Bytes, StartupError>
  {
    match ReadFile(files, path)
    case Some(key) => Success(key)
    case None => Failure(KeyUnreadable(path))
  }

  /**
   * `load_key` over the environment (variables with valid Unicode values)
   * and the file system (the paths that exist): the credential in
   * `$CREDENTIALS_DIRECTORY`, if that is set and the file exists; otherwise
   * the file named by `$CLIPTO_KEY_FILE`; otherwise no key.
   */
  function LoadKey(env: map<string, string>, files: map<string, FileStatus>): Result<Bytes, StartupError>
  {
    if CREDENTIALS_VAR in env && Join(env[CREDENTIALS_VAR], CREDENTIAL_NAME) in files then
      ReadKey(files, Join(env[CREDENTIALS_VAR], CREDENTIAL_NAME))
    else if KEY_FILE_VAR in env then
      ReadKey(files, env[KEY_FILE_VAR])
    else
      Failure(NoKey)
  }

  /**
   * The order in which key sources are tried. A credential file that exists
   * but cannot be read is an error, not a reason to try the next source; a
   * credentials directory without the file falls through.
   */
  lemma KeyPrecedence(env: map<string, string>, files: map<string, FileStatus>)
    ensures CREDENTIALS_VAR in env && Join(env[CREDENTIALS_VAR], CREDENTIAL_NAME) in files ==>
      LoadKey(env, files) == ReadKey(files, Join(env[CREDENTIALS_VAR], CREDENTIAL_NAME))
    ensures !(CREDENTIALS_VAR in env && Join(env[CREDENTIALS_VAR], CREDENTIAL_NAME) in files) && KEY_FILE_VAR in env ==>
      LoadKey(env, files) == ReadKey(files, env[KEY_FILE_VAR])
    ensures LoadKey(env, files) == Failure(NoKey) <==>
      !(CREDENTIALS_VAR in env && Join(env[CREDENTIALS_VAR], CREDENTIAL_NAME) in files) && KEY_FILE_VAR !in env
  {
  }

  /** What `main` settles before it starts serving. */
  datatype Config = Config(key: Key, wayland: bool, socketPath: string)

  /**
   * The decisions `main` takes before serving: load the key, insist on 32
   * bytes, note whether a Wayland session is present, and find the socket
   * path.
   */
  function Startup(env: map<string, string>, files: map<string, FileStatus>): Result<Config, StartupError>
  {
    match LoadKey(env, files)
    case Failure(e) => Failure(e)
    case Success(key) =>
      if |key| != KEY_LENGTH then Failure(BadKeyLength(|key|))
      else
        match SocketPath(env)
        case Failure(_) => Failure(RuntimeDirUnset)
        case Success(path) => Success(Config(key, WAYLAND_VAR in env, path))
  }

  /** Start-up accepts exactly a 32-byte key, and uses the key it loaded. */
  lemma StartupKeyLength(env: map<string, string>, files: map<string, FileStatus>)
    ensures LoadKey(env, files).Success? && |LoadKey(env, files).value| != KEY_LENGTH ==>
      Startup(env, files) == Failure(BadKeyLength(|LoadKey(env, files).value|))
    ensures Startup(env, files).Success? <==>
      LoadKey(env, files).Success? && |LoadKey(env, files).value| == KEY_LENGTH && RUNTIME_DIR_VAR in env
    ensures Startup(env, files).Success? ==>
      && Startup(env, files).value.key == LoadKey(env, files).value
      && (Startup(env, files).value.wayland <==> WAYLAND_VAR in env)
  {
  }

  /** `main` up to serving: fail as `Startup` does, or build the state with an empty slot. */
  method Launch(env: map<string, string>, files: map<string, FileStatus>, aead: Aead)
    returns (r: Result<State, StartupError>)
    ensures Startup(env, files).Failure? ==> r == Failure(Startup(env, files).error)
    ensures Startup(env, files).Success? ==>
      && r.Success?
      && fresh(r.value)
      && r.value.cipher == Cipher(Startup(env, files).value.key, aead)
      && r.value.wayland == Startup(env, files).value.wayland
      && r.value.buffer == None
  {
    var config := Startup(env, files);
    if config.Failure? {
      return Failure(config.error);
    }
    var state := new State(Cipher(config.value.key, aead), config.value.wayland);
    r := Success(state);
  }
}

/**
 * The wire protocol shared by the daemon and the client (the `clipto-ipc` crate):
 * the request/response message set, the path of the daemon's socket, and
 * length-prefixed framing over a serializer that is left abstract.
 */
module Ipc {
  import opened Wrappers

  type u8 = x: int | 0 <= x < 256
  type Bytes = seq<u8>

  /** 2^32, the first length that does not fit in a `u32`. */
  const U32_LIMIT: nat := 0x1_0000_0000
  type u32 = x: int | 0 <= x < 0x1_0000_0000

  // ---------------------------------------------------------------------------
  // Message set
  // ---------------------------------------------------------------------------

  /** Where a copy came from; only a `User` copy is ever forwarded to the compositor. */
  datatype CopySource = User | Wayland

  datatype Request = Copy(payload: Bytes, source: CopySource) | Paste

  datatype Response = Ok | Payload(data: Bytes) | Error(message: string)

  // ---------------------------------------------------------------------------
  // Socket path
  // ---------------------------------------------------------------------------

  const RUNTIME_DIR_VAR := "XDG_RUNTIME_DIR"
  const SOCKET_NAME := "clipto.sock"

  /**
   * `PathBuf::from(dir).join(name)` on Unix: an absolute `name` replaces `dir`;
   * otherwise one separator is put between the two unless `dir` is empty or
   * already ends in one.
   */
  function Join(dir: string, name: string): (p: string)
    ensures |name| > 0 && name[0] == '/' ==> p == name
    ensures !(|name| > 0 && name[0] == '/') ==>
      && |dir| + |name| <= |p| <= |dir| + |name| + 1
      && p[..|dir|] == dir
      && p[|p| - |name|..] == name
    ensures !(|name| > 0 && name[0] == '/') ==>
      (|p| == |dir| + |name| + 1 <==> dir != [] && dir[|dir| - 1] != '/')
    ensures !(|name| > 0 && name[0] == '/') && |p| == |dir| + |name| + 1 ==> p[|dir|] == '/'
  {
    if |name| > 0 && name[0] == '/' then name
    else if dir == [] || dir[|dir| - 1] == '/' then dir + name
    else dir + "/" + name
  }

  /**
   * `socket_path`: the daemon's socket lives directly in `$XDG_RUNTIME_DIR`
   * under the name `clipto.sock`; an unset variable is an error.
   * `env` holds the variables whose values are valid Unicode (`std::env::var`
   * treats any other value as unset).
   */
  function SocketPath(env: map<string, string>): (r: Result<string, string>)
    ensures r.Failure? <==> RUNTIME_DIR_VAR !in env
    ensures r.Failure? ==> r.error == "XDG_RUNTIME_DIR not set"
    ensures r.Success? ==>
      var dir := env[RUNTIME_DIR_VAR];
      r.value == if dir != [] && dir[|dir| - 1] != '/' then dir + "/" + SOCKET_NAME else dir + SOCKET_NAME
  {
    if RUNTIME_DIR_VAR in env then Success(Join(env[RUNTIME_DIR_VAR], SOCKET_NAME))
    else Failure("XDG_RUNTIME_DIR not set")
  }

  // ---------------------------------------------------------------------------
  // Little-endian integers (`u32::to_le_bytes`, `u32::from_le_bytes`)
  // ---------------------------------------------------------------------------

  function Pow256(k: nat): (r: nat)
    ensures r > 0
  {
    if k == 0 then 1 else 256 * Pow256(k - 1)
  }

  /** The `k`-byte little-endian encoding of `n`, least significant byte first. */
  function ToLe(n: nat, k: nat): (b: Bytes)
    requires n < Pow256(k)
    ensures |b| == k
  {
    if k == 0 then [] else [n % 256] + ToLe(n / 256, k - 1)
  }

  /** The number whose little-endian encoding is `b`; it always fits in `|b|` bytes. */
  function FromLe(b: Bytes): (n: nat)
    ensures n < Pow256(|b|)
  {
    if b == [] then 0 else b[0] + 256 * FromLe(b[1..])
  }

  lemma {:induction false} FromLeToLe(n: nat, k: nat)
    requires n < Pow256(k)
    ensures FromLe(ToLe(n, k)) == n
  {
    if k > 0 {
      FromLeToLe(n / 256, k - 1);
      assert ToLe(n, k)[1..] == ToLe(n / 256, k - 1);
    }
  }

  lemma {:induction false} ToLeFromLe(b: Bytes)
    ensures ToLe(FromLe(b), |b|) == b
  {
    if b != [] {
      ToLeFromLe(b[1..]);
      var n := FromLe(b);
      assert n % 256 == b[0];
      assert n / 256 == FromLe(b[1..]);
    }
  }

  /** The 4-byte length header of a frame. */
  function Le32(n: u32): (b: Bytes)
    ensures |b| == 4
  {
    assert Pow256(4) == U32_LIMIT;
    ToLe(n, 4)
  }

  // ---------------------------------------------------------------------------
  // Framing over an abstract serializer (bincode in `clipto-ipc`)
  // ---------------------------------------------------------------------------

  /** A serializer; `serialize` may fail and `deserialize` may reject its input. */
  datatype Codec<!T(!new)> = Codec(serialize: T -> Option<Bytes>, deserialize: Bytes -> Option<T>)
  {
    /** Deserializing what was serialized gives back the message. */
    ghost predicate RoundTrips() {
      forall m :: serialize(m).Some? ==> deserialize(serialize(m).value) == Some(m)
    }
  }

  /** The serializers of the two message types that cross a connection. */
  datatype Wire = Wire(requests: Codec<Request>, responses: Codec<Response>)

  datatype FrameError =
    | SerializationFailed
    | FrameTooLarge
    | UnexpectedEof
    | BrokenPipe
    | DeserializationFailed

  /**
   * The bytes `write_frame` emits for `msg`: the serialized length as a
   * little-endian `u32`, then the serialized bytes. A serialization that does
   * not fit in a `u32` is refused as "frame too large".
   */
  function EncodeFrame<T(!new)>(codec: Codec<T>, msg: T): (r: Result<Bytes, FrameError>)
    ensures r.Success? <==> codec.serialize(msg).Some? && |codec.serialize(msg).value| < U32_LIMIT
    ensures codec.serialize(msg).None? ==> r == Failure(SerializationFailed)
    ensures codec.serialize(msg).Some? && |codec.serialize(msg).value| >= U32_LIMIT ==>
      r == Failure(FrameTooLarge)
    ensures r.Success? ==>
      && |r.value| >= 4
      && FromLe(r.value[..4]) == |r.value| - 4
      && r.value[4..] == codec.serialize(msg).value
  {
    match codec.serialize(msg)
    case None => Failure(SerializationFailed)
    case Some(bytes) =>
      if |bytes| < U32_LIMIT then
        var header := Le32(|bytes|);
        FromLeToLe(|bytes|, 4);
        assert (header + bytes)[..4] == header;
        Success(header + bytes)
      else
        Failure(FrameTooLarge)
  }

  /** What reading one frame from a byte stream gives, and how many bytes it takes. */
  datatype Parsed<T> = Parsed(result: Result<T, FrameError>, consumed: nat)

  /**
   * `read_frame` on a stream whose unread bytes are `input`: four header
   * bytes, then exactly the declared number of payload bytes, then
   * deserialization of those. Running out of input at either step is an
   * unexpected end of file, after which the stream is drained.
   */
  function ParseFrame<T(!new)>(codec: Codec<T>, input: Bytes): (p: Parsed<T>)
    ensures p.consumed <= |input|
  {
    if |input| < 4 then Parsed(Failure(UnexpectedEof), |input|)
    else
      var len := FromLe(input[..4]);
      if |input| - 4 < len then Parsed(Failure(UnexpectedEof), |input|)
      else
        match codec.deserialize(input[4..4 + len])
        case None => Parsed(Failure(DeserializationFailed), 4 + len)
        case Some(m) => Parsed(Success(m), 4 + len)
  }

  /** Every declared length up to 2^32 - 1 is read in full: there is no smaller maximum. */
  lemma DeclaredLengthAccepted<T(!new)>(codec: Codec<T>, n: u32, payload: Bytes, rest: Bytes)
    requires |payload| == n
    ensures ParseFrame(codec, Le32(n) + payload + rest) ==
      Parsed(if codec.deserialize(payload).Some? then Success(codec.deserialize(payload).value)
             else Failure(DeserializationFailed),
             4 + n)
  {
    var input := Le32(n) + payload + rest;
    assert input[..4] == Le32(n);
    assert Pow256(4) == U32_LIMIT;
    FromLeToLe(n, 4);
    assert input[4..4 + n] == payload;
  }

  /** Reading back a written frame gives the message, and nothing after the frame is read. */
  lemma FrameRoundTrip<T(!new)>(codec: Codec<T>, msg: T, rest: Bytes)
    requires codec.RoundTrips()
    requires EncodeFrame(codec, msg).Success?
    ensures ParseFrame(codec, EncodeFrame(codec, msg).value + rest) ==
      Parsed(Success(msg), |EncodeFrame(codec, msg).value|)
  {
    var bytes := codec.serialize(msg).value;
    assert EncodeFrame(codec, msg).value == Le32(|bytes|) + bytes;
    DeclaredLengthAccepted(codec, |bytes|, bytes, rest);
  }

  /** A frame cut short anywhere is an unexpected end of file, never a message. */
  lemma TruncatedFrameFails<T(!new)>(codec: Codec<T>, msg: T, k: nat)
    requires EncodeFrame(codec, msg).Success?
    requires k < |EncodeFrame(codec, msg).value|
    ensures ParseFrame(codec, EncodeFrame(codec, msg).value[..k]) == Parsed(Failure(UnexpectedEof), k)
  {
    var f := EncodeFrame(codec, msg).value;
    if k >= 4 {
      assert f[..k][..4] == f[..4];
    }
  }

  /**
   * The two ways reading fails for lack of input: fewer than four bytes, or
   * fewer payload bytes than the header declares.
   */
  lemma ShortInputFails<T(!new)>(codec: Codec<T>, input: Bytes)
    ensures ParseFrame(codec, input).result == Failure(UnexpectedEof) <==>
      |input| < 4 || |input| - 4 < FromLe(input[..4])
  {
  }

  /**
   * A frame that is complete in `input` is read the same whatever follows it:
   * it consumes exactly its header and declared payload, and the bytes after
   * it stay unread.
   */
  lemma {:induction false} FrameIgnoresTrailing<T(!new)>(codec: Codec<T>, input: Bytes, rest: Bytes)
    requires ParseFrame(codec, input).result != Failure(UnexpectedEof)
    ensures ParseFrame(codec, input + rest) == ParseFrame(codec, input)
    ensures ParseFrame(codec, input).consumed == 4 + FromLe(input[..4])
  {
    var len := FromLe(input[..4]);
    assert (input + rest)[..4] == input[..4];
    assert (input + rest)[4..4 + len] == input[4..4 + len];
  }

  // ---------------------------------------------------------------------------
  // The connection's byte stream, with a read cursor
  // ---------------------------------------------------------------------------

  /**
   * One end of a Unix-socket connection: the bytes the peer sends (`input`,
   * read from the cursor `pos`), the bytes written to the peer (`output`), and
   * whether the peer has hung up, after which every write fails.
   */
  class Stream {
    const input: Bytes
    var pos: nat
    var output: Bytes
    const peerClosed: bool

    ghost predicate Valid()
      reads this
    {
      pos <= |input|
    }

    /** The bytes not read yet. */
    function Unread(): Bytes
      reads this
      requires Valid()
    {
      input[pos..]
    }

    constructor (input: Bytes, peerClosed: bool)
      ensures Valid()
      ensures this.input == input && this.peerClosed == peerClosed
      ensures pos == 0 && output == []
    {
      this.input := input;
      this.peerClosed := peerClosed;
      pos := 0;
      output := [];
    }

    /** `read_exact`: exactly `n` bytes, or an unexpected end of file that drains the stream. */
    method ReadExact(n: nat) returns (r: Result<Bytes, FrameError>)
      requires Valid()
      modifies this`pos
      ensures Valid()
      ensures n <= |old(Unread())| ==> r == Success(old(Unread())[..n]) && pos == old(pos) + n
      ensures n > |old(Unread())| ==> r == Failure(UnexpectedEof) && pos == |input|
    {
      if n <= |input| - pos {
        assert input[pos..pos + n] == Unread()[..n];
        r := Success(input[pos..pos + n]);
        pos := pos + n;
      } else {
        r := Failure(UnexpectedEof);
        pos := |input|;
      }
    }

    /** `write_all`: appends `data`, or fails with a broken pipe once the peer is gone. */
    method WriteAll(data: Bytes) returns (r: Outcome<FrameError>)
      modifies this`output
      ensures peerClosed ==> r == Fail(BrokenPipe) && output == old(output)
      ensures !peerClosed ==> r == Pass && output == old(output) + data
    {
      if peerClosed {
        r := Fail(BrokenPipe);
      } else {
        output := output + data;
        r := Pass;
      }
    }
  }

  /**
   * `write_frame`: serialize, refuse a length that does not fit in a `u32`
   * before writing anything, then write the header and the bytes. (The final
   * `flush` of a Unix socket cannot fail and is not modelled.)
   */
  method WriteFrame<T(!new)>(w: Stream, codec: Codec<T>, msg: T) returns (r: Outcome<FrameError>)
    modifies w`output
    ensures var f := EncodeFrame(codec, msg);
      if f.Failure? then r == Fail(f.error) && w.output == old(w.output)
      else if w.peerClosed then r == Fail(BrokenPipe) && w.output == old(w.output)
      else r == Pass && w.output == old(w.output) + f.value
  {
    var serialized := codec.serialize(msg);
    if serialized.None? {
      return Fail(SerializationFailed);
    }
    var bytes := serialized.value;
    if |bytes| >= U32_LIMIT {
      return Fail(FrameTooLarge);
    }
    r := w.WriteAll(Le32(|bytes|));
    if r.Fail? {
      return;
    }
    r := w.WriteAll(bytes);
  }

  /** `read_frame`: the header, then the declared payload, then deserialization. */
  method ReadFrame<T(!new)>(s: Stream, codec: Codec<T>) returns (r: Result<T, FrameError>)
    requires s.Valid()
    modifies s`pos
    ensures s.Valid()
    ensures var p := ParseFrame(codec, old(s.Unread()));
      r == p.result && s.pos == old(s.pos) + p.consumed
  {
    ghost var unread := s.Unread();
    var header := s.ReadExact(4);
    if header.Failure? {
      return Failure(header.error);
    }
    var len := FromLe(header.value);
    assert s.Unread() == unread[4..];
    var payload := s.ReadExact(len);
    if payload.Failure? {
      return Failure(payload.error);
    }
    assert payload.value == unread[4..4 + len];
    var decoded := codec.deserialize(payload.value);
    if decoded.None? {
      r := Failure(DeserializationFailed);
    } else {
      r := Success(decoded.value);
    }
  }
}

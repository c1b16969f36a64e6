# clipto in Dafny

A verified model of clipto's request/response behaviour. clipto is a single-entry clipboard broker with these parts:

- The daemon `clipd` holds one encrypted clipboard value in memory.
- The clients (`clipto copy`, `clipto paste`, and the compositor watcher, which runs `clipto copy --source wayland`) talk to it over a Unix socket.
- A Copy that comes from the user is also handed to `wl-copy` when a Wayland session is present.

The model has five modules:

- `Wrappers` (`wrappers.dfy`): `Option`, `Result` and `Outcome`, the shapes of Rust's `Option<T>`, `Result<T, E>` and `Result<(), E>`.
- `Ipc` (`ipc.dfy`), the `clipto-ipc` crate:
  - the message set (`CopySource`, `Request`, `Response`);
  - the socket path;
  - little-endian `u32` length headers;
  - framing over a serializer, as the pure functions `EncodeFrame` and `ParseFrame`;
  - a `Stream` class with a read cursor and an output buffer, with `WriteFrame` and `ReadFrame` proved against those two functions.
- `Daemon` (`clipd.dfy`), `clipd`:
  - the encrypted slot, as the pure functions `StoreSlot` and `LoadSlot` and the class `State` whose `buffer` field `Store` overwrites;
  - the request match of `handle_connection` (`Dispatch`, the `Respond` method);
  - one whole connection (`Serve`, the `HandleConnection` method);
  - key loading and start-up (`LoadKey`, `Startup`, `Launch`).
- `Client` (`clipto.dfy`), the `clipto` binary: the `Source` to `CopySource` conversion, the request each subcommand sends, and the arm of `main`'s match each reply leads to.
- `System` (`system.dfy`): one client invocation against the daemon, through both framings. It also holds the cross-component properties: the client's "unexpected response" arms are unreachable, and a copy followed by a paste gives the input back.

## Abstractions

- **Serializer.** bincode is the value `Codec<T>(serialize, deserialize)`. Serializing may fail, and deserializing may reject its input. The predicate `Codec.RoundTrips()` says that deserializing a serialization gives the message back. The lemmas that need it take it as a precondition.
- **Cipher.** ChaCha20-Poly1305 is the value `Aead(seal, open)` over a 32-byte key and a 12-byte nonce. Sealing may fail. `Aead.Sound()` says that opening what was sealed gives back the plaintext.
- **Oracles.** The nonce that `store` draws from `OsRng` is a parameter, and so is the success of the `wl-copy` subprocess (`wlCopyOk`). The model records which payload was handed to `wl-copy` (`forwarded`) and which error would have been logged (`logged`).
- **Environment and files.** The environment is a map holding the variables whose values are valid Unicode: `std::env::var` treats any other value as unset. The file system is a map from the existing paths to `Readable(contents)` or `Unreadable`.
- **Connection stream.** A `Stream`'s `input` is everything the peer sends. `peerClosed` makes every write fail with a broken pipe and write nothing.

Integers are unbounded in the model. The one width that matters is checked explicitly: a serialized message must be shorter than 2^32 bytes to get a `u32` header.

## Where the code departs from the behaviour one might expect

Each item below is a behaviour a reader of clipto might assume, and what the code does instead. The model follows the code.

- The second copy source might be expected to be called `Compositor`. The code's tag is `CopySource::Wayland`.
- One might expect an event-driven watcher with `Inactive`/`Active` states. The code has no such state machine:
  - `start_wayland_watcher` runs `wl-paste --watch` until it exits, and restarts it two seconds after each time it exits;
  - it is started only when `WAYLAND_DISPLAY` was set at start-up;
  - the daemon's `wayland` flag is fixed at that moment.
  The loop itself is left out (below).
- One might expect a failed forward to the compositor to be swallowed, never failing the Copy. In the code, `sync_to_wayland(&payload)?` propagates the failure out of the handler:
  - the new entry is already stored;
  - no response frame is written, and the error is only logged;
  - the client then fails to read a reply. `FailedForwardKeepsEntry` and `AtMostOneResponse` state this.
- One might expect `read_frame` to enforce a maximum frame length. `read_frame` accepts every declared length up to 2^32 - 1 (`DeclaredLengthAccepted`).

## Model

| member | source | states |
|---|---|---|
| `Ipc.Join` | clipto-ipc/src/lib.rs:35 | The joined path starts with the directory and ends with the name, with exactly one `/` added between them when the directory is non-empty and does not end in `/`, and none otherwise. An absolute name replaces the directory. |
| `Ipc.SocketPath` | clipto-ipc/src/lib.rs:33-36 | Fails with "XDG_RUNTIME_DIR not set" exactly when the variable is unset. Otherwise the path is `$XDG_RUNTIME_DIR/clipto.sock`, with no `/` added when the directory is empty or already ends in one. |
| `Ipc.ToLe` | clipto-ipc/src/lib.rs:41-43 | A number below 256^k has a little-endian encoding of exactly k bytes. |
| `Ipc.FromLe` | clipto-ipc/src/lib.rs:54 | Decoding k bytes always gives a number below 256^k, so a 4-byte header decodes to a `u32`. |
| `Ipc.FromLeToLe` | clipto-ipc/src/lib.rs:41-54 | `from_le_bytes(to_le_bytes(n)) == n` for every n that fits. |
| `Ipc.ToLeFromLe` | clipto-ipc/src/lib.rs:52-54 | Re-encoding any decoded header gives the same bytes, so the header encoding is a bijection. |
| `Ipc.Le32` | clipto-ipc/src/lib.rs:41-43 | The length header of a frame is exactly 4 bytes. |
| `Ipc.EncodeFrame` | clipto-ipc/src/lib.rs:39-46 | Succeeds exactly when serialization succeeds and fits in a `u32`. Otherwise it fails with "serialization failed" or "frame too large". On success the first 4 bytes decode to the payload length, and the rest is exactly the serialized message. |
| `Ipc.ParseFrame` | clipto-ipc/src/lib.rs:51-57 | Reading a frame never consumes more than the available input. |
| `Ipc.DeclaredLengthAccepted` | clipto-ipc/src/lib.rs:54-56 | For every declared length up to 2^32 - 1, exactly that many payload bytes are read after the header and handed to the deserializer, and 4 + length bytes are consumed. |
| `Ipc.FrameRoundTrip` | clipto-ipc/src/lib.rs:39-57 | A reader given a written frame followed by anything returns the message. It consumes exactly the frame's bytes. |
| `Ipc.TruncatedFrameFails` | clipto-ipc/src/lib.rs:52-56 | Every strict prefix of a frame reads as an unexpected end of file, never as a message. |
| `Ipc.ShortInputFails` | clipto-ipc/src/lib.rs:52-56 | Reading fails with end of file exactly when fewer than 4 bytes are available, or fewer payload bytes than the header declares. |
| `Ipc.FrameIgnoresTrailing` | clipto-ipc/src/lib.rs:52-57 | A frame that is complete in the input is read the same whatever follows it. It consumes exactly 4 + the declared length, and the trailing bytes stay unread. |
| `Ipc.Stream.ReadExact` | clipto-ipc/src/lib.rs:53-56 | Returns exactly the next n bytes and advances the cursor by n. If fewer remain it returns an unexpected end of file and drains the stream. |
| `Ipc.Stream.WriteAll` | clipto-ipc/src/lib.rs:44-45 | Appends the data to the output. If the peer has gone it fails with a broken pipe and appends nothing. |
| `Ipc.WriteFrame` | clipto-ipc/src/lib.rs:39-48 | Appends exactly the frame's bytes on success. Frame errors are reported before anything is written. A closed peer fails with a broken pipe, and the output is unchanged. |
| `Ipc.ReadFrame` | clipto-ipc/src/lib.rs:51-58 | Returns what `ParseFrame` gives for the unread bytes, and advances the cursor by what it consumes. |
| `Daemon.StoreThenLoad` | clipd/src/main.rs:40-61 | After a successful store, a load returns the stored plaintext, the empty plaintext included. This assumes a sound cipher. |
| `Daemon.StoreReplaces` | clipd/src/main.rs:46-49 | A successful store's slot does not depend on the previous slot: the entry is overwritten, never merged. After two stores only the second plaintext is recoverable. |
| `Daemon.StoreFailureKeepsSlot` | clipd/src/main.rs:42-46 | A store fails exactly when encryption fails. It then reports "encryption failed" and leaves the slot unchanged. |
| `Daemon.LoadEmpty` | clipd/src/main.rs:53-54 | A load reports "clipboard is empty" exactly when the slot is empty. |
| `Daemon.State.constructor` | clipd/src/main.rs:204-208 | The daemon state starts with the given cipher and Wayland flag and an empty slot. |
| `Daemon.State.Store` | clipd/src/main.rs:40-51 | The new slot and the result are those of `StoreSlot` on the old slot. On success the stored plaintext is recoverable, and on failure the buffer is unchanged. |
| `Daemon.State.Load` | clipd/src/main.rs:53-61 | Returns the decrypted entry, or "clipboard is empty" or "decryption failed", without changing the state. |
| `Daemon.ForwardIff` | clipd/src/main.rs:103-110 | `wl-copy` is invoked if and only if the request is a Copy, its store succeeded, the session is Wayland and the source is `User`. It is handed exactly the payload. |
| `Daemon.FailedStoreAnswersError` | clipd/src/main.rs:103-114 | A Copy whose encryption fails is answered with `Error("encryption failed")`. It changes nothing and forwards nothing. |
| `Daemon.FailedForwardKeepsEntry` | clipd/src/main.rs:103-110 | When `wl-copy` fails after a successful store, the handler ends in an error with no response, but the new entry stays stored and recoverable. |
| `Daemon.ReplyKinds` | clipd/src/main.rs:100-125 | A Copy is only answered with `Ok` or `Error`. A Paste is always answered, with `Payload` or `Error`, and changes neither the slot nor `wl-copy`. |
| `Daemon.CopyThenPaste` | clipd/src/main.rs:100-125 | A Copy that encrypts, and whose needed forward succeeds, is answered `Ok`. The next Paste is answered with its payload. |
| `Daemon.Respond` | clipd/src/main.rs:100-125 | The request match updates the state's buffer, forwards and replies exactly as `Dispatch` prescribes for the old buffer. |
| `Daemon.Serve` | clipd/src/main.rs:96-134 | A connection never reads past its input. |
| `Daemon.UnreadableRequestChangesNothing` | clipd/src/main.rs:96-133 | A request frame that cannot be read leaves the slot unchanged, forwards nothing, writes nothing and logs an error. |
| `Daemon.AtMostOneResponse` | clipd/src/main.rs:96-134 | A connection writes nothing exactly when it logs an error. Otherwise it writes exactly one complete, readable response frame. |
| `Daemon.HandleConnection` | clipd/src/main.rs:96-134 | The state's buffer, the stream cursor, the bytes written, the forwarded payload and the logged error are exactly those of `Serve` on the old buffer and the unread input. |
| `Daemon.KeyPrecedence` | clipd/src/main.rs:72-92 | The key comes from `$CREDENTIALS_DIRECTORY/clipto-key` when the variable is set and the file exists; a file that exists but cannot be read is an error. Otherwise it comes from `$CLIPTO_KEY_FILE`. "No key" is reported exactly when neither applies. |
| `Daemon.StartupKeyLength` | clipd/src/main.rs:191-210 | A loaded key of any length other than 32 fails start-up with that length. Start-up succeeds exactly with a 32-byte key and a runtime directory. It then uses that key and sets the Wayland flag exactly when `WAYLAND_DISPLAY` is set. |
| `Daemon.Launch` | clipd/src/main.rs:191-208 | Fails as start-up does. Otherwise it returns a fresh state with the loaded key's cipher, the Wayland flag and an empty slot. |
| `Client.ToCopySourceInjective` | clipto/src/main.rs:41-48 | The conversion maps `User` to `User` and `Wayland` to `Wayland`, so it is injective. |
| `Client.SourceArgument` | clipto/src/main.rs:25-39 | `copy` with no `--source` runs as `User`. `user` gives `User` and `wayland` gives `Wayland`. Every other name is rejected. |
| `Client.CopyRequest` | clipto/src/main.rs:64-74 | The Copy request carries exactly the bytes read from standard input, tagged `Wayland` exactly when the source was `wayland`. |
| `Client.RequestFor` | clipto/src/main.rs:63-91 | `paste` sends a bare Paste, and `copy` sends the Copy request built from standard input. |
| `Client.CopySucceedsIffOk` | clipto/src/main.rs:76-86 | `copy` exits 0 exactly on an `Ok` reply and prints nothing. An `Error` reply prints "clipd: " and the message. A `Payload` reply is the unexpected case. |
| `Client.PasteWritesPayload` | clipto/src/main.rs:93-107 | `paste` succeeds exactly on a `Payload` reply and writes exactly its data. `Error` and `Ok` both exit 1, the latter as unexpected. |
| `System.ClientReadsDaemonReply` | clipd/src/main.rs:96-134 | Over both framings the daemon reads exactly the client's request, and the client reads exactly the response the daemon chose. When no response can be written, the client sees the connection close. |
| `System.NoUnexpectedReply` | clipto/src/main.rs:76-107 | Against this daemon, neither subcommand ever reaches its "unexpected response" arm. |
| `System.CopyThenPasteRoundTrip` | clipto/src/main.rs:60-112 | `clipto copy` of some input, then `clipto paste`, prints that input, whatever the clipboard held before. This holds when encryption succeeds, the frames fit, and any forward the Copy needs succeeds. |
| `System.PasteBeforeCopy` | clipd/src/main.rs:118-123 | On the empty slot of a freshly started daemon, `clipto paste` exits 1 with "clipboard is empty". |
| `System.CompositorCopyNotEchoed` | clipd/src/main.rs:103-110 | A copy relayed as `--source wayland` is stored like any other but never handed back to `wl-copy`, whatever the session. |

## Left out

- ChaCha20-Poly1305 itself (the AEAD construction of section 2.8 of RFC 8439) is abstract, with a soundness premise. Nonces are parameters. The code draws them from `OsRng` (clipd/src/main.rs:41), so their distinctness cannot be stated from the code.
- bincode's wire encoding is abstract, with a round-trip premise.
- Memory scrubbing is not expressible here: the `Zeroize` in `Drop` for `EncryptedBuffer`, the `Zeroizing` wrappers, and `drop(key)`.
- Concurrency is left out: `Arc<Mutex<State>>`, a thread per connection, and the accept loop (clipd/src/main.rs:241-249). Each `handle_connection` is one atomic step, and the lock is held across `store`. A poisoned mutex (`lock().unwrap()`) is not modelled.
- `sync_to_wayland` spawns a subprocess. Its spawn, write and wait outcome is the oracle `wlCopyOk`. A non-zero exit status of `wl-copy` is not an error in the code, and is part of that oracle.
- The following are process and OS plumbing outside the model:
  - `start_wayland_watcher`, the restart loop with its sleep;
  - `clipto_bin`'s executable lookup;
  - removing, binding and setting permissions on the socket;
  - the `ctrlc` handler;
  - `eprintln!` logging, which is kept only as the `logged` value.
  `Startup` models only the parts of `main` that decide whether the daemon starts: the key, the key length, `WAYLAND_DISPLAY` and the socket path.
- `ChaCha20Poly1305::new_from_slice` is not modelled. It cannot fail once the key has 32 bytes.
- The client's I/O is represented only by the outcome values of its response match:
  - clap's parsing beyond the `--source` value, and `UnixStream::connect`;
  - reading standard input, and a failed write to standard output;
  - `process::exit`, and the text printed when `main` returns an error.
- Partial writes before a broken pipe, read errors other than end of file (such as a connection reset), and allocation failure for a huge declared length (`vec![0u8; len]`) are not modelled.
- `Ipc.Stream.ReadExact`: Rust leaves the stream position after a short `read_exact` unspecified. The model fixes it as drained, which is what a socket whose peer has closed does.
- Paths are strings, not `OsStr`. `Path::exists` is membership in the file map.

# VacuumDrop transfer protocol — a Dafny model

VacuumDrop lets two phones on one local network exchange a text message or a file over a
raw TCP connection. This project models the protocol core of the app:

- **Receiver** (`TcpServer.js`): each accepted socket keeps `metadataReceived`, `fileMetadata`,
  `fileBuffer` and `expectedFileSize`. Every `data` chunk is classified by prefix or equality:
  a `FILE_TRANSFER:<len>:<json>` header, payload, the `FILE_TRANSFER_END` terminator, or a
  `TEXT_MESSAGE:` frame. The handler updates that state and writes a reply. The server also keeps
  the `clients` list and moves to the next port on an address-in-use bind error.
  `TcpServer.Step` specifies one chunk. `TcpServer.Connection.OnData` performs it in place and is
  proved equal to it. `TcpServer.Server` holds the component state: clients, port, last message
  and the download directory's files.
- **File sender** (`FileTransferComponent.js`): builds the header, cuts the base64 file content
  into 4096-character chunks in a loop that counts `transferredBytes`, writes the terminator last,
  and reads the receiver's reply as acknowledgement, error or neither.
- **App screen** (`App.js`): keeps the discovered services, unique by name, and the selected
  service. It builds the `TEXT_MESSAGE:<text>` frame.
- **Protocol**: the sender's frames, fed to the receiver, give back the text, the metadata and
  the file content.

The model follows the code as written, not an idealised protocol:
- A header that arrives during a transfer silently restarts it.
- Bytes after the metadata block in a header chunk are dropped.
- The terminator is recognised only as a whole chunk. It is appended to the buffer before the
  test, so the stored file is the sender's base64 text followed by the literal
  `FILE_TRANSFER_END` (`Protocol.FileRoundTrip`).
- The reset after finalization clears three variables and keeps `expectedFileSize`.
- The port retry has no bound (`TcpServer.PortAfterErrors`).

Abstractions:
- `JSON.parse` is a function parameter returning `None` where it throws.
- `JSON.stringify`, `RNFS.stat` and `RNFS.readFile` are function parameters.
- `RNFS.writeFile` is a success/failure flag. Its base64 encode-then-decode is the identity on the
  buffer.
- A chunk is a string: `Buffer.toString()` is taken as the identity, which is exact for the base64
  payload.
- Socket writes are recorded in order, in `written` / `Outbound.writes`.
- The round-trip lemmas assume each socket write arrives as one `data` event.

## Model

| member | source | states |
|---|---|---|
| `Strings.JoinSplit` | TcpServer.js:34-38 | joining the parts of `split(":")` with ":" gives the string back, so colons inside the metadata survive |
| `Strings.ParseIntOfNat` | TcpServer.js:35 | `parseInt` reads back exactly the decimal length a template literal rendered |
| `Strings.SliceTo` | TcpServer.js:39 | `slice(0, len)` keeps a prefix of length min(len, size); NaN keeps nothing; a negative length counts from the end |
| `Strings.ReplacePrefix` | TcpServer.js:93 | `replace` on a string that starts with the pattern removes exactly that prefix |
| `Strings.ReplaceFirstSpec` | FileTransferComponent.js:31 | `replace` with a string pattern rewrites only the first occurrence and leaves a string without one unchanged |
| `Strings.Includes` | FileTransferComponent.js:110-113 | `includes` is true exactly when the pattern occurs somewhere in the string |
| `Strings.IndexFrom` | FileTransferComponent.js:110 | the index found is an occurrence with no earlier one; none is found only when there is no occurrence |
| `TcpServer.HeaderFields` | TcpServer.js:34-38 | for a well-formed header, part 1 of the split is the length field and parts 2.. re-join to the metadata block plus everything after it |
| `TcpServer.HeaderMetadataRecovers` | TcpServer.js:34-39 | a chunk `FILE_TRANSFER:<len(m)>:m...` yields exactly `m`, even when `m` contains ':' |
| `TcpServer.Step` | TcpServer.js:28-98 | one `data` event keeps the invariant: metadata is known iff a transfer is open, and nothing is buffered outside one; a stored file always comes with the acknowledgement; a text message leaves the state unchanged |
| `TcpServer.Feed` | TcpServer.js:28-98 | the same invariant holds after any sequence of chunks |
| `TcpServer.FeedSilentStep` | TcpServer.js:28 | a chunk that draws no reply, stores nothing and yields no message only moves the receiver to its next state |
| `TcpServer.HeaderRestartsTransfer` | TcpServer.js:43-47 | a header whose metadata parses opens a transfer: empty buffer, that metadata and its `fileSize`, no reply, whatever the prior state |
| `TcpServer.HeaderParseFailure` | TcpServer.js:48-51 | a header whose metadata does not parse leaves the state unchanged and replies with a `FILE_TRANSFER_ERROR` message |
| `TcpServer.HeaderAddsNoBytes` | TcpServer.js:32-53 | a header chunk never adds bytes to the buffer: it is emptied or left as it was |
| `TcpServer.HeaderTrailingBytesDropped` | TcpServer.js:52 | payload that arrives in the same chunk as a well-formed header is lost |
| `TcpServer.PayloadAppended` | TcpServer.js:56-58 | during a transfer a chunk that is neither a header nor the terminator is appended, with no reply |
| `TcpServer.FeedPayloadHead` | TcpServer.js:56-58 | during a transfer a leading payload chunk only grows the buffer before the rest is handled |
| `TcpServer.FeedAccumulates` | TcpServer.js:56-61 | during a transfer the buffer is the concatenation of all payload chunks since the header |
| `TcpServer.ChunkingIrrelevant` | TcpServer.js:58 | two cuttings of the same payload into payload chunks leave the same state |
| `TcpServer.FinalizeOnlyOnExactTerminator` | TcpServer.js:61 | during a transfer a non-header chunk closes it, and draws a reply, iff it equals `FILE_TRANSFER_END`; a chunk that merely contains it is payload |
| `TcpServer.FinalizeOutcome` | TcpServer.js:58-89 | the terminator is appended, then buffer plus terminator is stored under `<dir>/<fileName>`; ACK iff the write succeeds, the save-error reply otherwise; either way the state resets, keeping `expectedFileSize` |
| `TcpServer.TextWhenIdle` | TcpServer.js:91-96 | outside a transfer a `TEXT_MESSAGE:` chunk yields the text after the prefix and replies `收到消息: ` + that text; the state is unchanged |
| `TcpServer.TextDuringTransferIsPayload` | TcpServer.js:56-58 | during a transfer a `TEXT_MESSAGE:` chunk is appended as payload |
| `TcpServer.IdleIgnoresOther` | TcpServer.js:56-97 | outside a transfer a chunk that is neither a header nor a text frame changes nothing and gets no reply |
| `TcpServer.NextPort` | TcpServer.js:137-142 | the port goes up by one on exactly the address-in-use error string and stays put on any other error |
| `TcpServer.PortAfterErrors` | TcpServer.js:139-141 | after any run of server errors the port is the start plus the number of address-in-use errors; there is no cap |
| `TcpServer.RemoveClient` | TcpServer.js:103-112 | the socket leaves `clients`; every other socket stays |
| `TcpServer.Connection.constructor` | TcpServer.js:23-26 | a new connection starts idle: no metadata, empty buffer, expected size 0, nothing written |
| `TcpServer.Connection.OnData` | TcpServer.js:28-98 | the in-place handler takes the connection exactly to `Step`'s next state and writes `Step`'s reply, keeping the invariant |
| `TcpServer.Server.constructor` | TcpServer.js:9-12 | the server starts on port 1234 with no clients, an empty message and no files |
| `TcpServer.Server.Accept` | TcpServer.js:18-26 | an accepted socket gets fresh idle state and is appended to `clients` |
| `TcpServer.Server.OnData` | TcpServer.js:28-98 | the connection steps; a text message becomes the shown message; a stored file is written at its path; `clients` and port are unchanged |
| `TcpServer.Server.Disconnect` | TcpServer.js:101-113 | on `error` or `close` the socket is removed from `clients`; nothing else changes |
| `TcpServer.Server.OnServerError` | TcpServer.js:137-142 | the port becomes `NextPort` of the old port and the error |
| `FileTransfer.CorrectedUriSpec` | FileTransferComponent.js:31 | a `file://` URI becomes `content://` with the same rest; a URI without `file://` is unchanged |
| `FileTransfer.FileTypeOrDefault` | FileTransferComponent.js:65 | the type sent is never empty: the picked type if present and non-empty, `application/octet-stream` otherwise |
| `FileTransfer.Header` | FileTransferComponent.js:72 | the header starts with `FILE_TRANSFER:` and ends with the metadata text |
| `FileTransfer.ChunksConcat` | FileTransferComponent.js:78-80 | the chunks concatenate back to the file content |
| `FileTransfer.ChunksShape` | FileTransferComponent.js:78-79 | every chunk is non-empty and at most 4096 long, all but the last exactly 4096; there are ceil(length/4096) chunks, none for empty content |
| `FileTransfer.ChunksFrom` | FileTransferComponent.js:78-79 | one loop turn at offset i takes `slice(i, i+4096)` and leaves the chunks of the rest |
| `FileTransfer.SentThenRest` | FileTransferComponent.js:78-80 | the chunks sent so far followed by the chunks of what is left are all the chunks, before and after a loop turn |
| `FileTransfer.OnConnected` | FileTransferComponent.js:60-101 | the writes are the header, the chunks in order, then the terminator; `transferredBytes` after each chunk rises strictly, stays within the content and ends at its length |
| `FileTransfer.ClassifyReply` | FileTransferComponent.js:110-116 | a reply containing `FILE_TRANSFER_ACK` is success even if it also contains `FILE_TRANSFER_ERROR`; otherwise one containing the error token is an error; otherwise neither |
| `FileTransfer.FileTransferComponent.constructor` | FileTransferComponent.js:11 | the status starts empty |
| `FileTransfer.FileTransferComponent.SendFileToServer` | FileTransferComponent.js:13-101 | nothing is sent when the file or the service is missing. An empty file array, or a failed `stat` or `readFile` on the rewritten URI, sets the error status and sends nothing. Otherwise one connection to the selected host and port carries header, chunks and terminator |
| `FileTransfer.FileTransferComponent.OnData` | FileTransferComponent.js:104-118 | an ACK reply sets success, an error reply sets the server-error status, any other reply leaves the status |
| `FileTransfer.FileTransferComponent.OnSocketError` | FileTransferComponent.js:120-127 | a socket error sets the failure status with its message |
| `App.ServiceFound` | App.js:27-34 | a service is appended unless one of its name is listed; the list is unchanged iff the name was there (even with another host or port); names stay unique |
| `App.ServiceLost` | App.js:36-40 | every service with the lost name is removed, all others kept; names stay unique |
| `App.ServiceLostKeepsOrder` | App.js:37-39 | removal distributes over concatenation, so kept services keep their relative order |
| `App.FindByName` | App.js:53 | the result is the first listed service with that name, and there is one iff the name is listed |
| `App.TextFrame` | App.js:87 | the frame is `TEXT_MESSAGE:` followed by the text itself |
| `App.AppState.constructor` | App.js:18-21 | no services, no selection, no file, empty text |
| `App.AppState.OnServiceFound` | App.js:27-34 | the list becomes `ServiceFound` of the old list; the unique-names invariant is kept |
| `App.AppState.OnServiceLost` | App.js:36-40 | the list becomes `ServiceLost` of the old list; the unique-names invariant is kept |
| `App.AppState.HandleServiceSelection` | App.js:52-61 | the selection becomes `{name, host, port}` of the first service with that name; an unknown name leaves it unchanged |
| `App.AppState.HandleFileSelected` | App.js:63-66 | the picked file is stored |
| `App.AppState.ChangeText` | App.js:137 | the text input's value is stored |
| `App.AppState.SendTextToServer` | App.js:68-90 | nothing is sent iff the text is empty or no service is selected; otherwise one connection to the selected host and port carries exactly the text frame |
| `Protocol.TextRoundTrip` | App.js:87 | the app's text frame, fed to a receiver not in a transfer, yields exactly the text and the confirmation reply |
| `Protocol.HeaderRoundTrip` | FileTransferComponent.js:72 | the sender's header, with anything after it in the same chunk, opens a transfer for exactly the metadata the sender encoded |
| `Protocol.HeaderOpensTransfer` | TcpServer.js:32-53 | the sender's header alone opens the transfer with no reply |
| `Protocol.Base64IsPayload` | FileTransferComponent.js:50 | base64 text can neither start a header nor equal the terminator |
| `Protocol.ChunksArePayload` | FileTransferComponent.js:78-80 | every chunk the sender cuts from base64 content is payload to the receiver: never a header, never the terminator |
| `Protocol.FeedTerminator` | TcpServer.js:61-89 | the terminator alone closes an open transfer with one reply, storing buffer plus terminator when the write succeeds |
| `Protocol.PayloadThenTerminator` | TcpServer.js:56-89 | payload chunks then the terminator store the buffer, the chunks and the terminator, reply once and close the transfer |
| `Protocol.FileRoundTrip` | FileTransferComponent.js:72-98 | the sender's frames for base64 content store `content + "FILE_TRANSFER_END"` under `<dir>/<fileName>`, reply ACK (or the save error on a failed write) and leave the receiver idle |

## Left out

- React hooks, state setters, JSX rendering, `Alert` and console logging: component state is plain fields.
- Zeroconf publish, scan and stop (TcpServer.js:122-129, App.js:25, 42-48): a foreign discovery library.
- `listen`, `createConnection` and the sockets themselves. Events are method calls, and writes are
  recorded in order.
- Re-running the server effect after a port change: closing the old server, destroying clients and
  listening again (TcpServer.js:117-154).
- TCP segmentation: the round trips assume one `data` event per write. Coalescing is covered only
  by `TcpServer.HeaderTrailingBytesDropped`.
- Asynchrony: the `writeFile` promise is one atomic step. The connect callback runs at once.
  A socket error arrives afterwards through `OnSocketError`, and writes already recorded stay
  recorded.
- `JSON.parse` returning a non-object such as `null`: the source would then set `fileMetadata` to
  null and fail on `.fileSize`. The model's parse returns metadata or fails, so this path is absent.
- `parseInt` with leading blanks or a `0x` prefix. The sender never produces either.
- Character counts: lengths are counted in Unicode characters, not UTF-16 code units. UTF-8
  decoding of a chunk (`data.toString()`) is the identity.
- Progress percentage and `onTransferProgress` (FileTransferComponent.js:84, 93): floating-point
  division. `transferredBytes` after each chunk is modelled.
- The exact UI status strings of the sender are a datatype.
- The reply, error and close handlers of `sendTextToServer` only log (App.js:92-102).
- ContentUriConverter.kt, ContentUriPackage.kt, FilePicker.js: platform APIs and UI.

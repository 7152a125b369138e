/**
 * The receiving side: one `Connection` per accepted socket runs the chunk-by-chunk state machine
 * of the `data` handler, and the `Server` keeps the list of live sockets, the listening port,
 * the last text message and the files written to the download directory.
 *
 * `Step` is the specification of one `data` event; the `Connection.OnData` method performs it
 * in place and is proved to agree with it, and the lemmas below state what `Step` promises.
 */
module TcpServer {
  import opened Wrappers
  import opened Strings
  import opened Wire

  const InitialPort: int := 1234
  /** The one server error that makes the component move to the next port. */
  const AddressInUse: string := "bind failed: EADDRINUSE (Address already in use)"

  /** `JSON.parse` applied to a metadata block: None when it throws. */
  type JsonParse = string -> Option<Metadata>

  /** The per-connection variables of the `data` handler. */
  datatype RecvState = RecvState(metadataReceived: bool, fileMetadata: Option<Metadata>,
                                 fileBuffer: string, expectedFileSize: int)
  {
    /** Metadata is known exactly while a transfer is open, and no bytes are buffered outside one. */
    predicate Valid() {
      (metadataReceived <==> fileMetadata.Some?) && (!metadataReceived ==> fileBuffer == "")
    }
  }

  /** The state a new connection starts in. */
  const Fresh: RecvState := RecvState(false, None, "", 0)

  /** A successful `RNFS.writeFile`: the path and the bytes written (base64 out and in is the identity). */
  datatype SavedFile = SavedFile(path: string, content: string)

  /** What one `data` event does: the next state, the reply written on the socket,
      the file stored and the text message shown. */
  datatype Effect = Effect(next: RecvState, reply: Option<string>, saved: Option<SavedFile>, message: Option<string>)

  function OptionSeq<T>(o: Option<T>): seq<T> {
    if o.Some? then [o.value] else []
  }

  /** The metadata block of a header chunk: split on ':', read the length from the second part,
      re-join the parts after it and keep that many characters. */
  function HeaderMetadata(chunk: string): string {
    var parts := Split(chunk, ':');
    var length := ParseInt(if |parts| > 1 then parts[1] else "");
    SliceTo(Join(if |parts| > 1 then parts[2..] else [], ':'), length)
  }

  /** One `data` event on a connection in state `s`; `storageOk` is the outcome of the file write. */
  function Step(s: RecvState, chunk: string, parse: JsonParse, downloadDir: string, storageOk: bool): (e: Effect)
    requires s.Valid()
    ensures e.next.Valid()
    ensures e.saved.Some? ==> e.reply == Some(Ack)
    ensures e.message.Some? ==> e.next == s
  {
    if StartsWith(chunk, HeaderPrefix) then
      match parse(HeaderMetadata(chunk))
      case Some(md) => Effect(RecvState(true, Some(md), "", md.fileSize), None, None, None)
      case None => Effect(s, Some(MetadataErrorReply), None, None)
    else if s.metadataReceived then
      var buffer := s.fileBuffer + chunk;
      if chunk == Terminator then
        var path := downloadDir + "/" + s.fileMetadata.value.fileName;
        var reset := RecvState(false, None, "", s.expectedFileSize);
        if storageOk then Effect(reset, Some(Ack), Some(SavedFile(path, buffer)), None)
        else Effect(reset, Some(SaveErrorReply), None, None)
      else
        Effect(s.(fileBuffer := buffer), None, None, None)
    else if StartsWith(chunk, TextPrefix) then
      var message := ReplaceFirst(chunk, TextPrefix, "");
      Effect(s, Some(TextReplyPrefix + message), None, Some(message))
    else
      Effect(s, None, None, None)
  }

  /** Everything a sequence of `data` events produces, in order. */
  datatype Trace = Trace(final: RecvState, replies: seq<string>, saved: seq<SavedFile>, messages: seq<string>)

  /** Feeds the chunks one by one, every file write having outcome `storageOk`. */
  function Feed(s: RecvState, chunks: seq<string>, parse: JsonParse, downloadDir: string, storageOk: bool): (t: Trace)
    requires s.Valid()
    ensures t.final.Valid()
    decreases |chunks|
  {
    if chunks == [] then Trace(s, [], [], [])
    else
      var e := Step(s, chunks[0], parse, downloadDir, storageOk);
      var t := Feed(e.next, chunks[1..], parse, downloadDir, storageOk);
      Trace(t.final, OptionSeq(e.reply) + t.replies, OptionSeq(e.saved) + t.saved, OptionSeq(e.message) + t.messages)
  }

  /** A chunk that is plain payload: neither a header nor the terminator. */
  predicate IsPayload(chunk: string) {
    !StartsWith(chunk, HeaderPrefix) && chunk != Terminator
  }

  predicate AllPayload(chunks: seq<string>) {
    chunks == [] || (IsPayload(chunks[0]) && AllPayload(chunks[1..]))
  }

  /** A leading chunk that produces nothing only moves the state on. */
  lemma FeedSilentStep(s: RecvState, chunks: seq<string>, parse: JsonParse, dir: string, ok: bool)
    requires s.Valid() && chunks != []
    requires var e := Step(s, chunks[0], parse, dir, ok); e.reply.None? && e.saved.None? && e.message.None?
    ensures Feed(s, chunks, parse, dir, ok) == Feed(Step(s, chunks[0], parse, dir, ok).next, chunks[1..], parse, dir, ok)
  {
    var t := Feed(Step(s, chunks[0], parse, dir, ok).next, chunks[1..], parse, dir, ok);
    assert [] + t.replies == t.replies && [] + t.saved == t.saved && [] + t.messages == t.messages;
  }

  /** The metadata block comes back whole, even when it contains ':' and whatever follows it. */
  lemma HeaderMetadataRecovers(m: string, rest: string)
    ensures HeaderMetadata(HeaderPrefix + NatToString(|m|) + ":" + m + rest) == m
  {
    var chunk := HeaderPrefix + NatToString(|m|) + ":" + m + rest;
    HeaderFields(m, rest);
    var parts := Split(chunk, ':');
    ParseIntOfNat(|m|);
    assert ParseInt(parts[1]) == Some(|m|);
    assert (m + rest)[..|m|] == m;
  }

  /** The split of a well-formed header: its second part is the length field and the parts
      after it join back to the metadata block and everything behind it. */
  lemma HeaderFields(m: string, rest: string)
    ensures var parts := Split(HeaderPrefix + NatToString(|m|) + ":" + m + rest, ':');
      |parts| > 1 && parts[1] == NatToString(|m|) && Join(parts[2..], ':') == m + rest
  {
    var digits := NatToString(|m|);
    var body := m + rest;
    assert HeaderPrefix + digits + ":" + m + rest == HeaderPrefix + digits + ":" + body;
    SplitHeader(digits, body);
    JoinSplit(body, ':');
  }

  /** The header prefix and the length field come out as the first two parts of the split. */
  lemma SplitHeader(digits: string, body: string)
    requires forall k :: 0 <= k < |digits| ==> IsDigit(digits[k])
    ensures Split(HeaderPrefix + digits + ":" + body, ':') == ["FILE_TRANSFER", digits] + Split(body, ':')
  {
    var head := "FILE_TRANSFER";
    assert ':' !in head;
    assert ':' !in digits by {
      forall k | 0 <= k < |digits| ensures digits[k] != ':' {
        assert IsDigit(digits[k]);
      }
    }
    assert HeaderPrefix + digits + ":" + body == head + [':'] + (digits + [':'] + body);
    SplitAfter(head, ':', digits + [':'] + body);
    SplitAfter(digits, ':', body);
  }

  /** A header whose metadata parses opens a new transfer with an empty buffer, whatever came before. */
  lemma HeaderRestartsTransfer(s: RecvState, chunk: string, parse: JsonParse, dir: string, ok: bool, md: Metadata)
    requires s.Valid() && StartsWith(chunk, HeaderPrefix) && parse(HeaderMetadata(chunk)) == Some(md)
    ensures Step(s, chunk, parse, dir, ok) == Effect(RecvState(true, Some(md), "", md.fileSize), None, None, None)
  {
  }

  /** A header whose metadata does not parse leaves the state alone and answers with an error. */
  lemma HeaderParseFailure(s: RecvState, chunk: string, parse: JsonParse, dir: string, ok: bool)
    requires s.Valid() && StartsWith(chunk, HeaderPrefix) && parse(HeaderMetadata(chunk)).None?
    ensures var e := Step(s, chunk, parse, dir, ok);
      e.next == s && e.reply == Some(MetadataErrorReply) && StartsWith(e.reply.value, ErrorTag)
      && e.saved.None? && e.message.None?
  {
  }

  /** A header chunk never puts bytes in the buffer. */
  lemma HeaderAddsNoBytes(s: RecvState, chunk: string, parse: JsonParse, dir: string, ok: bool)
    requires s.Valid() && StartsWith(chunk, HeaderPrefix)
    ensures var e := Step(s, chunk, parse, dir, ok);
      e.next.fileBuffer == (if parse(HeaderMetadata(chunk)).Some? then "" else s.fileBuffer)
      && e.saved.None? && e.message.None?
  {
  }

  /** Payload that arrives in the same chunk as a well-formed header is dropped. */
  lemma HeaderTrailingBytesDropped(s: RecvState, m: string, rest: string, parse: JsonParse, dir: string, ok: bool)
    requires s.Valid() && parse(m).Some?
    ensures var e := Step(s, HeaderPrefix + NatToString(|m|) + ":" + m + rest, parse, dir, ok);
      e.next == RecvState(true, parse(m), "", parse(m).value.fileSize)
  {
    var digits := NatToString(|m|);
    StartsWithAppend(HeaderPrefix, HeaderPrefix, digits);
    StartsWithAppend(HeaderPrefix + digits, HeaderPrefix, ":");
    StartsWithAppend(HeaderPrefix + digits + ":", HeaderPrefix, m);
    StartsWithAppend(HeaderPrefix + digits + ":" + m, HeaderPrefix, rest);
    HeaderMetadataRecovers(m, rest);
    HeaderRestartsTransfer(s, HeaderPrefix + digits + ":" + m + rest, parse, dir, ok, parse(m).value);
  }

  /** During a transfer a payload chunk is appended and nothing is answered. */
  lemma PayloadAppended(s: RecvState, chunk: string, parse: JsonParse, dir: string, ok: bool)
    requires s.Valid() && s.metadataReceived && IsPayload(chunk)
    ensures Step(s, chunk, parse, dir, ok) == Effect(s.(fileBuffer := s.fileBuffer + chunk), None, None, None)
  {
  }

  /** A leading payload chunk during a transfer only grows the buffer. */
  lemma FeedPayloadHead(s: RecvState, frames: seq<string>, parse: JsonParse, dir: string, ok: bool)
    requires s.Valid() && s.metadataReceived && frames != [] && IsPayload(frames[0])
    ensures Feed(s, frames, parse, dir, ok) == Feed(s.(fileBuffer := s.fileBuffer + frames[0]), frames[1..], parse, dir, ok)
  {
    PayloadAppended(s, frames[0], parse, dir, ok);
    FeedSilentStep(s, frames, parse, dir, ok);
  }

  /** The buffer is the concatenation of every payload chunk since the header. */
  lemma {:induction false} FeedAccumulates(s: RecvState, chunks: seq<string>, parse: JsonParse, dir: string, ok: bool)
    requires s.Valid() && s.metadataReceived && AllPayload(chunks)
    ensures Feed(s, chunks, parse, dir, ok) == Trace(s.(fileBuffer := s.fileBuffer + Concat(chunks)), [], [], [])
    decreases |chunks|
  {
    if chunks != [] {
      var next := s.(fileBuffer := s.fileBuffer + chunks[0]);
      calc {
        Feed(s, chunks, parse, dir, ok);
      == { FeedPayloadHead(s, chunks, parse, dir, ok); }
        Feed(next, chunks[1..], parse, dir, ok);
      == { FeedAccumulates(next, chunks[1..], parse, dir, ok); }
        Trace(next.(fileBuffer := next.fileBuffer + Concat(chunks[1..])), [], [], []);
      == { assert next.fileBuffer + Concat(chunks[1..]) == s.fileBuffer + Concat(chunks); }
        Trace(s.(fileBuffer := s.fileBuffer + Concat(chunks)), [], [], []);
      }
    }
  }

  /** How the payload was cut into chunks does not matter to the buffer. */
  lemma ChunkingIrrelevant(s: RecvState, a: seq<string>, b: seq<string>, parse: JsonParse, dir: string, ok: bool)
    requires s.Valid() && s.metadataReceived && Concat(a) == Concat(b)
    requires AllPayload(a) && AllPayload(b)
    ensures Feed(s, a, parse, dir, ok) == Feed(s, b, parse, dir, ok)
  {
    FeedAccumulates(s, a, parse, dir, ok);
    FeedAccumulates(s, b, parse, dir, ok);
  }

  /** During a transfer, a non-header chunk ends it exactly when it equals the terminator;
      a chunk that only contains the terminator is payload. */
  lemma FinalizeOnlyOnExactTerminator(s: RecvState, chunk: string, parse: JsonParse, dir: string, ok: bool)
    requires s.Valid() && s.metadataReceived && !StartsWith(chunk, HeaderPrefix)
    ensures var e := Step(s, chunk, parse, dir, ok);
      (!e.next.metadataReceived <==> chunk == Terminator) && (e.reply.Some? <==> chunk == Terminator)
  {
  }

  /** The terminator is appended and the buffer stored; the reply is the acknowledgement exactly
      when the write succeeds, and either way the transfer is closed (the declared size is kept). */
  lemma FinalizeOutcome(s: RecvState, parse: JsonParse, dir: string, ok: bool)
    requires s.Valid() && s.metadataReceived
    ensures var e := Step(s, Terminator, parse, dir, ok);
      e.next == RecvState(false, None, "", s.expectedFileSize)
      && (e.reply == Some(Ack) <==> ok)
      && (!ok ==> e.reply == Some(SaveErrorReply) && StartsWith(e.reply.value, ErrorTag))
      && e.saved == (if ok then Some(SavedFile(dir + "/" + s.fileMetadata.value.fileName, s.fileBuffer + Terminator))
                     else None)
  {
    assert !StartsWith(Terminator, HeaderPrefix) by { assert Terminator[13] != HeaderPrefix[13]; }
  }

  /** Outside a transfer a text frame yields its text, answered with the confirmation prefix. */
  lemma TextWhenIdle(s: RecvState, chunk: string, parse: JsonParse, dir: string, ok: bool)
    requires s.Valid() && !s.metadataReceived && StartsWith(chunk, TextPrefix)
    ensures var e := Step(s, chunk, parse, dir, ok);
      e == Effect(s, Some(TextReplyPrefix + chunk[|TextPrefix|..]), None, Some(chunk[|TextPrefix|..]))
  {
    assert !StartsWith(chunk, HeaderPrefix) by { assert chunk[0] != HeaderPrefix[0]; }
    ReplacePrefix(chunk, TextPrefix, "");
    assert "" + chunk[|TextPrefix|..] == chunk[|TextPrefix|..];
  }

  /** During a transfer a text frame is just payload. */
  lemma TextDuringTransferIsPayload(s: RecvState, chunk: string, parse: JsonParse, dir: string, ok: bool)
    requires s.Valid() && s.metadataReceived && StartsWith(chunk, TextPrefix)
    ensures Step(s, chunk, parse, dir, ok) == Effect(s.(fileBuffer := s.fileBuffer + chunk), None, None, None)
  {
    assert !StartsWith(chunk, HeaderPrefix) by { assert chunk[0] != HeaderPrefix[0]; }
    assert chunk != Terminator by { assert chunk[0] != Terminator[0]; }
  }

  /** Outside a transfer anything but a header or a text frame is ignored. */
  lemma IdleIgnoresOther(s: RecvState, chunk: string, parse: JsonParse, dir: string, ok: bool)
    requires s.Valid() && !s.metadataReceived
    requires !StartsWith(chunk, HeaderPrefix) && !StartsWith(chunk, TextPrefix)
    ensures Step(s, chunk, parse, dir, ok) == Effect(s, None, None, None)
  {
  }

  /** The port after one server error: one more exactly on the address-in-use error. */
  function NextPort(port: int, error: string): (p: int)
    ensures error == AddressInUse ==> p == port + 1
    ensures error != AddressInUse ==> p == port
  {
    if error == AddressInUse then port + 1 else port
  }

  function PortAfter(port: int, errors: seq<string>): int
    decreases |errors|
  {
    if errors == [] then port else PortAfter(NextPort(port, errors[0]), errors[1..])
  }

  function CountOf(errors: seq<string>, e: string): nat {
    if errors == [] then 0 else (if errors[0] == e then 1 else 0) + CountOf(errors[1..], e)
  }

  /** The port moves up by one per address-in-use error and by nothing else; there is no cap. */
  lemma {:induction false} PortAfterErrors(port: int, errors: seq<string>)
    ensures PortAfter(port, errors) == port + CountOf(errors, AddressInUse)
    decreases |errors|
  {
    if errors != [] {
      PortAfterErrors(NextPort(port, errors[0]), errors[1..]);
    }
  }

  /** The `clients` list without the given socket, everything else in order. */
  function RemoveClient(clients: seq<Connection>, c: Connection): (r: seq<Connection>)
    ensures forall k :: 0 <= k < |r| ==> r[k] in clients && r[k] != c
    ensures forall k :: 0 <= k < |clients| && clients[k] != c ==> clients[k] in r
    ensures |r| <= |clients|
  {
    if clients == [] then []
    else if clients[0] == c then RemoveClient(clients[1..], c)
    else [clients[0]] + RemoveClient(clients[1..], c)
  }

  /** The closure variables of one accepted socket and what was written back on it. */
  class Connection {
    var metadataReceived: bool
    var fileMetadata: Option<Metadata>
    var fileBuffer: string
    var expectedFileSize: int
    /** Every `socket.write`, in order. */
    var written: seq<string>

    function State(): RecvState
      reads this
    {
      RecvState(metadataReceived, fileMetadata, fileBuffer, expectedFileSize)
    }

    ghost predicate Valid()
      reads this
    {
      State().Valid()
    }

    constructor()
      ensures State() == Fresh && written == []
    {
      metadataReceived := false;
      fileMetadata := None;
      fileBuffer := "";
      expectedFileSize := 0;
      written := [];
    }

    /** The `data` handler; returns the message shown and the file stored, if any. */
    method OnData(chunk: string, parse: JsonParse, downloadDir: string, storageOk: bool)
      returns (message: Option<string>, saved: Option<SavedFile>)
      requires Valid()
      modifies this
      ensures Valid()
      ensures var e := Step(old(State()), chunk, parse, downloadDir, storageOk);
        State() == e.next && written == old(written) + OptionSeq(e.reply)
        && message == e.message && saved == e.saved
    {
      message, saved := None, None;
      if StartsWith(chunk, HeaderPrefix) {
        var parsed := parse(HeaderMetadata(chunk));
        if parsed.Some? {
          fileMetadata := parsed;
          expectedFileSize := parsed.value.fileSize;
          metadataReceived := true;
          fileBuffer := "";
        } else {
          written := written + [MetadataErrorReply];
        }
        return;
      }
      if metadataReceived {
        fileBuffer := fileBuffer + chunk;
        if chunk == Terminator {
          var path := downloadDir + "/" + fileMetadata.value.fileName;
          if storageOk {
            saved := Some(SavedFile(path, fileBuffer));
            written := written + [Ack];
          } else {
            written := written + [SaveErrorReply];
          }
          metadataReceived := false;
          fileMetadata := None;
          fileBuffer := "";
        }
      } else if StartsWith(chunk, TextPrefix) {
        var text := ReplaceFirst(chunk, TextPrefix, "");
        message := Some(text);
        written := written + [TextReplyPrefix + text];
      }
    }
  }

  /** The server component: live sockets, listening port, last text message and stored files. */
  class Server {
    var clients: seq<Connection>
    var port: int
    var signalMessage: string
    /** The download directory's contents: path to bytes. */
    var files: map<string, string>
    const downloadDir: string

    constructor(downloadDir: string)
      ensures this.downloadDir == downloadDir
      ensures clients == [] && port == InitialPort && signalMessage == "" && files == map[]
    {
      this.downloadDir := downloadDir;
      clients := [];
      port := InitialPort;
      signalMessage := "";
      files := map[];
    }

    /** A socket is accepted: it gets fresh transfer state and joins `clients`. */
    method Accept() returns (c: Connection)
      modifies this
      ensures fresh(c) && c.State() == Fresh && c.written == []
      ensures clients == old(clients) + [c]
      ensures port == old(port) && signalMessage == old(signalMessage) && files == old(files)
    {
      c := new Connection();
      clients := clients + [c];
    }

    /** A `data` event on `c`: the connection steps, a text message becomes the signal message
        and a stored file lands in the download directory. */
    method OnData(c: Connection, chunk: string, parse: JsonParse, storageOk: bool)
      requires c.Valid()
      modifies this, c
      ensures c.Valid()
      ensures var e := Step(old(c.State()), chunk, parse, downloadDir, storageOk);
        c.State() == e.next && c.written == old(c.written) + OptionSeq(e.reply)
        && signalMessage == (if e.message.Some? then e.message.value else old(signalMessage))
        && files == (if e.saved.Some? then old(files)[e.saved.value.path := e.saved.value.content] else old(files))
      ensures clients == old(clients) && port == old(port)
    {
      var message, saved := c.OnData(chunk, parse, downloadDir, storageOk);
      if message.Some? {
        signalMessage := message.value;
      }
      if saved.Some? {
        files := files[saved.value.path := saved.value.content];
      }
    }

    /** An `error` or `close` event on `c`: it leaves `clients`. */
    method Disconnect(c: Connection)
      modifies this
      ensures clients == RemoveClient(old(clients), c) && c !in clients
      ensures port == old(port) && signalMessage == old(signalMessage) && files == old(files)
    {
      clients := RemoveClient(clients, c);
    }

    /** A server `error` event. */
    method OnServerError(error: string)
      modifies this
      ensures port == NextPort(old(port), error)
      ensures clients == old(clients) && signalMessage == old(signalMessage) && files == old(files)
    {
      if error == AddressInUse {
        port := port + 1;
      }
    }
  }
}

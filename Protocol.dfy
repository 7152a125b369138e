/**
 * What the two ends do together when each socket write arrives as one `data` event:
 * the sender's frames, fed to the receiver's state machine, give back the text or the file.
 */
module Protocol {
  import opened Wrappers
  import opened Strings
  import opened Wire
  import opened TcpServer
  import FileTransfer
  import App

  /** A text frame sent by the app yields exactly its text at a receiver that is not in a transfer. */
  lemma TextRoundTrip(s: RecvState, text: string, parse: JsonParse, dir: string, ok: bool)
    requires s.Valid() && !s.metadataReceived
    ensures Step(s, App.TextFrame(text), parse, dir, ok) == Effect(s, Some(TextReplyPrefix + text), None, Some(text))
  {
    var frame := App.TextFrame(text);
    TextWhenIdle(s, frame, parse, dir, ok);
  }

  /** The sender's header, with or without payload behind it in the same chunk, opens a transfer
      for exactly the metadata the sender encoded. */
  lemma HeaderRoundTrip(s: RecvState, metadata: string, rest: string, parse: JsonParse, dir: string, ok: bool)
    requires s.Valid() && parse(metadata).Some?
    ensures Step(s, FileTransfer.Header(metadata) + rest, parse, dir, ok).next
         == RecvState(true, parse(metadata), "", parse(metadata).value.fileSize)
  {
    assert FileTransfer.Header(metadata) + rest == HeaderPrefix + NatToString(|metadata|) + ":" + metadata + rest;
    HeaderTrailingBytesDropped(s, metadata, rest, parse, dir, ok);
  }

  /** Base64 text never looks like a header or the terminator: both carry a character at index 13
      (':' and '_') that base64 does not use. */
  lemma Base64IsPayload(chunk: string)
    requires IsBase64Text(chunk)
    ensures IsPayload(chunk)
  {
    assert !IsBase64Char(HeaderPrefix[13]) && !IsBase64Char(Terminator[13]);
    if |chunk| > 13 {
      assert IsBase64Char(chunk[13]);
    }
  }

  /** The chunks of base64 content are all payload. */
  lemma {:induction false} ChunksArePayload(content: string)
    requires IsBase64Text(content)
    ensures AllPayload(FileTransfer.Chunks(content))
    decreases |content|
  {
    var r := FileTransfer.Chunks(content);
    if content != [] {
      if |content| <= FileTransfer.ChunkSize {
        Base64IsPayload(content);
        assert r[1..] == [];
      } else {
        var head := content[..FileTransfer.ChunkSize];
        var tail := content[FileTransfer.ChunkSize..];
        assert IsBase64Text(head) by {
          forall k | 0 <= k < |head| ensures IsBase64Char(head[k]) { assert head[k] == content[k]; }
        }
        assert IsBase64Text(tail) by {
          forall k | 0 <= k < |tail| ensures IsBase64Char(tail[k]) { assert tail[k] == content[k + FileTransfer.ChunkSize]; }
        }
        Base64IsPayload(head);
        ChunksArePayload(tail);
        assert r[0] == head && r[1..] == FileTransfer.Chunks(tail);
      }
    }
  }

  /** The terminator closes an open transfer: one reply, the buffer and terminator stored on success. */
  lemma FeedTerminator(s: RecvState, parse: JsonParse, dir: string, ok: bool)
    requires s.Valid() && s.metadataReceived
    ensures Feed(s, [Terminator], parse, dir, ok)
         == Trace(RecvState(false, None, "", s.expectedFileSize),
                  [if ok then Ack else SaveErrorReply],
                  if ok then [SavedFile(dir + "/" + s.fileMetadata.value.fileName, s.fileBuffer + Terminator)] else [],
                  [])
  {
    FinalizeOutcome(s, parse, dir, ok);
    assert [Terminator][1..] == [];
  }

  /** Payload chunks and then the terminator, fed to an open transfer, store the buffer, the
      chunks and the terminator, reply once and close the transfer. */
  lemma {:induction false} PayloadThenTerminator(s: RecvState, chunks: seq<string>, parse: JsonParse, dir: string, ok: bool)
    requires s.Valid() && s.metadataReceived && AllPayload(chunks)
    ensures Feed(s, chunks + [Terminator], parse, dir, ok)
         == Trace(RecvState(false, None, "", s.expectedFileSize),
                  [if ok then Ack else SaveErrorReply],
                  if ok then [SavedFile(dir + "/" + s.fileMetadata.value.fileName, s.fileBuffer + Concat(chunks) + Terminator)] else [],
                  [])
    decreases |chunks|
  {
    if chunks == [] {
      assert chunks + [Terminator] == [Terminator];
      assert s.fileBuffer + Concat(chunks) == s.fileBuffer;
      FeedTerminator(s, parse, dir, ok);
    } else {
      var next := s.(fileBuffer := s.fileBuffer + chunks[0]);
      var name := s.fileMetadata.value.fileName;
      calc {
        Feed(s, chunks + [Terminator], parse, dir, ok);
      == { assert (chunks + [Terminator])[0] == chunks[0];
           assert (chunks + [Terminator])[1..] == chunks[1..] + [Terminator];
           FeedPayloadHead(s, chunks + [Terminator], parse, dir, ok); }
        Feed(next, chunks[1..] + [Terminator], parse, dir, ok);
      == { PayloadThenTerminator(next, chunks[1..], parse, dir, ok); }
        Trace(RecvState(false, None, "", s.expectedFileSize),
              [if ok then Ack else SaveErrorReply],
              if ok then [SavedFile(dir + "/" + name, next.fileBuffer + Concat(chunks[1..]) + Terminator)] else [],
              []);
      == { assert next.fileBuffer + Concat(chunks[1..]) == s.fileBuffer + Concat(chunks); }
        Trace(RecvState(false, None, "", s.expectedFileSize),
              [if ok then Ack else SaveErrorReply],
              if ok then [SavedFile(dir + "/" + name, s.fileBuffer + Concat(chunks) + Terminator)] else [],
              []);
      }
    }
  }

  /** A whole file transfer as the sender writes it. The receiver stores the payload followed by the
      terminator literal (it appends the terminator before testing for it) under the declared name,
      answers with the acknowledgement when the write succeeds and an error otherwise, and ends idle. */
  lemma FileRoundTrip(s: RecvState, metadata: string, content: string, parse: JsonParse, dir: string, ok: bool)
    requires s.Valid() && parse(metadata).Some? && IsBase64Text(content)
    ensures var md := parse(metadata).value;
      Feed(s, [FileTransfer.Header(metadata)] + FileTransfer.Chunks(content) + [Terminator], parse, dir, ok)
        == Trace(RecvState(false, None, "", md.fileSize),
                 [if ok then Ack else SaveErrorReply],
                 if ok then [SavedFile(dir + "/" + md.fileName, content + Terminator)] else [],
                 [])
  {
    var md := parse(metadata).value;
    var header := FileTransfer.Header(metadata);
    var chunks := FileTransfer.Chunks(content);
    var frames := [header] + chunks + [Terminator];
    var open := RecvState(true, Some(md), "", md.fileSize);
    HeaderOpensTransfer(s, metadata, parse, dir, ok);
    assert frames[0] == header && frames[1..] == chunks + [Terminator];
    FeedSilentStep(s, frames, parse, dir, ok);
    ChunksArePayload(content);
    FileTransfer.ChunksConcat(content);
    PayloadThenTerminator(open, chunks, parse, dir, ok);
    assert "" + content == content;
  }

  /** The sender's header alone: the transfer opens, nothing is answered. */
  lemma HeaderOpensTransfer(s: RecvState, metadata: string, parse: JsonParse, dir: string, ok: bool)
    requires s.Valid() && parse(metadata).Some?
    ensures var md := parse(metadata).value;
      Step(s, FileTransfer.Header(metadata), parse, dir, ok) == Effect(RecvState(true, Some(md), "", md.fileSize), None, None, None)
  {
    var header := FileTransfer.Header(metadata);
    HeaderMetadataRecovers(metadata, "");
    assert HeaderPrefix + NatToString(|metadata|) + ":" + metadata + "" == header;
    HeaderRestartsTransfer(s, header, parse, dir, ok, parse(metadata).value);
  }
}

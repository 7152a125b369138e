/**
 * The sending side of a file transfer: the header that announces the metadata, the payload cut
 * into fixed-size chunks, the terminator, and how the receiver's reply sets the status shown.
 */
module FileTransfer {
  import opened Wrappers
  import opened Strings
  import opened Wire

  const ChunkSize: nat := 4096
  const DefaultFileType: string := "application/octet-stream"

  /** A picked document: its URI and its MIME type, if the picker gave one. */
  datatype PickedFile = PickedFile(uri: string, fileType: Option<string>)

  /** The `file` prop: the picker's single result or its array of results. */
  datatype FileArg = Single(file: PickedFile) | Many(files: seq<PickedFile>)

  /** What `RNFS.stat` reports and the transfer uses. */
  datatype FileStats = FileStats(name: string, size: int)

  /** Why a send stopped before connecting: the array was empty (reading `.uri` of `undefined`
      throws), or `RNFS.stat` / `RNFS.readFile` rejected with a message. */
  datatype ReadError = NoFileEntry | StatFailed(reason: string) | ReadFailed(reason: string)

  /** The component's `transferStatus`; the percentage of the in-progress text is not modelled. */
  datatype TransferStatus =
    | Blank
    | Failed(error: ReadError)
    | Transferring(transferred: nat)
    | Finished
    | Succeeded
    | ServerFailed
    | SocketFailed(reason: string)

  /** How a reply from the receiver is read. */
  datatype ReplyKind = AckReply | ErrorReply | OtherReply

  /** An array prop sends its first element. */
  function FileToTransfer(file: FileArg): Option<PickedFile> {
    match file
    case Single(f) => Some(f)
    case Many(fs) => if |fs| > 0 then Some(fs[0]) else None
  }

  /** The URI handed to RNFS: the first "file://" becomes "content://". */
  function CorrectedUri(uri: string): string {
    ReplaceFirst(uri, "file://", "content://")
  }

  lemma CorrectedUriSpec(uri: string)
    ensures StartsWith(uri, "file://") ==> CorrectedUri(uri) == "content://" + uri[7..]
    ensures !Occurs(uri, "file://") ==> CorrectedUri(uri) == uri
  {
    if StartsWith(uri, "file://") {
      ReplacePrefix(uri, "file://", "content://");
    }
    ReplaceFirstSpec(uri, "file://", "content://");
  }

  /** `type || "application/octet-stream"`: a missing or empty type falls back to the default. */
  function FileTypeOrDefault(fileType: Option<string>): (t: string)
    ensures t != ""
    ensures fileType.Some? && fileType.value != "" ==> t == fileType.value
    ensures fileType.None? || fileType.value == "" ==> t == DefaultFileType
  {
    if fileType.Some? && fileType.value != "" then fileType.value else DefaultFileType
  }

  /** The header frame for a metadata JSON text: prefix, its length in characters, ':', the text. */
  function Header(metadata: string): (h: string)
    ensures StartsWith(h, HeaderPrefix) && |h| > |HeaderPrefix| + |metadata|
    ensures h[|h| - |metadata|..] == metadata
  {
    HeaderPrefix + NatToString(|metadata|) + ":" + metadata
  }

  /** The payload cut as the sending loop cuts it: consecutive slices of `ChunkSize` characters. */
  function Chunks(content: string): seq<string>
    decreases |content|
  {
    if content == [] then []
    else if |content| <= ChunkSize then [content]
    else [content[..ChunkSize]] + Chunks(content[ChunkSize..])
  }

  /** The chunks put back together are the payload. */
  lemma {:induction false} ChunksConcat(content: string)
    ensures Concat(Chunks(content)) == content
    decreases |content|
  {
    if |content| > ChunkSize {
      ChunksConcat(content[ChunkSize..]);
      assert Chunks(content)[1..] == Chunks(content[ChunkSize..]);
      assert content[..ChunkSize] + content[ChunkSize..] == content;
    }
  }

  /** Every chunk is non-empty and at most `ChunkSize` long; all but the last are exactly that long;
      there are ceil(|content| / ChunkSize) of them, so none for an empty payload. */
  lemma {:induction false} ChunksShape(content: string)
    ensures var r := Chunks(content);
      (forall k :: 0 <= k < |r| ==> 0 < |r[k]| <= ChunkSize)
      && (forall k :: 0 <= k < |r| - 1 ==> |r[k]| == ChunkSize)
      && |r| == (|content| + ChunkSize - 1) / ChunkSize
    decreases |content|
  {
    if |content| > ChunkSize {
      var r := Chunks(content);
      var rest := Chunks(content[ChunkSize..]);
      ChunksShape(content[ChunkSize..]);
      assert r == [content[..ChunkSize]] + rest;
      forall k | 0 <= k < |r| ensures 0 < |r[k]| <= ChunkSize && (k < |r| - 1 ==> |r[k]| == ChunkSize) {
        if k > 0 {
          assert r[k] == rest[k - 1];
        }
      }
    }
  }

  /** One more turn of the sending loop at offset `i`. */
  lemma ChunksFrom(content: string, i: nat)
    requires i < |content|
    ensures Chunks(content[i..]) == [content[i..Min(i + ChunkSize, |content|)]] + Chunks(content[Min(i + ChunkSize, |content|)..])
  {
    var tail := content[i..];
    if |tail| > ChunkSize {
      assert tail[..ChunkSize] == content[i..i + ChunkSize];
      assert tail[ChunkSize..] == content[i + ChunkSize..];
    } else {
      assert content[i..|content|] == tail;
      assert Chunks(content[|content|..]) == [];
      assert Chunks(tail) == [tail];
    }
  }

  /** The loop's view of the chunks: those sent so far followed by the chunks of what is left. */
  lemma SentThenRest(content: string, sent: seq<string>, t: nat)
    requires t < |content| && sent + Chunks(content[t..]) == Chunks(content)
    ensures var e := Min(t + ChunkSize, |content|);
      (sent + [content[t..e]]) + Chunks(content[e..]) == Chunks(content)
  {
    ChunksFrom(content, t);
    var e := Min(t + ChunkSize, |content|);
    assert (sent + [content[t..e]]) + Chunks(content[e..]) == sent + ([content[t..e]] + Chunks(content[e..]));
  }

  /** Progress values after each chunk: positive, strictly rising, the last one equal to `top`. */
  predicate Rising(progress: seq<nat>, top: nat) {
    (forall k :: 0 <= k < |progress| ==> 0 < progress[k] <= top)
    && (forall k :: 0 < k < |progress| ==> progress[k - 1] < progress[k])
    && (|progress| > 0 ==> progress[|progress| - 1] == top)
  }

  lemma RisingAppend(progress: seq<nat>, top: nat, next: nat)
    requires Rising(progress, top) && top < next
    ensures Rising(progress + [next], next)
  {
  }

  /** The connection callback: header, the chunks in order, the terminator. `progress` holds
      `transferredBytes` after each chunk; it rises strictly and ends at the payload's length
      (it is empty for an empty payload). */
  method OnConnected(metadata: string, content: string) returns (writes: seq<string>, progress: seq<nat>)
    ensures writes == [Header(metadata)] + Chunks(content) + [Terminator]
    ensures |progress| == |Chunks(content)|
    ensures Rising(progress, |content|)
  {
    writes := [Header(metadata)];
    progress := [];
    var transferredBytes: nat := 0;
    var i: nat := 0;
    ghost var sent: seq<string> := [];
    while i < |content|
      invariant transferredBytes == Min(i, |content|)
      invariant writes == [Header(metadata)] + sent && |progress| == |sent|
      invariant sent + Chunks(content[transferredBytes..]) == Chunks(content)
      invariant Rising(progress, transferredBytes)
      invariant i > 0 ==> |progress| > 0
      decreases |content| - i
    {
      var end := Min(i + ChunkSize, |content|);
      var chunk := content[i..end];
      SentThenRest(content, sent, i);
      RisingAppend(progress, transferredBytes, transferredBytes + |chunk|);
      writes := writes + [chunk];
      sent := sent + [chunk];
      transferredBytes := transferredBytes + |chunk|;
      progress := progress + [transferredBytes];
      i := i + ChunkSize;
    }
    assert content[transferredBytes..] == [];
    writes := writes + [Terminator];
  }

  /** An acknowledgement anywhere in the reply wins over an error token anywhere in it. */
  function ClassifyReply(response: string): (k: ReplyKind)
    ensures k == AckReply <==> Occurs(response, Ack)
    ensures k == ErrorReply <==> !Occurs(response, Ack) && Occurs(response, ErrorTag)
  {
    if Includes(response, Ack) then AckReply
    else if Includes(response, ErrorTag) then ErrorReply
    else OtherReply
  }

  /** The component's status and the sends it starts. */
  class FileTransferComponent {
    var transferStatus: TransferStatus

    constructor()
      ensures transferStatus == Blank
    {
      transferStatus := Blank;
    }

    /** `sendFileToServer`. `stat`, `readFile` and `stringify` stand for RNFS and JSON; the
        connection is assumed to open, so its callback runs at once. */
    method SendFileToServer(file: Option<FileArg>, selectedService: Option<Endpoint>,
                            stat: string -> Result<FileStats, string>,
                            readFile: string -> Result<string, string>,
                            stringify: Metadata -> string)
      returns (conn: Option<Outbound>)
      modifies this
      ensures file.None? || selectedService.None? ==> conn.None? && transferStatus == old(transferStatus)
      ensures file.Some? && selectedService.Some? ==>
        match FileToTransfer(file.value)
        case None => conn.None? && transferStatus == Failed(NoFileEntry)
        case Some(f) =>
          var uri := CorrectedUri(f.uri);
          match stat(uri)
          case Err(why) => conn.None? && transferStatus == Failed(StatFailed(why))
          case Ok(stats) =>
            match readFile(uri)
            case Err(why) => conn.None? && transferStatus == Failed(ReadFailed(why))
            case Ok(content) =>
              var metadata := stringify(Metadata(stats.name, stats.size, FileTypeOrDefault(f.fileType)));
              transferStatus == Finished
              && conn == Some(Outbound(selectedService.value.host, selectedService.value.port,
                                       [Header(metadata)] + Chunks(content) + [Terminator]))
    {
      if file.None? || selectedService.None? {
        return None;
      }
      var picked := FileToTransfer(file.value);
      if picked.None? {
        transferStatus := Failed(NoFileEntry);
        return None;
      }
      var uri := CorrectedUri(picked.value.uri);
      var stats := stat(uri);
      if stats.Err? {
        transferStatus := Failed(StatFailed(stats.error));
        return None;
      }
      var fileContent := readFile(uri);
      if fileContent.Err? {
        transferStatus := Failed(ReadFailed(fileContent.error));
        return None;
      }
      var metadata := stringify(Metadata(stats.value.name, stats.value.size, FileTypeOrDefault(picked.value.fileType)));
      var writes, progress := OnConnected(metadata, fileContent.value);
      if |progress| > 0 {
        transferStatus := Transferring(progress[|progress| - 1]);
      }
      transferStatus := Finished;
      conn := Some(Outbound(selectedService.value.host, selectedService.value.port, writes));
    }

    /** A `data` event on the sending socket. */
    method OnData(response: string)
      modifies this
      ensures transferStatus == match ClassifyReply(response)
                                case AckReply => Succeeded
                                case ErrorReply => ServerFailed
                                case OtherReply => old(transferStatus)
    {
      var kind := ClassifyReply(response);
      if kind == AckReply {
        transferStatus := Succeeded;
      } else if kind == ErrorReply {
        transferStatus := ServerFailed;
      }
    }

    /** An `error` event on the sending socket. */
    method OnSocketError(reason: string)
      modifies this
      ensures transferStatus == SocketFailed(reason)
    {
      transferStatus := SocketFailed(reason);
    }
  }
}

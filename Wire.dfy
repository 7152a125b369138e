/** The literal tokens of the wire protocol and the values that cross module boundaries. */
module Wire {

  /** Opens a file-transfer header: `FILE_TRANSFER:<length>:<metadata json>`. */
  const HeaderPrefix: string := "FILE_TRANSFER:"
  /** A chunk equal to this literal ends the current file transfer. */
  const Terminator: string := "FILE_TRANSFER_END"
  /** Receiver's reply after the file was stored. */
  const Ack: string := "FILE_TRANSFER_ACK"
  /** Every error reply of the receiver starts with this literal. */
  const ErrorTag: string := "FILE_TRANSFER_ERROR"
  const MetadataErrorReply: string := ErrorTag + ": 元数据解析失败"
  const SaveErrorReply: string := ErrorTag + ": 文件保存失败"
  /** Opens a text frame: `TEXT_MESSAGE:<text>`, running to the end of the chunk. */
  const TextPrefix: string := "TEXT_MESSAGE:"
  /** The receiver confirms a text message with this prefix followed by the message. */
  const TextReplyPrefix: string := "收到消息: "

  /** The object carried, as JSON, by a file-transfer header. */
  datatype Metadata = Metadata(fileName: string, fileSize: int, fileType: string)

  /** The `{name, host, port}` record a send is addressed to. */
  datatype Endpoint = Endpoint(name: string, host: string, port: int)

  /** One outbound connection: where it goes and the strings written on it, in order. */
  datatype Outbound = Outbound(host: string, port: int, writes: seq<string>)

  /** The characters RNFS's base64 reader produces. */
  predicate IsBase64Char(c: char) {
    ('A' <= c <= 'Z') || ('a' <= c <= 'z') || ('0' <= c <= '9') || c == '+' || c == '/' || c == '='
  }

  predicate IsBase64Text(s: string) {
    forall k :: 0 <= k < |s| ==> IsBase64Char(s[k])
  }
}

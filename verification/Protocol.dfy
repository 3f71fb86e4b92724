/** The DAP base protocol's three kinds of message; JSON values stay opaque bytes. */
module Protocol {
  import opened ByteText

  type Json = Bytes

  datatype ProtocolMessage =
    | Request(seqNo: nat, command: string, arguments: Json)
    | Response(seqNo: nat, requestSeq: nat, success: bool, body: Json)
    | Event(seqNo: nat, event: string, body: Json)
}

/** internal/protocol/agent/frame.go: the fields the codec uses. */
module Frames {

  type Bytes = seq<bv8>

  datatype Kind = Response | WebSocketMessage

  datatype Frame = Frame(
    kind: Kind,
    id: nat,
    headers: map<string, seq<string>>,
    body: Bytes,
    more: bool,
    status: int,
    error: string,
    messageType: string)

  const MAX_PAYLOAD: nat := 65536
}

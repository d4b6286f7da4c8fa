/** The wire messages, decoded. */
module Messages {
  import opened Common
  import opened Records

  datatype MessageType =
    | PING | PONG | AUTH_REQUEST | AUTH_RESPONSE | JOIN_ROOM | JOIN_ROOM_ACK | TURN | MATCH_END | OTHER(n: int)

  /** A payload as its type decodes it; `Undecodable` is a payload that does not. */
  datatype Body =
    | Undecodable
    | PingBody(clientMs: int)
    | PongBody(sentMs: int, serverMs: int)
    | AuthRequestBody(idToken: string)
    | AuthResponseBody(ok: bool, uid: string, error: string)
    | JoinRoomBody(joinId: string)
    | JoinRoomAckBody(joined: bool, matchId: string, role: string, opponentUid: string, reason: string)
    | TurnBody(turnMatchId: string, payload: seq<int>)
    | MatchEndBody(end: MatchEnd)

  datatype Envelope = Envelope(kind: MessageType, requestId: string, body: Body)

  /** An inbound WebSocket message: text, or binary that may decode as an envelope. */
  datatype Frame = Text | Binary(env: Option<Envelope>)
}

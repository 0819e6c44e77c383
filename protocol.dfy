/**
 * The JSON frames exchanged over the WebSocket, as closed variants, and the
 * connection object itself.
 */
module Protocol {
  import opened Wrappers
  import opened Schema

  /**
   * A WebSocket connection. Its identity is the object's identity (the
   * source compares sockets with `===`); `isOpen` stands for `readyState === 1`
   * and is changed only by the transport, never by the handlers modelled here.
   */
  class Socket {
    var isOpen: bool

    constructor ()
      ensures isOpen
    {
      isOpen := true;
    }
  }

  /** The `message` object of a chat message: `type` and `imageUrl` may be absent. */
  datatype MessagePayload = MessagePayload(content: string, msgType: Option<string>, imageUrl: Option<string>)

  /** Frames a client sends to the server; any other `type` is `Unrecognized`. */
  datatype ClientFrame =
    | Authenticate(userId: UserId)
    | RandomMessage(senderId: UserId, message: MessagePayload)
    | Typing(userId: UserId, isTyping: bool)
    | Unrecognized(kind: string)

  /** Frames the server pushes to a client (the `timestamp` of a relayed message is left out). */
  datatype ServerFrame =
    | Authenticated(userId: UserId)
    | MatchFound(chat: RandomChat, partner: Option<User>)
    | RelayedMessage(message: MessagePayload, senderId: UserId)
    | RelayedTyping(isTyping: bool)
    | PartnerSkipped
    | ChatEnded
}

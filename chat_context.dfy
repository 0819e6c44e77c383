/**
 * The browser side of random chat (client/src/contexts/chat-context.tsx): the
 * state a chat page shows, how each server frame changes it, and the actions
 * the page offers (search, skip, end, send, typing, friend request).
 *
 * The React state hooks become the fields of `ChatSession`; what the page
 * shows is the value `View()`, and the socket's `onmessage` handler is
 * specified by the pure function `Receive` on that value. Frames written to
 * the socket and HTTP requests issued are recorded in `wsSent` and `requests`.
 */
module ChatContext {
  import opened Wrappers
  import opened Schema
  import opened Protocol

  const TEXT := "text"

  /** A chat message as the page keeps it (its client-side id and timestamp are not modelled). */
  datatype Message = Message(content: string, senderId: UserId, msgType: string, imageUrl: Option<string>)

  /** What the chat page shows. */
  datatype ChatView = ChatView(
    isSearching: bool,
    currentChat: Option<RandomChat>,
    partner: Option<User>,
    messages: seq<Message>,
    isPartnerTyping: bool)

  /** An HTTP request the page issues. */
  datatype ApiRequest =
    | PostFindMatch(userId: UserId, preferredGender: string)
    | PostSkip(userId: UserId, partnerId: UserId)
    | PostEnd(userId: UserId)
    | PostFriendRequest(userId: UserId, friendId: UserId)

  /** How a `fetch` settles: with any HTTP status, or by throwing (network failure). */
  datatype FetchOutcome = Responded(status: int) | NetworkError

  /** The page never shows a partner without a chat. */
  predicate PartnerOnlyInChat(v: ChatView) {
    v.partner.Some? ==> v.currentChat.Some?
  }

  /** The type of a received message: `data.message.type || "text"`. */
  function MessageTypeOf(msgType: Option<string>): (t: string)
    ensures t != ""
    ensures t == TEXT <==> msgType == None || msgType == Some("") || msgType == Some(TEXT)
    ensures msgType.Some? && msgType.value != "" ==> t == msgType.value
  {
    if msgType.None? || msgType.value == "" then TEXT else msgType.value
  }

  /** The message the page stores for a relayed `random_message`. */
  function MessageOf(payload: MessagePayload, senderId: UserId): (m: Message)
    ensures m.content == payload.content && m.senderId == senderId && m.imageUrl == payload.imageUrl
    ensures m.msgType != ""
  {
    Message(payload.content, senderId, MessageTypeOf(payload.msgType), payload.imageUrl)
  }

  /** The view after the partner left or the chat ended: no chat, no partner, no history, no typing. */
  function Cleared(v: ChatView): (r: ChatView)
    ensures r.currentChat.None? && r.partner.None? && r.messages == [] && !r.isPartnerTyping
    ensures r.isSearching == v.isSearching
    ensures PartnerOnlyInChat(r)
  {
    ChatView(v.isSearching, None, None, [], false)
  }

  /**
   * The `onmessage` switch: how one server frame changes the view. Only a
   * relayed message extends the history, keeping what was there; any other
   * frame keeps the history or empties it. No frame shows a partner without
   * a chat.
   */
  function Receive(v: ChatView, frame: ServerFrame): (r: ChatView)
    ensures PartnerOnlyInChat(v) ==> PartnerOnlyInChat(r)
    ensures frame.RelayedMessage? ==>
      && |r.messages| == |v.messages| + 1
      && r.messages[..|v.messages|] == v.messages
      && r.messages[|v.messages|].senderId == frame.senderId
    ensures !frame.RelayedMessage? ==> r.messages == v.messages || r.messages == []
  {
    match frame
    case MatchFound(chat, partner) =>
      v.(currentChat := Some(chat), partner := partner, isSearching := false, messages := [])
    case RelayedMessage(message, senderId) =>
      v.(messages := v.messages + [MessageOf(message, senderId)])
    case RelayedTyping(isTyping) =>
      v.(isPartnerTyping := isTyping)
    case PartnerSkipped => Cleared(v)
    case ChatEnded => Cleared(v)
    case Authenticated(_) => v
  }

  /** A stream of frames, handled in order. */
  function ReceiveAll(v: ChatView, frames: seq<ServerFrame>): ChatView
    decreases |frames|
  {
    if frames == [] then v else ReceiveAll(Receive(v, frames[0]), frames[1..])
  }

  /** The messages the relayed frames among `frames` carry, in order. */
  function RelayedMessages(frames: seq<ServerFrame>): (ms: seq<Message>)
    ensures |ms| <= |frames|
    ensures |ms| == |frames| <==> forall i :: 0 <= i < |frames| ==> frames[i].RelayedMessage?
    ensures ms == [] <==> forall i :: 0 <= i < |frames| ==> !frames[i].RelayedMessage?
  {
    if frames == [] then []
    else
      var rest := RelayedMessages(frames[1..]);
      assert forall i :: 1 <= i < |frames| ==> frames[i] == frames[1..][i - 1];
      match frames[0]
      case RelayedMessage(message, senderId) => [MessageOf(message, senderId)] + rest
      case _ => rest
  }

  /** The message one frame contributes: its message when it is a relayed message, nothing otherwise. */
  function Contribution(frame: ServerFrame): seq<Message> {
    if frame.RelayedMessage? then [MessageOf(frame.message, frame.senderId)] else []
  }

  /** A single frame contributes its message when it is a relayed message, and nothing otherwise. */
  lemma RelayedMessagesOne(frame: ServerFrame)
    ensures RelayedMessages([frame]) == Contribution(frame)
  {
  }

  /** `RelayedMessages` of a non-empty run: the head's contribution, then the tail's messages. */
  lemma RelayedMessagesCons(frames: seq<ServerFrame>)
    requires frames != []
    ensures RelayedMessages(frames) == Contribution(frames[0]) + RelayedMessages(frames[1..])
  {
  }

  /** Collecting messages distributes over concatenation: one message per relayed frame, in frame order. */
  lemma {:induction false} RelayedMessagesAppend(a: seq<ServerFrame>, b: seq<ServerFrame>)
    ensures RelayedMessages(a + b) == RelayedMessages(a) + RelayedMessages(b)
    decreases |a|
  {
    if a == [] {
      assert a + b == b;
    } else {
      var ab := a + b;
      assert ab[0] == a[0] && ab[1..] == a[1..] + b;
      calc {
        RelayedMessages(ab);
        == { RelayedMessagesCons(ab); }
        Contribution(a[0]) + RelayedMessages(a[1..] + b);
        == { RelayedMessagesAppend(a[1..], b); }
        Contribution(a[0]) + (RelayedMessages(a[1..]) + RelayedMessages(b));
        == (Contribution(a[0]) + RelayedMessages(a[1..])) + RelayedMessages(b);
        == { RelayedMessagesCons(a); }
        RelayedMessages(a) + RelayedMessages(b);
      }
    }
  }

  /** `match_found` shows the new chat and partner, stops searching and starts an empty history, whatever was shown before. */
  lemma MatchFoundStartsFreshChat(v: ChatView, chat: RandomChat, partner: Option<User>)
    ensures var r := Receive(v, MatchFound(chat, partner));
      && r.currentChat == Some(chat) && r.partner == partner
      && !r.isSearching && r.messages == []
      && r.isPartnerTyping == v.isPartnerTyping
  {
  }

  /** A `typing` frame shows the partner's typing flag as sent and changes nothing else. */
  lemma TypingFrameSetsOnlyTheIndicator(v: ChatView, isTyping: bool)
    ensures Receive(v, RelayedTyping(isTyping)) == v.(isPartnerTyping := isTyping)
  {
  }

  /** The `authenticated` acknowledgement has no case in the switch: the page does not change. */
  lemma AuthenticatedChangesNothing(v: ChatView, userId: UserId)
    ensures Receive(v, Authenticated(userId)) == v
  {
  }

  /** `partner_skipped` and `chat_ended` leave the page in the same state. */
  lemma SkipAndEndLookAlike(v: ChatView)
    ensures Receive(v, PartnerSkipped) == Receive(v, ChatEnded) == Cleared(v)
  {
  }

  /** Every frame except a relayed message is idempotent: a duplicate delivery changes nothing. */
  lemma DuplicateFrameIsHarmless(v: ChatView, frame: ServerFrame)
    requires !frame.RelayedMessage?
    ensures Receive(Receive(v, frame), frame) == Receive(v, frame)
  {
  }

  /** A run of relayed messages appends exactly their contents, in order, and changes nothing else. */
  lemma {:induction false} RelayedMessagesAccumulate(v: ChatView, frames: seq<ServerFrame>)
    requires forall i :: 0 <= i < |frames| ==> frames[i].RelayedMessage?
    ensures ReceiveAll(v, frames) == v.(messages := v.messages + RelayedMessages(frames))
    ensures |RelayedMessages(frames)| == |frames|
    decreases |frames|
  {
    if frames != [] {
      var m := MessageOf(frames[0].message, frames[0].senderId);
      var v' := Receive(v, frames[0]);
      assert v' == v.(messages := v.messages + [m]);
      assert RelayedMessages(frames) == [m] + RelayedMessages(frames[1..]);
      assert ReceiveAll(v, frames) == ReceiveAll(v', frames[1..]);
      RelayedMessagesAccumulate(v', frames[1..]);
      assert v.messages + [m] + RelayedMessages(frames[1..]) == v.messages + RelayedMessages(frames);
    }
  }

  /** The frames of a chat in progress: relayed messages, typing indicators and the `authenticated` acknowledgement. */
  predicate InChatFrame(frame: ServerFrame) {
    frame.RelayedMessage? || frame.RelayedTyping? || frame.Authenticated?
  }

  /**
   * A run of in-chat frames, typing indicators included, appends exactly the
   * messages it relays, in order, and keeps the chat, the partner and the
   * search flag.
   */
  lemma {:induction false} HistoryAccumulates(v: ChatView, frames: seq<ServerFrame>)
    requires forall i :: 0 <= i < |frames| ==> InChatFrame(frames[i])
    ensures var r := ReceiveAll(v, frames);
      && r.messages == v.messages + RelayedMessages(frames)
      && r.currentChat == v.currentChat && r.partner == v.partner && r.isSearching == v.isSearching
    decreases |frames|
  {
    if frames != [] {
      var v' := Receive(v, frames[0]);
      assert v'.messages == v.messages + Contribution(frames[0]);
      assert v'.currentChat == v.currentChat && v'.partner == v.partner && v'.isSearching == v.isSearching;
      assert ReceiveAll(v, frames) == ReceiveAll(v', frames[1..]);
      RelayedMessagesCons(frames);
      assert forall i :: 0 <= i < |frames[1..]| ==> frames[1..][i] == frames[i + 1];
      HistoryAccumulates(v', frames[1..]);
      assert v.messages + Contribution(frames[0]) + RelayedMessages(frames[1..])
          == v.messages + (Contribution(frames[0]) + RelayedMessages(frames[1..]));
    }
  }

  /**
   * After `match_found`, while the chat goes on (messages, typing indicators,
   * acknowledgements), the history holds exactly the messages relayed since
   * and the page shows the new chat and partner.
   */
  lemma NewChatHistoryIsWhatWasRelayed(v: ChatView, chat: RandomChat, partner: Option<User>, frames: seq<ServerFrame>)
    requires forall i :: 0 <= i < |frames| ==> InChatFrame(frames[i])
    ensures ReceiveAll(v, [MatchFound(chat, partner)] + frames).messages == RelayedMessages(frames)
    ensures ReceiveAll(v, [MatchFound(chat, partner)] + frames).currentChat == Some(chat)
    ensures ReceiveAll(v, [MatchFound(chat, partner)] + frames).partner == partner
  {
    var fs := [MatchFound(chat, partner)] + frames;
    assert fs[0] == MatchFound(chat, partner) && fs[1..] == frames;
    HistoryAccumulates(Receive(v, MatchFound(chat, partner)), frames);
  }

  /**
   * The sender's local echo of a message equals the copy the partner stores
   * from the relayed frame, for every type the page sends ("text", "image").
   */
  lemma LocalEchoMatchesRelayedCopy(content: string, senderId: UserId, msgType: string, imageUrl: Option<string>)
    requires msgType != ""
    ensures MessageOf(MessagePayload(content, Some(msgType), imageUrl), senderId)
         == Message(content, senderId, msgType, imageUrl)
  {
  }

  /**
   * One browser tab's chat provider for a fixed logged-in `user` (or none).
   * The typing timer and the socket's events are methods the environment calls.
   */
  class ChatSession {
    const user: Option<User>
    var hasSocket: bool
    var isSearching: bool
    var currentChat: Option<RandomChat>
    var partner: Option<User>
    var messages: seq<Message>
    var isPartnerTyping: bool
    var wsSent: seq<ClientFrame>
    var requests: seq<ApiRequest>

    function View(): ChatView
      reads this
    {
      ChatView(isSearching, currentChat, partner, messages, isPartnerTyping)
    }

    /** A socket exists only for a logged-in user, and no partner is shown without a chat. */
    ghost predicate Valid()
      reads this
    {
      && (hasSocket ==> user.Some?)
      && PartnerOnlyInChat(View())
    }

    /** Mounting the provider: the effect opens a socket only when a user is logged in. */
    constructor (user: Option<User>)
      ensures Valid()
      ensures this.user == user && hasSocket == user.Some?
      ensures View() == ChatView(false, None, None, [], false)
      ensures wsSent == [] && requests == []
    {
      this.user := user;
      hasSocket := user.Some?;
      isSearching := false;
      currentChat := None;
      partner := None;
      messages := [];
      isPartnerTyping := false;
      wsSent := [];
      requests := [];
    }

    /** The socket opened: the client authenticates as its user. */
    method OnOpen()
      requires Valid() && hasSocket
      modifies this
      ensures Valid()
      ensures View() == old(View()) && hasSocket && requests == old(requests)
      ensures wsSent == old(wsSent) + [Authenticate(user.value.id)]
    {
      wsSent := wsSent + [Authenticate(user.value.id)];
    }

    /** A frame arrived on the socket. */
    method OnMessage(frame: ServerFrame)
      requires Valid() && hasSocket
      modifies this
      ensures Valid()
      ensures View() == Receive(old(View()), frame)
      ensures hasSocket == old(hasSocket) && wsSent == old(wsSent) && requests == old(requests)
    {
      match frame
      case MatchFound(chat, p) =>
        currentChat := Some(chat);
        partner := p;
        isSearching := false;
        messages := [];
      case RelayedMessage(message, senderId) =>
        messages := messages + [MessageOf(message, senderId)];
      case RelayedTyping(isTyping) =>
        isPartnerTyping := isTyping;
      case PartnerSkipped =>
        currentChat := None;
        partner := None;
        messages := [];
        isPartnerTyping := false;
      case ChatEnded =>
        currentChat := None;
        partner := None;
        messages := [];
        isPartnerTyping := false;
      case Authenticated(_) =>
    }

    /** The three-second timer started by a `typing: true` frame fired. */
    method TypingTimerFired()
      requires Valid()
      modifies this
      ensures Valid()
      ensures View() == old(View()).(isPartnerTyping := false)
      ensures hasSocket == old(hasSocket) && wsSent == old(wsSent) && requests == old(requests)
    {
      isPartnerTyping := false;
    }

    /**
     * `startSearch`: without a user nothing happens; otherwise the page shows
     * searching and asks for a match. It stops searching only when the request
     * fails to reach the server: a 404 or any other status keeps it searching
     * (a match arrives as a `match_found` frame).
     */
    method StartSearch(preferredGender: string, outcome: FetchOutcome)
      requires Valid()
      modifies this
      ensures Valid()
      ensures hasSocket == old(hasSocket) && wsSent == old(wsSent)
      ensures user.None? ==> View() == old(View()) && requests == old(requests)
      ensures user.Some? ==>
        && requests == old(requests) + [PostFindMatch(user.value.id, preferredGender)]
        && View() == old(View()).(isSearching := !outcome.NetworkError?)
    {
      if user.None? {
        return;
      }
      isSearching := true;
      requests := requests + [PostFindMatch(user.value.id, preferredGender)];
      match outcome
      case Responded(status) =>
        if status == 404 {
          return;
        }
      case NetworkError =>
        isSearching := false;
    }

    /** `stopSearch`: the page stops showing searching. */
    method StopSearch()
      requires Valid()
      modifies this
      ensures Valid()
      ensures View() == old(View()).(isSearching := false)
      ensures hasSocket == old(hasSocket) && wsSent == old(wsSent) && requests == old(requests)
    {
      isSearching := false;
    }

    /**
     * `skipPartner`: with a user, a partner and a chat, the server is told to
     * skip that partner; once it answers (with any status) the chat is cleared
     * from the page, and a failed request leaves the page as it was.
     */
    method SkipPartner(outcome: FetchOutcome)
      requires Valid()
      modifies this
      ensures Valid()
      ensures hasSocket == old(hasSocket) && wsSent == old(wsSent)
      ensures user.None? || old(partner).None? || old(currentChat).None? ==>
        View() == old(View()) && requests == old(requests)
      ensures user.Some? && old(partner).Some? && old(currentChat).Some? ==>
        && requests == old(requests) + [PostSkip(user.value.id, old(partner).value.id)]
        && View() == (if outcome.Responded? then Cleared(old(View())) else old(View()))
    {
      if user.None? || partner.None? || currentChat.None? {
        return;
      }
      requests := requests + [PostSkip(user.value.id, partner.value.id)];
      if outcome.Responded? {
        currentChat := None;
        partner := None;
        messages := [];
        isPartnerTyping := false;
      }
    }

    /**
     * `endChat`: with a user and a chat, the server is told to end it; once it
     * answers (with any status) the chat is cleared from the page.
     */
    method EndChat(outcome: FetchOutcome)
      requires Valid()
      modifies this
      ensures Valid()
      ensures hasSocket == old(hasSocket) && wsSent == old(wsSent)
      ensures user.None? || old(currentChat).None? ==> View() == old(View()) && requests == old(requests)
      ensures user.Some? && old(currentChat).Some? ==>
        && requests == old(requests) + [PostEnd(user.value.id)]
        && View() == (if outcome.Responded? then Cleared(old(View())) else old(View()))
    {
      if user.None? || currentChat.None? {
        return;
      }
      requests := requests + [PostEnd(user.value.id)];
      if outcome.Responded? {
        currentChat := None;
        partner := None;
        messages := [];
        isPartnerTyping := false;
      }
    }

    /**
     * `sendMessage`: with a user, a socket and a chat, the message (type
     * "text" unless given) is appended to the page's history and written to
     * the socket as `random_message`; otherwise nothing happens.
     */
    method SendMessage(content: string, msgType: Option<string>, imageUrl: Option<string>)
      requires Valid()
      modifies this
      ensures Valid()
      ensures hasSocket == old(hasSocket) && requests == old(requests)
      ensures user.None? || !hasSocket || old(currentChat).None? ==> View() == old(View()) && wsSent == old(wsSent)
      ensures user.Some? && hasSocket && old(currentChat).Some? ==>
        var t := if msgType.Some? then msgType.value else TEXT;
        && View() == old(View()).(messages := old(messages) + [Message(content, user.value.id, t, imageUrl)])
        && wsSent == old(wsSent) + [RandomMessage(user.value.id, MessagePayload(content, Some(t), imageUrl))]
    {
      if user.None? || !hasSocket || currentChat.None? {
        return;
      }
      var t := if msgType.Some? then msgType.value else TEXT;
      messages := messages + [Message(content, user.value.id, t, imageUrl)];
      wsSent := wsSent + [RandomMessage(user.value.id, MessagePayload(content, Some(t), imageUrl))];
    }

    /** `setTyping`: with a user, a socket and a chat, a `typing` frame is written. */
    method SetTyping(isTyping: bool)
      requires Valid()
      modifies this
      ensures Valid()
      ensures View() == old(View()) && hasSocket == old(hasSocket) && requests == old(requests)
      ensures user.None? || !hasSocket || currentChat.None? ==> wsSent == old(wsSent)
      ensures user.Some? && hasSocket && currentChat.Some? ==>
        wsSent == old(wsSent) + [Typing(user.value.id, isTyping)]
    {
      if user.None? || !hasSocket || currentChat.None? {
        return;
      }
      wsSent := wsSent + [Typing(user.value.id, isTyping)];
    }

    /** `sendFriendRequest`: with a user and a partner, a friend request to the partner is posted; the page does not change. */
    method SendFriendRequest()
      requires Valid()
      modifies this
      ensures Valid()
      ensures View() == old(View()) && hasSocket == old(hasSocket) && wsSent == old(wsSent)
      ensures user.None? || partner.None? ==> requests == old(requests)
      ensures user.Some? && partner.Some? ==>
        requests == old(requests) + [PostFriendRequest(user.value.id, partner.value.id)]
    {
      if user.None? || partner.None? {
        return;
      }
      requests := requests + [PostFriendRequest(user.value.id, partner.value.id)];
    }
  }
}

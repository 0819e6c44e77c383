/**
 * The random-chat request handlers and the WebSocket relay of the server
 * (server/routes.ts), run one at a time.
 *
 * The server holds the storage tables, the `userSockets` map from user id to
 * connection, and `sent`, every frame handed to `socket.send` in order. HTTP
 * plumbing is reduced to the outcome of each request.
 */
module Routes {
  import opened Wrappers
  import opened Schema
  import opened Protocol
  import opened OrderedMap
  import opened Storage

  /** A frame handed to `socket.send`. */
  datatype Delivery = Delivery(socket: Socket, frame: ServerFrame)

  /** The outcome of `POST /api/chat/find-match`. */
  datatype MatchResponse =
    | Matched(chat: RandomChat, partner: User)
    | AlreadyInChat
    | NoneAvailable
  {
    function Status(): int {
      match this
      case Matched(_, _) => 200
      case AlreadyInChat => 400
      case NoneAvailable => 404
    }
  }

  /** The outcome of `POST /api/friends/request`. */
  datatype FriendRequestResponse =
    | Requested(friendship: Friendship)
    | RequestExists
  {
    function Status(): int {
      if Requested? then 200 else 400
    }
  }

  /** `userSockets`: a JavaScript `Map` from user id to connection. */
  type SocketMap = seq<Entry<UserId, Socket>>

  /** The member of `chat` to notify when `userId` acts: `user1Id === userId ? user2Id : user1Id`. */
  function PartnerOf(chat: RandomChat, userId: UserId): (p: UserId)
    ensures chat.HasMember(p)
    ensures chat.HasMember(userId) && chat.user1Id != chat.user2Id ==> p != userId
    ensures chat.HasMember(userId) ==> {p, userId} == {chat.user1Id, chat.user2Id}
  {
    if chat.user1Id == userId then chat.user2Id else chat.user1Id
  }

  /**
   * `const s = userSockets.get(userId); if (s) s.send(frame)`: one delivery of
   * `frame`, to the user's registered socket, or none when there is none.
   */
  function Notify(sockets: SocketMap, userId: UserId, frame: ServerFrame): (ds: seq<Delivery>)
    ensures |ds| <= 1
    ensures ds != [] <==> userId in Keys(sockets)
    ensures forall d :: d in ds ==> Get(sockets, userId) == Some(d.socket) && d.frame == frame
  {
    match Get(sockets, userId)
    case Some(s) => [Delivery(s, frame)]
    case None => []
  }

  /** The index of the first entry bound to `ws`: where the `close` handler's loop stops. */
  function FirstEntryOf(sockets: SocketMap, ws: Socket): (r: Option<nat>)
    ensures r.Some? ==> r.value < |sockets| && sockets[r.value].value == ws
    ensures r.Some? ==> forall j :: 0 <= j < r.value ==> sockets[j].value != ws
    ensures r.None? ==> forall j :: 0 <= j < |sockets| ==> sockets[j].value != ws
  {
    if sockets == [] then None
    else if sockets[0].value == ws then Some(0)
    else
      match FirstEntryOf(sockets[1..], ws)
      case None => None
      case Some(k) => Some(k + 1)
  }

  /** `userSockets` after the `close` handler of `ws` ran: the first entry bound to `ws` is deleted. */
  function WithoutSocket(sockets: SocketMap, ws: Socket): SocketMap {
    match FirstEntryOf(sockets, ws)
    case None => sockets
    case Some(k) => Delete(sockets, sockets[k].key)
  }

  /** `close` removes at most one entry, and only one whose socket is the closing socket. */
  lemma CloseRemovesOnlyThatSocket(sockets: SocketMap, ws: Socket)
    requires KeysUnique(sockets)
    ensures KeysUnique(WithoutSocket(sockets, ws))
    ensures FirstEntryOf(sockets, ws).None? ==> WithoutSocket(sockets, ws) == sockets
    ensures FirstEntryOf(sockets, ws).Some? ==>
      var k := FirstEntryOf(sockets, ws).value;
      sockets[k].value == ws && WithoutSocket(sockets, ws) == sockets[..k] + sockets[k + 1..]
  {
    match FirstEntryOf(sockets, ws)
    case None =>
    case Some(k) =>
      DeleteAt(sockets, sockets[k].key, k);
      DeleteKeepsKeysUnique(sockets, sockets[k].key);
  }

  /**
   * A socket that closes after its user re-authenticated on a newer socket
   * does not remove the newer binding.
   */
  lemma StaleCloseKeepsNewerBinding(sockets: SocketMap, ws: Socket, userId: UserId)
    requires KeysUnique(sockets)
    requires Get(sockets, userId).Some? && Get(sockets, userId).value != ws
    ensures Get(WithoutSocket(sockets, ws), userId) == Get(sockets, userId)
  {
    match FirstEntryOf(sockets, ws)
    case None =>
    case Some(k) =>
      var s := Get(sockets, userId).value;
      assert Entry(userId, s) in sockets;
      var i :| 0 <= i < |sockets| && sockets[i] == Entry(userId, s);
      assert i != k;
      assert sockets[k].key != userId;
      GetAfterDelete(sockets, sockets[k].key, userId);
  }

  /**
   * Scenario: A and B are online with nothing recorded. Whatever
   * `Math.random()` returns, A's find-match picks B.
   */
  lemma TwoOnlineUsersArePaired(a: User, b: User, random: real)
    requires a.id != b.id && a.isOnline && b.isOnline
    requires 0.0 <= random < 1.0
    ensures FindAvailableUser([a, b], [], [], a.id, ANY_GENDER, random) == Some(b)
  {
    var available := AvailableUsers([a, b], [], [], a.id, ANY_GENDER);
    assert GetSkippedUsers([], a.id) == [] && ActiveChatUserIds([]) == [];
    assert [a, b][1..] == [b] && [b][1..] == [];
    assert FilterCandidates([b], a.id, [], [], ANY_GENDER) == [b];
    assert available == FilterCandidates([b], a.id, [], [], ANY_GENDER);
    SingleCandidateIsChosen([a, b], [], [], a.id, ANY_GENDER, random);
  }

  /**
   * Scenario: after A skipped B and their chat ended, A is never offered B,
   * while B can still be offered A: the skip is A's alone.
   */
  lemma SkipExcludesOnlyForTheSkipper(a: User, b: User, chats: seq<RandomChat>, random: real)
    requires a.id != b.id && a.isOnline && b.isOnline
    requires !InActiveChat(chats, a.id) && !InActiveChat(chats, b.id)
    requires 0.0 <= random < 1.0
    ensures FindAvailableUser([a, b], chats, [SkipRecord(a.id, b.id)], a.id, ANY_GENDER, random).None?
    ensures exists r :: 0.0 <= r < 1.0 && FindAvailableUser([a, b], chats, [SkipRecord(a.id, b.id)], b.id, ANY_GENDER, r) == Some(a)
  {
    var skips := [SkipRecord(a.id, b.id)];
    assert !Eligible(b, chats, skips, a.id, ANY_GENDER);
    assert SkipRecord(b.id, a.id) !in skips;
    AnyEligibleUserCanBeChosen([a, b], chats, skips, b.id, ANY_GENDER, a);
  }

  class ChatServer {
    const storage: DatabaseStorage
    var userSockets: SocketMap
    var sent: seq<Delivery>

    /**
     * The server's invariant: the tables are well formed, the socket map has
     * unique keys, no user is in two active chats, nobody is paired with
     * themselves, and no two friendship rows link the same two users.
     */
    ghost predicate Valid()
      reads this, storage
    {
      && storage.Valid()
      && KeysUnique(userSockets)
      && OneActiveChatPerUser(storage.chats)
      && NoSelfChat(storage.chats)
      && OneFriendshipPerPair(storage.friendships)
    }

    /** A server over a users table, with no chats, skips, friendships or sockets. */
    constructor (users: seq<User>)
      ensures Valid() && fresh(storage)
      ensures storage.users == users && storage.chats == [] && storage.skippedUsers == [] && storage.friendships == []
      ensures userSockets == [] && sent == []
    {
      storage := new DatabaseStorage(users);
      userSockets := [];
      sent := [];
    }

    /** The partner's registered socket, when `senderId` is in an active chat. */
    function PartnerSocket(senderId: UserId): Option<Socket>
      reads this, storage
    {
      match GetUserActiveChat(storage.chats, senderId)
      case None => None
      case Some(chat) => Get(userSockets, PartnerOf(chat, senderId))
    }

    /**
     * `POST /api/chat/find-match`. A requester already in an active chat gets
     * 400 and nothing changes; with no eligible candidate, 404 and nothing
     * changes; otherwise exactly one new active chat joins the requester
     * (`user1Id`) and the chosen candidate (`user2Id`), and each of them that
     * has a socket receives `match_found` naming the other as partner.
     */
    method FindMatch(userId: UserId, preferredGender: string, random: real) returns (res: MatchResponse)
      requires Valid()
      requires 0.0 <= random < 1.0
      modifies this, storage
      ensures Valid()
      ensures userSockets == old(userSockets)
      ensures storage.users == old(storage.users) && storage.skippedUsers == old(storage.skippedUsers)
      ensures storage.friendships == old(storage.friendships)
      ensures res.AlreadyInChat? <==> InActiveChat(old(storage.chats), userId)
      ensures res.NoneAvailable? <==>
        && !InActiveChat(old(storage.chats), userId)
        && FindAvailableUser(old(storage.users), old(storage.chats), old(storage.skippedUsers), userId, preferredGender, random).None?
      ensures !res.Matched? ==> storage.chats == old(storage.chats) && sent == old(sent)
      ensures res.Matched? ==>
        && Some(res.partner)
           == FindAvailableUser(old(storage.users), old(storage.chats), old(storage.skippedUsers), userId, preferredGender, random)
        && res.partner.id != userId
        && res.chat == RandomChat(|old(storage.chats)| + 1, userId, res.partner.id, true)
        && storage.chats == old(storage.chats) + [res.chat]
        && GetUserActiveChat(storage.chats, userId) == Some(res.chat)
        && GetUserActiveChat(storage.chats, res.partner.id) == Some(res.chat)
        && sent == old(sent)
             + Notify(userSockets, userId, MatchFound(res.chat, Some(res.partner)))
             + Notify(userSockets, res.partner.id, MatchFound(res.chat, GetUser(storage.users, userId)))
    {
      var activeChat := GetUserActiveChat(storage.chats, userId);
      if activeChat.Some? {
        return AlreadyInChat;
      }
      var matchedUser := FindAvailableUser(storage.users, storage.chats, storage.skippedUsers, userId, preferredGender, random);
      if matchedUser.None? {
        return NoneAvailable;
      }
      var partner := matchedUser.value;
      ghost var before := storage.chats;
      var chat := storage.CreateRandomChat(userId, partner.id);
      NewChatKeepsOneActiveChatPerUser(before, chat);
      ActiveChatIsUnique(storage.chats, userId, |before|);
      ActiveChatIsUnique(storage.chats, partner.id, |before|);

      var userSocket := Get(userSockets, userId);
      var matchSocket := Get(userSockets, partner.id);
      if userSocket.Some? {
        sent := sent + [Delivery(userSocket.value, MatchFound(chat, Some(partner)))];
      }
      if matchSocket.Some? {
        var currentUser := GetUser(storage.users, userId);
        sent := sent + [Delivery(matchSocket.value, MatchFound(chat, currentUser))];
      }
      res := Matched(chat, partner);
    }

    /**
     * `POST /api/chat/skip`. The skip `(userId, partnerId)` is always
     * recorded. If the user has an active chat, that chat is ended and
     * `partner_skipped` goes to `partnerId`'s socket only, after which neither
     * member of the ended chat is in an active chat.
     */
    method Skip(userId: UserId, partnerId: UserId)
      requires Valid()
      modifies this, storage
      ensures Valid()
      ensures userSockets == old(userSockets)
      ensures storage.users == old(storage.users) && storage.friendships == old(storage.friendships)
      ensures storage.skippedUsers == old(storage.skippedUsers) + [SkipRecord(userId, partnerId)]
      ensures GetUserActiveChat(old(storage.chats), userId).None? ==>
        storage.chats == old(storage.chats) && sent == old(sent)
      ensures GetUserActiveChat(old(storage.chats), userId).Some? ==>
        var chat := GetUserActiveChat(old(storage.chats), userId).value;
        && storage.chats == WithChatEnded(old(storage.chats), chat.id)
        && !InActiveChat(storage.chats, chat.user1Id) && !InActiveChat(storage.chats, chat.user2Id)
        && sent == old(sent) + Notify(userSockets, partnerId, PartnerSkipped)
    {
      storage.AddSkippedUser(userId, partnerId);
      var activeChat := GetUserActiveChat(storage.chats, userId);
      if activeChat.Some? {
        EndChatKeepsInvariants(storage.chats, activeChat.value.id);
        EndingChatFreesItsMembers(storage.chats, userId);
        storage.EndRandomChat(activeChat.value.id);
        var partnerSocket := Get(userSockets, partnerId);
        if partnerSocket.Some? {
          sent := sent + [Delivery(partnerSocket.value, PartnerSkipped)];
        }
      }
    }

    /**
     * `POST /api/chat/end`. If the user has an active chat, it is ended and
     * `chat_ended` goes to the other member's socket; no skip is recorded.
     * Without an active chat nothing changes.
     */
    method End(userId: UserId)
      requires Valid()
      modifies this, storage
      ensures Valid()
      ensures userSockets == old(userSockets)
      ensures storage.users == old(storage.users) && storage.friendships == old(storage.friendships)
      ensures storage.skippedUsers == old(storage.skippedUsers)
      ensures GetUserActiveChat(old(storage.chats), userId).None? ==>
        storage.chats == old(storage.chats) && sent == old(sent)
      ensures GetUserActiveChat(old(storage.chats), userId).Some? ==>
        var chat := GetUserActiveChat(old(storage.chats), userId).value;
        && storage.chats == WithChatEnded(old(storage.chats), chat.id)
        && !InActiveChat(storage.chats, userId) && !InActiveChat(storage.chats, PartnerOf(chat, userId))
        && PartnerOf(chat, userId) != userId
        && sent == old(sent) + Notify(userSockets, PartnerOf(chat, userId), ChatEnded)
    {
      var activeChat := GetUserActiveChat(storage.chats, userId);
      if activeChat.Some? {
        EndChatKeepsInvariants(storage.chats, activeChat.value.id);
        EndingChatFreesItsMembers(storage.chats, userId);
        storage.EndRandomChat(activeChat.value.id);
        var partnerId := PartnerOf(activeChat.value, userId);
        var partnerSocket := Get(userSockets, partnerId);
        if partnerSocket.Some? {
          sent := sent + [Delivery(partnerSocket.value, ChatEnded)];
        }
      }
    }

    /**
     * `POST /api/auth/logout`. For a truthy id (here: non-zero) the user is
     * marked offline and their socket entry deleted; chats are left as they are.
     */
    method Logout(userId: UserId)
      requires Valid()
      modifies this, storage
      ensures Valid()
      ensures storage.chats == old(storage.chats) && storage.skippedUsers == old(storage.skippedUsers)
      ensures storage.friendships == old(storage.friendships) && sent == old(sent)
      ensures userId == 0 ==> userSockets == old(userSockets) && storage.users == old(storage.users)
      ensures userId != 0 ==>
        && storage.users == WithOnlineStatus(old(storage.users), userId, false)
        && userSockets == Delete(old(userSockets), userId)
        && Get(userSockets, userId).None?
    {
      if userId != 0 {
        storage.UpdateUserOnlineStatus(userId, false);
        DeleteKeepsKeysUnique(userSockets, userId);
        GetAfterDelete(userSockets, userId, userId);
        userSockets := Delete(userSockets, userId);
      }
    }

    /**
     * `POST /api/friends/request`: refused with 400 when a friendship between
     * the two users exists in either direction, otherwise a pending one is stored.
     */
    method FriendRequest(userId: UserId, friendId: UserId) returns (res: FriendRequestResponse)
      requires Valid()
      modifies this, storage
      ensures Valid()
      ensures userSockets == old(userSockets) && sent == old(sent)
      ensures storage.users == old(storage.users) && storage.chats == old(storage.chats)
      ensures storage.skippedUsers == old(storage.skippedUsers)
      ensures res.RequestExists? <==> GetFriendship(old(storage.friendships), userId, friendId).Some?
      ensures res.RequestExists? ==> storage.friendships == old(storage.friendships)
      ensures res.Requested? ==>
        && res.friendship == Friendship(|old(storage.friendships)| + 1, userId, friendId, PENDING)
        && storage.friendships == old(storage.friendships) + [res.friendship]
    {
      var existing := GetFriendship(storage.friendships, userId, friendId);
      if existing.Some? {
        return RequestExists;
      }
      NewFriendshipKeepsOneFriendshipPerPair(storage.friendships, Friendship(|storage.friendships| + 1, userId, friendId, PENDING));
      var friendship := storage.CreateFriendRequest(userId, friendId);
      res := Requested(friendship);
    }

    /**
     * A frame arriving on socket `ws`. `authenticate` binds the user to `ws`
     * (replacing any earlier socket), marks them online and acknowledges;
     * `random_message` and `typing` go to the sender's chat partner only when
     * the sender is in an active chat and the partner's socket is registered
     * and open; any other frame changes nothing.
     */
    method OnMessage(ws: Socket, frame: ClientFrame)
      requires Valid()
      modifies this, storage
      ensures Valid()
      ensures storage.chats == old(storage.chats) && storage.skippedUsers == old(storage.skippedUsers)
      ensures storage.friendships == old(storage.friendships)
      ensures frame.Authenticate? ==>
        && userSockets == Set(old(userSockets), frame.userId, ws)
        && Get(userSockets, frame.userId) == Some(ws)
        && storage.users == WithOnlineStatus(old(storage.users), frame.userId, true)
        && sent == old(sent) + [Delivery(ws, Authenticated(frame.userId))]
      ensures !frame.Authenticate? ==> userSockets == old(userSockets) && storage.users == old(storage.users)
      ensures frame.RandomMessage? ==>
        var target := old(PartnerSocket(frame.senderId));
        sent == old(sent) + (if target.Some? && target.value.isOpen
                             then [Delivery(target.value, RelayedMessage(frame.message, frame.senderId))]
                             else [])
      ensures frame.Typing? ==>
        var target := old(PartnerSocket(frame.userId));
        sent == old(sent) + (if target.Some? && target.value.isOpen
                             then [Delivery(target.value, RelayedTyping(frame.isTyping))]
                             else [])
      ensures frame.Unrecognized? ==> sent == old(sent)
    {
      match frame
      case Authenticate(userId) =>
        SetKeepsKeysUnique(userSockets, userId, ws);
        GetAfterSet(userSockets, userId, ws, userId);
        userSockets := Set(userSockets, userId, ws);
        storage.UpdateUserOnlineStatus(userId, true);
        sent := sent + [Delivery(ws, Authenticated(userId))];
      case RandomMessage(senderId, message) =>
        var activeChat := GetUserActiveChat(storage.chats, senderId);
        if activeChat.Some? {
          var partnerId := PartnerOf(activeChat.value, senderId);
          var partnerSocket := Get(userSockets, partnerId);
          if partnerSocket.Some? && partnerSocket.value.isOpen {
            sent := sent + [Delivery(partnerSocket.value, RelayedMessage(message, senderId))];
          }
        }
      case Typing(userId, isTyping) =>
        var typingChat := GetUserActiveChat(storage.chats, userId);
        if typingChat.Some? {
          var partnerId := PartnerOf(typingChat.value, userId);
          var partnerSocket := Get(userSockets, partnerId);
          if partnerSocket.Some? && partnerSocket.value.isOpen {
            sent := sent + [Delivery(partnerSocket.value, RelayedTyping(isTyping))];
          }
        }
      case Unrecognized(_) =>
    }

    /**
     * The `close` event of socket `ws`: the connection is closed from now on
     * (`readyState` is no longer `OPEN`), the entries are scanned in insertion
     * order and the first one bound to `ws` is deleted, its user marked
     * offline, and the scan stops. Chats are left as they are, and any other
     * entry still bound to `ws` stays but receives no further relays.
     */
    method OnClose(ws: Socket)
      requires Valid()
      modifies this, storage, ws
      ensures Valid() && !ws.isOpen
      ensures userSockets == WithoutSocket(old(userSockets), ws)
      ensures FirstEntryOf(old(userSockets), ws).None? ==> storage.users == old(storage.users)
      ensures FirstEntryOf(old(userSockets), ws).Some? ==>
        storage.users == WithOnlineStatus(old(storage.users), old(userSockets)[FirstEntryOf(old(userSockets), ws).value].key, false)
      ensures storage.chats == old(storage.chats) && storage.skippedUsers == old(storage.skippedUsers)
      ensures storage.friendships == old(storage.friendships) && sent == old(sent)
    {
      ws.isOpen := false;
      var entries := userSockets;
      var i := 0;
      while i < |entries|
        invariant 0 <= i <= |entries|
        invariant !ws.isOpen
        invariant forall j :: 0 <= j < i ==> entries[j].value != ws
        invariant userSockets == entries
        invariant storage.users == old(storage.users)
      {
        if entries[i].value == ws {
          var userId := entries[i].key;
          assert FirstEntryOf(entries, ws) == Some(i);
          CloseRemovesOnlyThatSocket(entries, ws);
          userSockets := Delete(userSockets, userId);
          storage.UpdateUserOnlineStatus(userId, false);
          break;
        }
        i := i + 1;
      }
    }
  }

  /**
   * Scenario on a fresh server holding only A and B, both online: A's
   * find-match pairs A with B in chat 1, and B's find-match that follows
   * answers 400, because B is now in that chat.
   */
  method PairThenRepeat(a: User, b: User, random1: real, random2: real)
    returns (first: MatchResponse, second: MatchResponse)
    requires a.id != b.id && a.isOnline && b.isOnline
    requires 0.0 <= random1 < 1.0 && 0.0 <= random2 < 1.0
    ensures first == Matched(RandomChat(1, a.id, b.id, true), b) && first.Status() == 200
    ensures second == AlreadyInChat && second.Status() == 400
  {
    var server := new ChatServer([a, b]);
    TwoOnlineUsersArePaired(a, b, random1);
    first := server.FindMatch(a.id, ANY_GENDER, random1);
    second := server.FindMatch(b.id, ANY_GENDER, random2);
  }
}

/**
 * The storage layer of the server (server/storage.ts) over in-memory tables.
 *
 * Each table is a sequence of rows in insertion order. A query that reads
 * `const [row] = await db.select()...` takes the first matching row; the
 * database promises no order, and every property below holds whichever
 * matching row is returned first. Queries are pure functions of the tables;
 * inserts and updates are methods of `DatabaseStorage`, which owns them.
 */
module Storage {
  import opened Wrappers
  import opened Schema

  /** The gender preference that admits every candidate. */
  const ANY_GENDER := "both"

  /** The friendship status that `getUserFriends` selects. */
  const ACCEPTED := "accepted"

  /** The status a new friend request is stored with (the column default). */
  const PENDING := "pending"

  // ---------------------------------------------------------------------------
  // Users

  /** `getUser`: the row with this id, if there is one. */
  function GetUser(users: seq<User>, id: UserId): (r: Option<User>)
    ensures r.Some? ==> r.value in users && r.value.id == id
    ensures r.None? <==> forall u :: u in users ==> u.id != id
  {
    if users == [] then None
    else if users[0].id == id then Some(users[0])
    else GetUser(users[1..], id)
  }

  /** The users table after the online update: every row whose id is `id` gets the flag `isOnline`, and every other row is unchanged. */
  function WithOnlineStatus(users: seq<User>, id: UserId, isOnline: bool): seq<User> {
    seq(|users|, i requires 0 <= i < |users| =>
      if users[i].id == id then users[i].(isOnline := isOnline) else users[i])
  }

  /** The update touches only the online flag of the rows with that id. */
  lemma OnlineStatusUpdate(users: seq<User>, id: UserId, isOnline: bool)
    ensures |WithOnlineStatus(users, id, isOnline)| == |users|
    ensures forall i :: 0 <= i < |users| ==>
      && WithOnlineStatus(users, id, isOnline)[i].id == users[i].id
      && WithOnlineStatus(users, id, isOnline)[i].gender == users[i].gender
      && WithOnlineStatus(users, id, isOnline)[i].isOnline == (if users[i].id == id then isOnline else users[i].isOnline)
  {
  }

  // ---------------------------------------------------------------------------
  // Random chats

  /** Some active chat has `u` as one of its two members. */
  predicate InActiveChat(chats: seq<RandomChat>, u: UserId) {
    exists c :: c in chats && c.isActive && c.HasMember(u)
  }

  /** Active chats have no member in common: each user is in at most one of them. */
  ghost predicate OneActiveChatPerUser(chats: seq<RandomChat>) {
    forall i, j, u ::
      (&& 0 <= i < |chats| && 0 <= j < |chats|
       && chats[i].isActive && chats[j].isActive
       && chats[i].HasMember(u) && chats[j].HasMember(u))
      ==> i == j
  }

  /** Nobody is paired with themselves. */
  ghost predicate NoSelfChat(chats: seq<RandomChat>) {
    forall c :: c in chats ==> c.user1Id != c.user2Id
  }

  /** Chat ids are the serial numbers 1, 2, 3, ... in insertion order. */
  ghost predicate SerialChatIds(chats: seq<RandomChat>) {
    forall i :: 0 <= i < |chats| ==> chats[i].id == i + 1
  }

  /** `getUserActiveChat`: an active chat that has the user as a member, if any. */
  function GetUserActiveChat(chats: seq<RandomChat>, userId: UserId): (r: Option<RandomChat>)
    ensures r.Some? ==> r.value in chats && r.value.isActive && r.value.HasMember(userId)
    ensures r.None? <==> !InActiveChat(chats, userId)
  {
    if chats == [] then None
    else if chats[0].isActive && chats[0].HasMember(userId) then Some(chats[0])
    else
      var r := GetUserActiveChat(chats[1..], userId);
      assert InActiveChat(chats, userId) ==> InActiveChat(chats[1..], userId) by {
        if InActiveChat(chats, userId) {
          var c :| c in chats && c.isActive && c.HasMember(userId);
          assert c in chats[1..];
        }
      }
      r
  }

  /** When every user is in at most one active chat, the chat found is the user's only one. */
  lemma ActiveChatIsUnique(chats: seq<RandomChat>, userId: UserId, i: nat)
    requires OneActiveChatPerUser(chats)
    requires i < |chats| && chats[i].isActive && chats[i].HasMember(userId)
    ensures GetUserActiveChat(chats, userId) == Some(chats[i])
  {
    var r := GetUserActiveChat(chats, userId);
    assert InActiveChat(chats, userId) by { assert chats[i] in chats; }
    var j :| 0 <= j < |chats| && chats[j] == r.value;
    assert chats[j].HasMember(userId);
  }

  /** The chats table after `UPDATE randomChats SET isActive = false WHERE id = chatId`. */
  function WithChatEnded(chats: seq<RandomChat>, chatId: ChatId): seq<RandomChat> {
    seq(|chats|, i requires 0 <= i < |chats| =>
      if chats[i].id == chatId then chats[i].(isActive := false) else chats[i])
  }

  /**
   * `endRandomChat` deactivates exactly the chat with that id: members and ids
   * stay, and every other row is unchanged.
   */
  lemma EndChatDeactivatesOnlyThatChat(chats: seq<RandomChat>, chatId: ChatId)
    ensures |WithChatEnded(chats, chatId)| == |chats|
    ensures forall i :: 0 <= i < |chats| ==>
      var c := WithChatEnded(chats, chatId)[i];
      && c.id == chats[i].id && c.user1Id == chats[i].user1Id && c.user2Id == chats[i].user2Id
      && (c.isActive <==> chats[i].isActive && chats[i].id != chatId)
  {
  }

  /** Ending a chat twice leaves the table as ending it once. */
  lemma EndChatIdempotent(chats: seq<RandomChat>, chatId: ChatId)
    ensures WithChatEnded(WithChatEnded(chats, chatId), chatId) == WithChatEnded(chats, chatId)
  {
  }

  /** Ending a chat keeps every user in at most one active chat, and keeps members and ids. */
  lemma EndChatKeepsInvariants(chats: seq<RandomChat>, chatId: ChatId)
    requires OneActiveChatPerUser(chats) && NoSelfChat(chats) && SerialChatIds(chats)
    ensures OneActiveChatPerUser(WithChatEnded(chats, chatId))
    ensures NoSelfChat(WithChatEnded(chats, chatId))
    ensures SerialChatIds(WithChatEnded(chats, chatId))
  {
    var r := WithChatEnded(chats, chatId);
    forall c | c in r ensures c.user1Id != c.user2Id {
      var i :| 0 <= i < |r| && r[i] == c;
      assert chats[i] in chats;
    }
  }

  /**
   * Ending a user's active chat frees both of its members: afterwards neither
   * is in any active chat.
   */
  lemma EndingChatFreesItsMembers(chats: seq<RandomChat>, userId: UserId)
    requires OneActiveChatPerUser(chats) && SerialChatIds(chats)
    requires GetUserActiveChat(chats, userId).Some?
    ensures var c := GetUserActiveChat(chats, userId).value;
      !InActiveChat(WithChatEnded(chats, c.id), c.user1Id) && !InActiveChat(WithChatEnded(chats, c.id), c.user2Id)
  {
    var c := GetUserActiveChat(chats, userId).value;
    var k :| 0 <= k < |chats| && chats[k] == c;
    var r := WithChatEnded(chats, c.id);
    forall i | 0 <= i < |r| && r[i].isActive ensures !r[i].HasMember(c.user1Id) && !r[i].HasMember(c.user2Id) {
      assert i != k;
      assert r[i] == chats[i];
    }
    forall d | d in r && d.isActive ensures !d.HasMember(c.user1Id) && !d.HasMember(c.user2Id) {
      var i :| 0 <= i < |r| && r[i] == d;
    }
  }

  /**
   * Opening a chat between two distinct users who are in no active chat keeps
   * every user in at most one active chat.
   */
  lemma {:induction false} NewChatKeepsOneActiveChatPerUser(chats: seq<RandomChat>, c: RandomChat)
    requires OneActiveChatPerUser(chats)
    requires !InActiveChat(chats, c.user1Id) && !InActiveChat(chats, c.user2Id)
    ensures OneActiveChatPerUser(chats + [c])
  {
    forall i | 0 <= i < |chats| && chats[i].isActive
      ensures !chats[i].HasMember(c.user1Id) && !chats[i].HasMember(c.user2Id)
    {
      assert chats[i] in chats;
    }
    var r := chats + [c];
    forall i, j, u | (&& 0 <= i < |r| && 0 <= j < |r| && r[i].isActive && r[j].isActive
                      && r[i].HasMember(u) && r[j].HasMember(u))
      ensures i == j
    {
      if i < |chats| && j < |chats| {
        assert r[i] == chats[i] && r[j] == chats[j];
      }
    }
  }

  // ---------------------------------------------------------------------------
  // Skips

  /** `getSkippedUsers`: the ids `userId` has skipped, in the order recorded. */
  function GetSkippedUsers(skips: seq<SkipRecord>, userId: UserId): (r: seq<UserId>)
    ensures forall s :: s in r <==> SkipRecord(userId, s) in skips
  {
    if skips == [] then []
    else
      var rest := GetSkippedUsers(skips[1..], userId);
      assert forall x :: x in skips <==> x == skips[0] || x in skips[1..] by {
        assert skips == [skips[0]] + skips[1..];
      }
      if skips[0].userId == userId then [skips[0].skippedUserId] + rest else rest
  }

  /** Skips are directional: a skip recorded by `u` changes no other user's skip list. */
  lemma {:induction false} SkipIsDirectional(skips: seq<SkipRecord>, u: UserId, s: UserId, v: UserId)
    requires v != u
    ensures GetSkippedUsers(skips + [SkipRecord(u, s)], v) == GetSkippedUsers(skips, v)
  {
    if skips == [] {
      assert GetSkippedUsers([SkipRecord(u, s)], v) == GetSkippedUsers([], v);
    } else {
      SkipIsDirectional(skips[1..], u, s, v);
      assert (skips + [SkipRecord(u, s)])[1..] == skips[1..] + [SkipRecord(u, s)];
    }
  }

  // ---------------------------------------------------------------------------
  // Candidate selection

  /** The ids of every member of an active chat, two per chat (the `flatMap` of the source). */
  function ActiveChatUserIds(chats: seq<RandomChat>): (r: seq<UserId>)
    ensures forall u :: u in r <==> InActiveChat(chats, u)
  {
    if chats == [] then []
    else
      var rest := ActiveChatUserIds(chats[1..]);
      assert forall c :: c in chats <==> c == chats[0] || c in chats[1..] by {
        assert chats == [chats[0]] + chats[1..];
      }
      if chats[0].isActive then [chats[0].user1Id, chats[0].user2Id] + rest else rest
  }

  /**
   * Who may be offered to `userId`: online, not `userId`, not skipped by
   * `userId`, in no active chat, and of the preferred gender unless the
   * preference is "both".
   */
  predicate Eligible(u: User, chats: seq<RandomChat>, skips: seq<SkipRecord>, userId: UserId, preferredGender: string) {
    && u.isOnline
    && u.id != userId
    && SkipRecord(userId, u.id) !in skips
    && !InActiveChat(chats, u.id)
    && (preferredGender == ANY_GENDER || u.gender == preferredGender)
  }

  /** The source's filter over the online users, given the skipped and the busy ids as lists. */
  function FilterCandidates(users: seq<User>, userId: UserId, skippedIds: seq<UserId>,
                            activeIds: seq<UserId>, preferredGender: string): (r: seq<User>)
    ensures forall u :: u in r <==>
      && u in users && u.isOnline
      && u.id != userId && u.id !in skippedIds && u.id !in activeIds
      && (preferredGender == ANY_GENDER || u.gender == preferredGender)
  {
    if users == [] then []
    else
      var u := users[0];
      var rest := FilterCandidates(users[1..], userId, skippedIds, activeIds, preferredGender);
      assert forall x :: x in users <==> x == users[0] || x in users[1..] by {
        assert users == [users[0]] + users[1..];
      }
      if u.isOnline && u.id != userId && u.id !in skippedIds && u.id !in activeIds
         && (preferredGender == ANY_GENDER || u.gender == preferredGender)
      then [u] + rest
      else rest
  }

  /** The list `findAvailableUser` draws from: exactly the eligible users. */
  function AvailableUsers(users: seq<User>, chats: seq<RandomChat>, skips: seq<SkipRecord>,
                          userId: UserId, preferredGender: string): (r: seq<User>)
    ensures forall u :: u in r <==> u in users && Eligible(u, chats, skips, userId, preferredGender)
  {
    FilterCandidates(users, userId, GetSkippedUsers(skips, userId), ActiveChatUserIds(chats), preferredGender)
  }

  /** `Math.floor(random * n)` lies in 0 .. n-1 whenever `0 <= random < 1` and n > 0. */
  lemma RandomIndexInRange(random: real, n: nat)
    requires 0.0 <= random < 1.0
    ensures n > 0 ==> 0 <= (random * n as real).Floor < n
  {
    if n > 0 {
      assert random * n as real < n as real by {
        assert (1.0 - random) * n as real > 0.0;
      }
    }
  }

  /**
   * `xs[Math.floor(random * xs.length)]`, where `random` is the value
   * `Math.random()` returned: out of range, and so undefined, only when `xs`
   * is empty.
   */
  function RandomElement<T>(xs: seq<T>, random: real): (r: Option<T>)
    requires 0.0 <= random < 1.0
    ensures r.Some? ==> r.value in xs
    ensures r.None? <==> xs == []
  {
    var i := (random * |xs| as real).Floor;
    RandomIndexInRange(random, |xs|);
    if 0 <= i < |xs| then Some(xs[i]) else None
  }

  /** The value of `Math.random()` that selects index `k` of a list of length `n`. */
  function RandomForIndex(k: nat, n: nat): (random: real)
    requires k < n
    ensures 0.0 <= random < 1.0 && (random * n as real).Floor == k
  {
    var random := k as real / n as real;
    assert random * n as real == k as real;
    random
  }

  /** Every element of a list is the outcome of some value of `Math.random()`. */
  lemma RandomElementCanBeAny<T>(xs: seq<T>, k: nat)
    requires k < |xs|
    ensures RandomElement(xs, RandomForIndex(k, |xs|)) == Some(xs[k])
  {
  }

  /** A list of one element yields that element whatever `Math.random()` returns. */
  lemma RandomElementOfSingleton<T>(xs: seq<T>, random: real)
    requires 0.0 <= random < 1.0 && |xs| == 1
    ensures RandomElement(xs, random) == Some(xs[0])
  {
    RandomIndexInRange(random, 1);
  }

  /** `findAvailableUser`: a random element of the available users. */
  function FindAvailableUser(users: seq<User>, chats: seq<RandomChat>, skips: seq<SkipRecord>,
                             userId: UserId, preferredGender: string, random: real): (r: Option<User>)
    requires 0.0 <= random < 1.0
    ensures r.Some? ==> r.value in users && Eligible(r.value, chats, skips, userId, preferredGender)
    ensures r.None? <==> forall u :: u in users ==> !Eligible(u, chats, skips, userId, preferredGender)
  {
    var available := AvailableUsers(users, chats, skips, userId, preferredGender);
    assert available != [] ==> available[0] in available;
    RandomElement(available, random)
  }

  /** Every eligible user is the outcome of some value of `Math.random()`. */
  lemma AnyEligibleUserCanBeChosen(users: seq<User>, chats: seq<RandomChat>, skips: seq<SkipRecord>,
                                   userId: UserId, preferredGender: string, u: User)
    requires u in users && Eligible(u, chats, skips, userId, preferredGender)
    ensures exists random :: 0.0 <= random < 1.0 && FindAvailableUser(users, chats, skips, userId, preferredGender, random) == Some(u)
  {
    var available := AvailableUsers(users, chats, skips, userId, preferredGender);
    var k :| 0 <= k < |available| && available[k] == u;
    RandomElementCanBeAny(available, k);
    var random := RandomForIndex(k, |available|);
    assert FindAvailableUser(users, chats, skips, userId, preferredGender, random) == Some(u);
  }

  /** With exactly one eligible user, that user is chosen whatever `Math.random()` returns. */
  lemma SingleCandidateIsChosen(users: seq<User>, chats: seq<RandomChat>, skips: seq<SkipRecord>,
                                userId: UserId, preferredGender: string, random: real)
    requires 0.0 <= random < 1.0
    requires |AvailableUsers(users, chats, skips, userId, preferredGender)| == 1
    ensures FindAvailableUser(users, chats, skips, userId, preferredGender, random)
         == Some(AvailableUsers(users, chats, skips, userId, preferredGender)[0])
  {
    RandomElementOfSingleton(AvailableUsers(users, chats, skips, userId, preferredGender), random);
  }

  /** The filter reads the skipped and busy lists only through membership. */
  lemma {:induction false} FilterDependsOnMembership(users: seq<User>, userId: UserId,
                                                     skipped1: seq<UserId>, skipped2: seq<UserId>,
                                                     activeIds: seq<UserId>, preferredGender: string)
    requires forall x :: x in skipped1 <==> x in skipped2
    ensures FilterCandidates(users, userId, skipped1, activeIds, preferredGender)
         == FilterCandidates(users, userId, skipped2, activeIds, preferredGender)
  {
    if users != [] {
      FilterDependsOnMembership(users[1..], userId, skipped1, skipped2, activeIds, preferredGender);
    }
  }

  /**
   * Recording a skip that is already recorded does not change who is
   * available, to anyone: the skip table is read only through membership.
   */
  lemma DuplicateSkipChangesNoCandidates(users: seq<User>, chats: seq<RandomChat>, skips: seq<SkipRecord>,
                                         rec: SkipRecord, userId: UserId, preferredGender: string)
    requires rec in skips
    ensures AvailableUsers(users, chats, skips + [rec], userId, preferredGender)
         == AvailableUsers(users, chats, skips, userId, preferredGender)
  {
    FilterDependsOnMembership(users, userId, GetSkippedUsers(skips + [rec], userId), GetSkippedUsers(skips, userId),
                              ActiveChatUserIds(chats), preferredGender);
  }

  // ---------------------------------------------------------------------------
  // Friendships

  /** The friendship row links `a` and `b`, in either direction. */
  predicate Links(f: Friendship, a: UserId, b: UserId) {
    (f.userId == a && f.friendId == b) || (f.userId == b && f.friendId == a)
  }

  /** `getFriendship`: a row between the two users, whichever of them sent the request. */
  function GetFriendship(fs: seq<Friendship>, userId: UserId, friendId: UserId): (r: Option<Friendship>)
    ensures r.Some? ==> r.value in fs && Links(r.value, userId, friendId)
    ensures r.None? <==> forall f :: f in fs ==> !Links(f, userId, friendId)
  {
    if fs == [] then None
    else if Links(fs[0], userId, friendId) then Some(fs[0])
    else
      assert forall f :: f in fs <==> f == fs[0] || f in fs[1..] by {
        assert fs == [fs[0]] + fs[1..];
      }
      GetFriendship(fs[1..], userId, friendId)
  }

  /** `getFriendship` does not care which of the two users asks. */
  lemma {:induction false} GetFriendshipSymmetric(fs: seq<Friendship>, a: UserId, b: UserId)
    ensures GetFriendship(fs, a, b) == GetFriendship(fs, b, a)
  {
    if fs != [] && !Links(fs[0], a, b) {
      GetFriendshipSymmetric(fs[1..], a, b);
    }
  }

  /** At most one row links any two users. */
  ghost predicate OneFriendshipPerPair(fs: seq<Friendship>) {
    forall i, j :: 0 <= i < j < |fs| ==> !Links(fs[j], fs[i].userId, fs[i].friendId)
  }

  /** Friendship ids are the serial numbers 1, 2, 3, ... in insertion order. */
  ghost predicate SerialFriendshipIds(fs: seq<Friendship>) {
    forall i :: 0 <= i < |fs| ==> fs[i].id == i + 1
  }

  /** The friendships table after the status update: every row whose id is `id` gets the status `status`, and every other row is unchanged. */
  function WithFriendshipStatus(fs: seq<Friendship>, id: int, status: string): seq<Friendship> {
    seq(|fs|, i requires 0 <= i < |fs| => if fs[i].id == id then fs[i].(status := status) else fs[i])
  }

  /** Changing a status leaves the endpoints alone, so no pair gains a second row. */
  lemma StatusUpdateKeepsOneFriendshipPerPair(fs: seq<Friendship>, id: int, status: string)
    requires OneFriendshipPerPair(fs) && SerialFriendshipIds(fs)
    ensures OneFriendshipPerPair(WithFriendshipStatus(fs, id, status))
    ensures SerialFriendshipIds(WithFriendshipStatus(fs, id, status))
  {
  }

  /** A new row for a pair that has none keeps at most one row per pair. */
  lemma NewFriendshipKeepsOneFriendshipPerPair(fs: seq<Friendship>, f: Friendship)
    requires OneFriendshipPerPair(fs)
    requires GetFriendship(fs, f.userId, f.friendId).None?
    ensures OneFriendshipPerPair(fs + [f])
  {
    var r := fs + [f];
    forall i, j | 0 <= i < j < |r| ensures !Links(r[j], r[i].userId, r[i].friendId) {
      if j == |fs| {
        assert fs[i] in fs;
        assert !Links(fs[i], f.userId, f.friendId);
      } else {
        assert r[i] == fs[i] && r[j] == fs[j];
      }
    }
  }

  /**
   * The id list of `getUserFriends`: for every accepted friendship that
   * involves `userId`, the endpoint that is not `userId`.
   */
  function FriendIds(fs: seq<Friendship>, userId: UserId): (r: seq<UserId>)
    ensures forall x :: x in r ==>
      exists f :: (&& f in fs && f.status == ACCEPTED
                   && ((f.userId == userId && f.friendId == x) || (f.userId != userId && f.friendId == userId && f.userId == x)))
    ensures forall f :: f in fs && f.status == ACCEPTED && f.userId == userId ==> f.friendId in r
    ensures forall f :: f in fs && f.status == ACCEPTED && f.friendId == userId ==> f.userId in r
  {
    if fs == [] then []
    else
      var f := fs[0];
      var rest := FriendIds(fs[1..], userId);
      assert forall g :: g in fs <==> g == fs[0] || g in fs[1..] by {
        assert fs == [fs[0]] + fs[1..];
      }
      if f.status == ACCEPTED && (f.userId == userId || f.friendId == userId)
      then [if f.userId == userId then f.friendId else f.userId] + rest
      else rest
  }

  /** The users whose id is in `ids`, in table order (`inArray`). */
  function UsersWithIds(users: seq<User>, ids: seq<UserId>): (r: seq<User>)
    ensures forall u :: u in r <==> u in users && u.id in ids
  {
    if users == [] then []
    else
      var rest := UsersWithIds(users[1..], ids);
      assert forall x :: x in users <==> x == users[0] || x in users[1..] by {
        assert users == [users[0]] + users[1..];
      }
      if users[0].id in ids then [users[0]] + rest else rest
  }

  /** `getUserFriends`: the user rows at the other end of `userId`'s accepted friendships. */
  function GetUserFriends(users: seq<User>, fs: seq<Friendship>, userId: UserId): (r: seq<User>)
    ensures forall u :: u in r <==> u in users && u.id in FriendIds(fs, userId)
  {
    var ids := FriendIds(fs, userId);
    if |ids| == 0 then [] else UsersWithIds(users, ids)
  }

  // ---------------------------------------------------------------------------
  // The tables and the operations that write them

  class DatabaseStorage {
    var users: seq<User>
    var chats: seq<RandomChat>
    var skippedUsers: seq<SkipRecord>
    var friendships: seq<Friendship>

    ghost predicate Valid()
      reads this
    {
      SerialChatIds(chats) && SerialFriendshipIds(friendships)
    }

    /** A database holding these users and no chats, skips or friendships. */
    constructor (users: seq<User>)
      ensures Valid()
      ensures this.users == users && chats == [] && skippedUsers == [] && friendships == []
    {
      this.users := users;
      chats := [];
      skippedUsers := [];
      friendships := [];
    }

    /** `updateUserOnlineStatus`. */
    method UpdateUserOnlineStatus(id: UserId, isOnline: bool)
      requires Valid()
      modifies this
      ensures Valid()
      ensures users == WithOnlineStatus(old(users), id, isOnline)
      ensures chats == old(chats) && skippedUsers == old(skippedUsers) && friendships == old(friendships)
    {
      users := WithOnlineStatus(users, id, isOnline);
    }

    /** `createRandomChat`: inserts an active chat with the next serial id and returns it. */
    method CreateRandomChat(user1Id: UserId, user2Id: UserId) returns (chat: RandomChat)
      requires Valid()
      modifies this
      ensures Valid()
      ensures chat == RandomChat(|old(chats)| + 1, user1Id, user2Id, true)
      ensures chats == old(chats) + [chat]
      ensures users == old(users) && skippedUsers == old(skippedUsers) && friendships == old(friendships)
    {
      chat := RandomChat(|chats| + 1, user1Id, user2Id, true);
      chats := chats + [chat];
    }

    /** `endRandomChat`: deactivates the chat with this id; no other row changes. */
    method EndRandomChat(chatId: ChatId)
      requires Valid()
      modifies this
      ensures Valid()
      ensures chats == WithChatEnded(old(chats), chatId)
      ensures users == old(users) && skippedUsers == old(skippedUsers) && friendships == old(friendships)
    {
      chats := WithChatEnded(chats, chatId);
    }

    /** `addSkippedUser`: appends a skip record, duplicates included. */
    method AddSkippedUser(userId: UserId, skippedUserId: UserId)
      requires Valid()
      modifies this
      ensures Valid()
      ensures skippedUsers == old(skippedUsers) + [SkipRecord(userId, skippedUserId)]
      ensures skippedUserId in GetSkippedUsers(skippedUsers, userId)
      ensures users == old(users) && chats == old(chats) && friendships == old(friendships)
    {
      skippedUsers := skippedUsers + [SkipRecord(userId, skippedUserId)];
    }

    /** `createFriendRequest`: inserts a pending friendship with the next serial id. */
    method CreateFriendRequest(userId: UserId, friendId: UserId) returns (f: Friendship)
      requires Valid()
      modifies this
      ensures Valid()
      ensures f == Friendship(|old(friendships)| + 1, userId, friendId, PENDING)
      ensures friendships == old(friendships) + [f]
      ensures users == old(users) && chats == old(chats) && skippedUsers == old(skippedUsers)
    {
      f := Friendship(|friendships| + 1, userId, friendId, PENDING);
      friendships := friendships + [f];
    }

    /** `updateFriendshipStatus`. */
    method UpdateFriendshipStatus(id: int, status: string)
      requires Valid()
      modifies this
      ensures Valid()
      ensures friendships == WithFriendshipStatus(old(friendships), id, status)
      ensures users == old(users) && chats == old(chats) && skippedUsers == old(skippedUsers)
    {
      friendships := WithFriendshipStatus(friendships, id, status);
    }
  }
}

/**
 * The rows of the tables the server reads and writes. Only the columns the
 * matchmaking core looks at are kept: ids, gender, the online flag, the chat
 * members with its active flag, skip pairs and friendship endpoints with status.
 */
module Schema {

  type UserId = int
  type ChatId = int

  /** A row of the users table. `gender` is free text, as in the database. */
  datatype User = User(id: UserId, gender: string, isOnline: bool)

  /** A row of the random chats table; rows are never deleted, only deactivated. */
  datatype RandomChat = RandomChat(id: ChatId, user1Id: UserId, user2Id: UserId, isActive: bool)
  {
    predicate HasMember(u: UserId) {
      user1Id == u || user2Id == u
    }
  }

  /** A row of the append-only skip table: `userId` skipped `skippedUserId`. */
  datatype SkipRecord = SkipRecord(userId: UserId, skippedUserId: UserId)

  /** A row of the friendships table: `userId` asked `friendId`. */
  datatype Friendship = Friendship(id: int, userId: UserId, friendId: UserId, status: string)
}

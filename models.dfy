/**
 * The persisted rows of the three tables (users, user_auth, chats).
 * The ORM model file serge/models/user.py is not part of this model; the
 * columns follow the persisted schema: users(id, username, email,
 * full_name, theme_light, default_prompt, is_active), user_auth(user_id,
 * secret, auth_type), chats(chat_id, owner, user_id).
 */
module Models {
  import opened Wrappers
  import Schema

  type Uuid = Schema.Uuid

  /** A row of the users table: the scalar columns only. */
  datatype User = User(
    id: Uuid,
    username: string,
    email: string,
    fullName: string,
    themeLight: bool,
    defaultPrompt: string,
    isActive: bool)

  /** A row of the user_auth table, bound to its user by `userId`. */
  datatype UserAuth = UserAuth(userId: Uuid, secret: string, authType: int)

  /** A row of the chats table; `owner` and `userId` are nullable columns. */
  datatype Chat = Chat(chatId: string, owner: Option<string>, userId: Option<Uuid>)

  /** A user row together with its `auth` and `chats` relationship collections. */
  datatype Loaded = Loaded(row: User, auth: seq<UserAuth>, chats: seq<Chat>)

  /**
   * Every chat row carries an owner. The view record declares `owner: str`,
   * so only owned chat rows can be mapped to views.
   */
  predicate Owned(chats: seq<Chat>) {
    forall c :: c in chats ==> c.owner.Some?
  }

  /** No two user rows share a username: the uniqueness `create_user` checks for. */
  predicate UniqueUsernames(users: seq<User>) {
    forall i, j :: 0 <= i < j < |users| ==> users[i].username != users[j].username
  }

  /** No two user rows share an id: `users.id` is the primary key. */
  predicate UniqueIds(users: seq<User>) {
    forall i, j :: 0 <= i < j < |users| ==> users[i].id != users[j].id
  }

  /** Some row other than `k` already has `id`: the primary-key check at commit fails. */
  predicate IdClash(users: seq<User>, k: int, id: Uuid) {
    exists j :: 0 <= j < |users| && j != k && users[j].id == id
  }

  /** The string columns of users that the source filters on. */
  datatype Column = UsernameColumn | EmailColumn

  function ColumnValue(u: User, col: Column): string {
    match col
    case UsernameColumn => u.username
    case EmailColumn => u.email
  }
}

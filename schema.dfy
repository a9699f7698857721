/**
 * The API-facing view records of api/src/serge/schema/user.py:
 * `UserAuth`, `Chat` and `User`, with the defaults pydantic fills in,
 * and the secret-masking public serialisation `User.to_public_dict`.
 */
module Schema {

  /** An opaque user identifier (a UUID in the source). */
  type Uuid = nat

  /** One credential as the API sees it (`UserBase.username` plus secret and type). */
  datatype UserAuth = UserAuth(username: string, secret: string, authType: int)

  /** A chat ownership record as the API sees it. */
  datatype Chat = Chat(chatId: string, owner: string)

  /** The API view of a user; fields in the order pydantic declares them. */
  datatype User = User(
    username: string,
    id: Uuid,
    isActive: bool,
    email: string,
    fullName: string,
    themeLight: bool,
    defaultPrompt: string,
    auth: seq<UserAuth>,
    chats: seq<Chat>)

  /** The keys of `User.dict()`, in declaration order. */
  datatype Key = Username | Id | IsActive | Email | FullName | ThemeLight | DefaultPrompt | Auth | Chats

  const Keys: seq<Key> := [Username, Id, IsActive, Email, FullName, ThemeLight, DefaultPrompt, Auth, Chats]

  /** The default value of `User.default_prompt`. */
  const DefaultPromptText: string :=
    "Below is an instruction that describes a task. Write a response that appropriately completes the request."

  /** What `to_public_dict` writes over every secret. */
  const SecretMask: string := "********"

  /** A `User` built from `id` and `username` alone: every other field takes its declared default. */
  function NewUser(id: Uuid, username: string): (u: User)
    ensures u.id == id && u.username == username
    ensures u.isActive && u.email == "" && u.fullName == "" && !u.themeLight
    ensures u.defaultPrompt == DefaultPromptText
    ensures u.auth == [] && u.chats == []
  {
    User(username, id, true, "", "", false, DefaultPromptText, [], [])
  }

  /**
   * `User.to_public_dict`: the user's fields, with the secret of every auth
   * entry overwritten, one entry at a time, by the mask.
   */
  method ToPublicDict(u: User) returns (d: User)
    ensures |d.auth| == |u.auth|
    ensures forall i :: 0 <= i < |d.auth| ==>
              d.auth[i].secret == SecretMask &&
              d.auth[i].username == u.auth[i].username &&
              d.auth[i].authType == u.auth[i].authType
    ensures d.(auth := u.auth) == u
  {
    var auth := u.auth;
    var i := 0;
    while i < |auth|
      invariant 0 <= i <= |auth| == |u.auth|
      invariant forall j :: 0 <= j < i ==> auth[j] == u.auth[j].(secret := SecretMask)
      invariant forall j :: i <= j < |auth| ==> auth[j] == u.auth[j]
    {
      auth := auth[i := auth[i].(secret := SecretMask)];
      i := i + 1;
    }
    d := u.(auth := auth);
  }
}

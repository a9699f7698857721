/**
 * `Mappers` of api/src/serge/crud.py: translation between persisted rows
 * (module Models) and view records (module Schema).
 */
module Mappers {
  import opened Wrappers
  import Schema
  import Models

  /** The view's scalar fields as a users row (`user_model.User(**u.dict())`). */
  function ViewToRow(v: Schema.User): Models.User {
    Models.User(v.id, v.username, v.email, v.fullName, v.themeLight, v.defaultPrompt, v.isActive)
  }

  /** One stored credential as the view shows it, carrying the parent's username. */
  function AuthToView(username: string, x: Models.UserAuth): Schema.UserAuth {
    Schema.UserAuth(username, x.secret, x.authType)
  }

  /** One stored chat as the view shows it. */
  function ChatToView(x: Models.Chat): Schema.Chat
    requires x.owner.Some?
  {
    Schema.Chat(x.chatId, x.owner.value)
  }

  /**
   * `Mappers.user_db_to_view`: None for None; otherwise the row's scalar
   * fields, the auth collection only when `includeAuth`, and always every chat.
   */
  function UserDbToView(u: Option<Models.Loaded>, includeAuth: bool): (r: Option<Schema.User>)
    requires u.Some? ==> Models.Owned(u.value.chats)
    ensures r.Some? <==> u.Some?
    ensures u.Some? ==> ViewToRow(r.value) == u.value.row
    ensures u.Some? && !includeAuth ==> r.value.auth == []
    ensures u.Some? && includeAuth ==>
              |r.value.auth| == |u.value.auth| &&
              forall i :: 0 <= i < |u.value.auth| ==>
                r.value.auth[i].username == u.value.row.username &&
                r.value.auth[i].secret == u.value.auth[i].secret &&
                r.value.auth[i].authType == u.value.auth[i].authType
    ensures u.Some? ==>
              |r.value.chats| == |u.value.chats| &&
              forall i :: 0 <= i < |u.value.chats| ==>
                r.value.chats[i].chatId == u.value.chats[i].chatId &&
                u.value.chats[i].owner == Some(r.value.chats[i].owner)
    ensures u.Some? ==> Shows(r.value, u.value, includeAuth)
  {
    match u
    case None => None
    case Some(lu) =>
      var auths := if includeAuth then lu.auth else [];
      var row := lu.row;
      Some(Schema.User(
        row.username, row.id, row.isActive, row.email, row.fullName, row.themeLight, row.defaultPrompt,
        seq(|auths|, i requires 0 <= i < |auths| => AuthToView(row.username, auths[i])),
        seq(|lu.chats|, i requires 0 <= i < |lu.chats| => ChatToView(lu.chats[i]))))
  }

  /**
   * The view shows the loaded user: its columns, its credentials one for one
   * and in order when `includeAuth` (none otherwise), and its chats one for
   * one and in order.
   */
  predicate Shows(v: Schema.User, lu: Models.Loaded, includeAuth: bool) {
    && ViewToRow(v) == lu.row
    && (if includeAuth
        then |v.auth| == |lu.auth| &&
             forall i :: 0 <= i < |lu.auth| ==> v.auth[i] == AuthToView(lu.row.username, lu.auth[i])
        else v.auth == [])
    && |v.chats| == |lu.chats|
    && forall i :: 0 <= i < |lu.chats| ==>
         v.chats[i].chatId == lu.chats[i].chatId && lu.chats[i].owner == Some(v.chats[i].owner)
  }

  /**
   * `Mappers.user_auth_view_to_db`: None for None, otherwise a credential row
   * bound to `userId` with the view's secret and type.
   */
  function UserAuthViewToDb(ua: Option<Schema.UserAuth>, userId: Schema.Uuid): (r: Option<Models.UserAuth>)
    ensures r.Some? <==> ua.Some?
    ensures ua.Some? ==> AuthToView(ua.value.username, r.value) == ua.value && r.value.userId == userId
  {
    match ua
    case None => None
    case Some(a) => Some(Models.UserAuth(userId, a.secret, a.authType))
  }

  /** The view `user_view_to_db` works from: `u`, or a new user named after `ua`. */
  function TargetView(u: Option<Schema.User>, ua: Option<Schema.UserAuth>, freshId: Schema.Uuid): Schema.User
    requires u.Some? || ua.Some?
  {
    if u.Some? then u.value else Schema.NewUser(freshId, ua.value.username)
  }

  /** A view chat attached to a user row: the owner is not copied. */
  function ChatViewToDb(c: Schema.Chat, userId: Schema.Uuid): Models.Chat {
    Models.Chat(c.chatId, None, Some(userId))
  }

  /**
   * `Mappers.user_view_to_db`: the users row for the view (a new one with
   * `freshId` when no view is given), its credential row when `ua` is given,
   * and one chat row per view chat, appended in order.
   */
  method UserViewToDb(u: Option<Schema.User>, ua: Option<Schema.UserAuth>, freshId: Schema.Uuid)
    returns (user: Models.Loaded, auth: Option<Models.UserAuth>)
    requires u.Some? || ua.Some?
    ensures u.None? ==> user.row.id == freshId && user.row.username == ua.value.username
    ensures user.row == ViewToRow(TargetView(u, ua, freshId))
    ensures auth.Some? <==> ua.Some?
    ensures ua.Some? ==>
              auth.value.userId == user.row.id &&
              auth.value.secret == ua.value.secret &&
              auth.value.authType == ua.value.authType
    ensures user.auth == if auth.Some? then [auth.value] else []
    ensures var v := TargetView(u, ua, freshId);
            |user.chats| == |v.chats| &&
            forall i :: 0 <= i < |v.chats| ==>
              user.chats[i].chatId == v.chats[i].chatId &&
              user.chats[i].owner == None &&
              user.chats[i].userId == Some(user.row.id)
  {
    var v: Schema.User;
    if u.None? {
      v := Schema.NewUser(freshId, ua.value.username);
    } else {
      v := u.value;
    }
    auth := UserAuthViewToDb(ua, v.id);
    var row := ViewToRow(v);
    var authRows: seq<Models.UserAuth> := [];
    if auth.Some? {
      authRows := authRows + [auth.value];
    }
    var chatRows: seq<Models.Chat> := [];
    for i := 0 to |v.chats|
      invariant |chatRows| == i
      invariant forall j :: 0 <= j < i ==> chatRows[j] == ChatViewToDb(v.chats[j], v.id)
    {
      chatRows := chatRows + [ChatViewToDb(v.chats[i], v.id)];
    }
    user := Models.Loaded(row, authRows, chatRows);
  }

  /**
   * A view stored as a row, without collections, and mapped back gives the
   * same view with empty collections: no scalar field is lost either way.
   */
  lemma ViewRoundTrip(v: Schema.User, includeAuth: bool)
    ensures UserDbToView(Some(Models.Loaded(ViewToRow(v), [], [])), includeAuth) == Some(v.(auth := [], chats := []))
  {
  }

  /**
   * A stored credential shown with auth included maps back, under its
   * user's id, to the very row it came from.
   */
  lemma AuthRoundTrip(lu: Models.Loaded, i: nat)
    requires Models.Owned(lu.chats)
    requires i < |lu.auth| && lu.auth[i].userId == lu.row.id
    ensures i < |UserDbToView(Some(lu), true).value.auth|
    ensures UserAuthViewToDb(Some(UserDbToView(Some(lu), true).value.auth[i]), lu.row.id) == Some(lu.auth[i])
  {
  }
}

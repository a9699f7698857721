/**
 * The CRUD operations of api/src/serge/crud.py over the session `db`.
 * Password hashing is the parameter `hash`; `uuid.uuid4()` is the
 * parameter `freshId`, unused anywhere in the tables.
 */
module Crud {
  import opened Wrappers
  import Schema
  import Models
  import Query
  import Mappers
  import opened Session

  /** `users[k]` is the first row whose `column` holds `value`. */
  predicate IsFirst(users: seq<Models.User>, col: Models.Column, value: string, k: int) {
    && 0 <= k < |users|
    && Models.ColumnValue(users[k], col) == value
    && forall j :: 0 <= j < k ==> Models.ColumnValue(users[j], col) != value
  }

  /** The view's auth entries are exactly the stored credentials of user `id`, under the view's username. */
  ghost predicate ShowsCredentials(v: Schema.User, auths: seq<Models.UserAuth>, id: Schema.Uuid) {
    forall a :: a in v.auth <==>
      exists x :: x in auths && x.userId == id && a == Mappers.AuthToView(v.username, x)
  }

  /** Mapping a loaded user with auth included shows exactly its stored credentials. */
  lemma LoadedCredentials(db: Store, row: Models.User)
    requires Models.Owned(db.chats)
    ensures ShowsCredentials(Mappers.UserDbToView(Some(db.Load(row)), true).value, db.auths, row.id)
  {
    var lu := db.Load(row);
    var v := Mappers.UserDbToView(Some(lu), true).value;
    forall a | a in v.auth
      ensures exists x :: x in db.auths && x.userId == row.id && a == Mappers.AuthToView(v.username, x)
    {
      var i :| 0 <= i < |v.auth| && v.auth[i] == a;
      assert lu.auth[i] in lu.auth;
    }
    forall x | x in db.auths && x.userId == row.id
      ensures Mappers.AuthToView(v.username, x) in v.auth
    {
      var i :| 0 <= i < |lu.auth| && lu.auth[i] == x;
      assert v.auth[i] == Mappers.AuthToView(v.username, x);
    }
  }

  /**
   * `get_user`: the first user row named `username`, mapped with its
   * credentials (one entry per credential row of that user, in table order)
   * and its chats.
   */
  function GetUser(db: Store, username: string): (r: Option<Schema.User>)
    reads db
    requires Models.Owned(db.chats)
    ensures r.Some? <==> Query.Exists(db.users, Models.UsernameColumn, username)
    ensures r.Some? ==>
              r.value.username == username &&
              exists k :: IsFirst(db.users, Models.UsernameColumn, username, k) &&
                Mappers.Shows(r.value, db.Load(db.users[k]), true) &&
                ShowsCredentials(r.value, db.auths, db.users[k].id)
  {
    match Query.FirstWhere(db.users, Models.UsernameColumn, username)
    case None => None
    case Some(k) =>
      LoadedCredentials(db, db.users[k]);
      assert IsFirst(db.users, Models.UsernameColumn, username, k);
      Mappers.UserDbToView(Some(db.Load(db.users[k])), true)
  }

  /** `get_user_by_email`: the first user row with `email`, mapped with its chats and without credentials. */
  function GetUserByEmail(db: Store, email: string): (r: Option<Schema.User>)
    reads db
    requires Models.Owned(db.chats)
    ensures r.Some? <==> Query.Exists(db.users, Models.EmailColumn, email)
    ensures r.Some? ==>
              r.value.email == email && r.value.auth == [] &&
              exists k :: IsFirst(db.users, Models.EmailColumn, email, k) &&
                Mappers.Shows(r.value, db.Load(db.users[k]), false)
  {
    match Query.FirstWhere(db.users, Models.EmailColumn, email)
    case None => None
    case Some(k) =>
      assert IsFirst(db.users, Models.EmailColumn, email, k);
      Mappers.UserDbToView(Some(db.Load(db.users[k])), false)
  }

  /**
   * `get_users`: the rows after the first `skip`, at most `limit` of them,
   * each mapped with its chats and without credentials.
   */
  function GetUsers(db: Store, skip: nat := 0, limit: nat := 100): (r: seq<Schema.User>)
    reads db
    requires Models.Owned(db.chats)
    ensures |r| <= limit
    ensures |r| == if skip >= |db.users| then 0 else if limit < |db.users| - skip then limit else |db.users| - skip
    ensures forall i :: 0 <= i < |r| ==>
              skip + i < |db.users| &&
              r[i].auth == [] &&
              Mappers.Shows(r[i], db.Load(db.users[skip + i]), false)
  {
    var page := Query.Page(db.users, skip, limit);
    seq(|page|, i requires 0 <= i < |page| reads db requires Models.Owned(db.chats) =>
      Mappers.UserDbToView(Some(db.Load(page[i])), false).value)
  }

  /**
   * `create_user`: refuses a taken username and every auth type but 1;
   * otherwise stores one user row with `freshId` and one credential row
   * with the hashed secret, and returns the new user's view without auth.
   */
  method CreateUser(db: Store, ua: Schema.UserAuth, freshId: Schema.Uuid, hash: string -> string)
    returns (r: Option<Schema.User>)
    requires db.Valid() && db.Unused(freshId)
    modifies db
    ensures db.Valid()
    ensures Query.Exists(old(db.users), Models.UsernameColumn, ua.username) ==>
              r.None? && db.Snapshot() == old(db.Snapshot())
    ensures !Query.Exists(old(db.users), Models.UsernameColumn, ua.username) && ua.authType != 1 ==>
              r.None? && db.Snapshot() == old(db.Snapshot())
    ensures !Query.Exists(old(db.users), Models.UsernameColumn, ua.username) && ua.authType == 1 ==>
              && r == Some(Schema.NewUser(freshId, ua.username))
              && db.users == old(db.users) + [Mappers.ViewToRow(Schema.NewUser(freshId, ua.username))]
              && db.auths == old(db.auths) + [Models.UserAuth(freshId, hash(ua.secret), 1)]
              && db.chats == old(db.chats)
              && GetUser(db, ua.username) ==
                   Some(Schema.NewUser(freshId, ua.username).(auth := [Schema.UserAuth(ua.username, hash(ua.secret), 1)]))
  {
    var existing := GetUser(db, ua.username);
    if existing.Some? {
      return None;
    }
    var hashed: Schema.UserAuth;
    match ua.authType {
      case 1 => hashed := ua.(secret := hash(ua.secret));
      case _ => return None;
    }
    var dbUser, dbUserAuth := Mappers.UserViewToDb(None, Some(hashed), freshId);
    // `db_user_auth` is the object in `db_user.auth`: adding the user adds it once.
    Query.AppendKeepsUnique(db.users, dbUser.row);
    db.Add(dbUser);
    r := Mappers.UserDbToView(Some(dbUser), false);
    NewUserIsFound(db, old(db.users), old(db.auths), ua.username, freshId, dbUserAuth.value);
  }

  /** After `create_user`, `get_user` finds the new row and exactly its one credential. */
  lemma NewUserIsFound(db: Store, users0: seq<Models.User>, auths0: seq<Models.UserAuth>,
                       username: string, id: Schema.Uuid, a: Models.UserAuth)
    requires Models.Owned(db.chats)
    requires !Query.Exists(users0, Models.UsernameColumn, username)
    requires forall x :: x in auths0 ==> x.userId != id
    requires a.userId == id
    requires forall c :: c in db.chats ==> c.userId != Some(id)
    requires db.users == users0 + [Mappers.ViewToRow(Schema.NewUser(id, username))]
    requires db.auths == auths0 + [a]
    ensures GetUser(db, username) ==
              Some(Schema.NewUser(id, username).(auth := [Mappers.AuthToView(username, a)]))
  {
    var row := Mappers.ViewToRow(Schema.NewUser(id, username));
    FirstIsLast(users0, row, username);
    assert db.users[|users0|] == row;
    FilterNone(auths0, a, id);
    Query.FilterNoMatch(db.chats, (c: Models.Chat) => c.userId == Some(row.id));
    assert db.Load(row) == Models.Loaded(row, [a], []);
    NewUserView(id, username, a);
  }

  /** The view of a just-created user row with its one credential. */
  lemma NewUserView(id: Schema.Uuid, username: string, a: Models.UserAuth)
    ensures Mappers.UserDbToView(Some(Models.Loaded(Mappers.ViewToRow(Schema.NewUser(id, username)), [a], [])), true) ==
              Some(Schema.NewUser(id, username).(auth := [Mappers.AuthToView(username, a)]))
  {
    var lu := Models.Loaded(Mappers.ViewToRow(Schema.NewUser(id, username)), [a], []);
    var v := Mappers.UserDbToView(Some(lu), true).value;
    assert v.auth == [Mappers.AuthToView(username, a)];
    assert v.chats == [];
  }

  /** A name no earlier row has is found first at the appended row. */
  lemma FirstIsLast(users0: seq<Models.User>, row: Models.User, username: string)
    requires !Query.Exists(users0, Models.UsernameColumn, username)
    requires row.username == username
    ensures Query.FirstWhere(users0 + [row], Models.UsernameColumn, username) == Some(|users0|)
  {
    assert (users0 + [row])[|users0|] == row;
  }

  /** Only the appended credential belongs to an id no earlier credential has. */
  lemma FilterNone(auths0: seq<Models.UserAuth>, a: Models.UserAuth, id: Schema.Uuid)
    requires forall x :: x in auths0 ==> x.userId != id
    requires a.userId == id
    ensures Query.Filter(auths0 + [a], (x: Models.UserAuth) => x.userId == id) == [a]
  {
    var p := (x: Models.UserAuth) => x.userId == id;
    var s := auths0 + [a];
    assert s[..|s| - 1] == auths0;
    Query.FilterNoMatch(auths0, p);
  }

  /** `setattr(user, k, u.k)` for a scalar key `k`. */
  function SetAttr(row: Models.User, k: Schema.Key, u: Schema.User): Models.User
    requires !k.Auth? && !k.Chats?
  {
    match k
    case Username => row.(username := u.username)
    case Id => row.(id := u.id)
    case IsActive => row.(isActive := u.isActive)
    case Email => row.(email := u.email)
    case FullName => row.(fullName := u.fullName)
    case ThemeLight => row.(themeLight := u.themeLight)
    case DefaultPrompt => row.(defaultPrompt := u.defaultPrompt)
  }

  /** `row` after the `setattr` loop has run over the first `n` keys, skipping `auth` and `chats`. */
  function Assigned(row: Models.User, u: Schema.User, n: nat): Models.User
    requires n <= |Schema.Keys|
  {
    if n == 0 then row
    else
      var prev := Assigned(row, u, n - 1);
      var k := Schema.Keys[n - 1];
      if k.Auth? || k.Chats? then prev else SetAttr(prev, k, u)
  }

  /** The `setattr` loop over all keys overwrites every scalar column, and `id` too. */
  lemma {:induction false} AssignedAll(row: Models.User, u: Schema.User)
    ensures Assigned(row, u, |Schema.Keys|) == Mappers.ViewToRow(u)
  {
    var r1 := Assigned(row, u, 1);
    var r2 := Assigned(row, u, 2);
    var r3 := Assigned(row, u, 3);
    var r4 := Assigned(row, u, 4);
    var r5 := Assigned(row, u, 5);
    var r6 := Assigned(row, u, 6);
    var r7 := Assigned(row, u, 7);
    var r8 := Assigned(row, u, 8);
    assert r7 == Mappers.ViewToRow(u);
    assert r8 == r7;
  }

  /** How `update_user` ends: no such user, the updated row, or a failed commit. */
  datatype UpdateResult = NoSuchUser | Updated(row: Models.User) | IntegrityError

  /**
   * `update_user`: finds the first row named like `u`; when there is one,
   * overwrites all its columns with the view's values (auth and chats are
   * skipped), commits and returns it; otherwise changes nothing. The commit
   * fails, and nothing changes, when the new id is another row's primary key.
   */
  method UpdateUser(db: Store, u: Schema.User) returns (r: UpdateResult)
    requires db.Valid()
    modifies db
    ensures db.Valid()
    ensures db.auths == old(db.auths) && db.chats == old(db.chats)
    ensures !Query.Exists(old(db.users), Models.UsernameColumn, u.username) ==>
              r.NoSuchUser? && db.users == old(db.users)
    ensures Query.Exists(old(db.users), Models.UsernameColumn, u.username) ==>
              exists k :: IsFirst(old(db.users), Models.UsernameColumn, u.username, k) &&
                if Models.IdClash(old(db.users), k, u.id)
                then r.IntegrityError? && db.users == old(db.users)
                else r == Updated(Mappers.ViewToRow(u)) &&
                     db.users == old(db.users)[k := Mappers.ViewToRow(u)]
  {
    var found := Query.FirstWhere(db.users, Models.UsernameColumn, u.username);
    if found.None? {
      return NoSuchUser;
    }
    var k := found.value;
    assert IsFirst(db.users, Models.UsernameColumn, u.username, k);
    var row0 := db.users[k];
    var row := row0;
    for i := 0 to |Schema.Keys|
      invariant row == Assigned(row0, u, i)
    {
      var key := Schema.Keys[i];
      if key.Auth? || key.Chats? {
        continue;
      }
      row := SetAttr(row, key, u);
    }
    AssignedAll(row0, u);
    // `db.commit()`: the primary key of `users` must stay unique.
    if exists j :: 0 <= j < |db.users| && j != k && db.users[j].id == row.id {
      return IntegrityError;
    }
    Query.ReplaceKeepsUnique(db.users, k, row);
    db.SetUser(k, row);
    r := Updated(row);
  }

  /** `create_chat`: appends one chat row with the given owner and id; duplicates are not checked. */
  method CreateChat(db: Store, chat: Schema.Chat)
    requires db.Valid()
    modifies db
    ensures db.Valid()
    ensures db.users == old(db.users) && db.auths == old(db.auths)
    ensures db.chats == old(db.chats) + [Models.Chat(chat.chatId, Some(chat.owner), None)]
  {
    var c := Models.Chat(chat.chatId, Some(chat.owner), None);
    db.AddChat(c);
  }

  /** How `.one()` ends: one row found, or one of its two exceptions. */
  datatype RemoveResult = Removed | NoResultFound | MultipleResultsFound

  /**
   * `remove_chat`: deletes the chat row with `chat.chatId` when exactly one
   * row has it; with none or several it fails and changes nothing.
   */
  method RemoveChat(db: Store, chat: Schema.Chat) returns (r: RemoveResult)
    requires db.Valid()
    modifies db
    ensures db.Valid()
    ensures db.users == old(db.users) && db.auths == old(db.auths)
    ensures var n := |Query.ChatMatches(old(db.chats), chat.chatId)|;
            r == if n == 0 then NoResultFound else if n == 1 then Removed else MultipleResultsFound
    ensures r.NoResultFound? ==> Query.NoChat(old(db.chats), chat.chatId) && db.chats == old(db.chats)
    ensures r.MultipleResultsFound? ==> Query.SharedChatId(old(db.chats), chat.chatId) && db.chats == old(db.chats)
    ensures r.Removed? ==>
              (exists k :: Query.OnlyChatAt(old(db.chats), chat.chatId, k) &&
                 db.chats == old(db.chats)[..k] + old(db.chats)[k + 1..]) &&
              Query.NoChat(db.chats, chat.chatId)
  {
    var matches := Query.ChatMatches(db.chats, chat.chatId);
    if |matches| == 0 {
      Query.NoMatch(db.chats, chat.chatId);
      return NoResultFound;
    }
    if |matches| > 1 {
      Query.SeveralMatches(db.chats, chat.chatId);
      return MultipleResultsFound;
    }
    Query.OneMatch(db.chats, chat.chatId);
    var k := matches[0];
    Query.DeleteOnly(db.chats, chat.chatId, k);
    db.DeleteChat(k);
    r := Removed;
  }
}

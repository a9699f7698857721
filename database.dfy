/** `seed_db` of api/src/serge/database.py: make sure a "system" user exists. */
module Database {
  import opened Wrappers
  import Schema
  import Models
  import Query
  import opened Session

  const SystemUsername: string := "system"

  /** The system user `seed_db` builds, with its one empty, type-0 credential. */
  function SystemUser(id: Schema.Uuid): (lu: Models.Loaded)
    ensures lu.row.id == id && lu.row.username == SystemUsername
    ensures lu.row.email == "" && lu.row.fullName == "Default User"
    ensures !lu.row.themeLight && lu.row.isActive
    ensures lu.row.defaultPrompt == Schema.NewUser(id, SystemUsername).defaultPrompt
    ensures lu.auth == [Models.UserAuth(id, "", 0)] && lu.chats == []
  {
    Models.Loaded(
      Models.User(
        id, "system", "", "Default User", false,
        "Below is an instruction that describes a task. Write a response that appropriately completes the request.",
        true),
      [Models.UserAuth(id, "", 0)],
      [])
  }

  /** The tables after `seed_db` with `id` as the uuid it would draw. */
  function Seeded(t: Tables, id: Schema.Uuid): (r: Tables)
    ensures Query.Exists(t.users, Models.UsernameColumn, SystemUsername) ==> r == t
    ensures !Query.Exists(t.users, Models.UsernameColumn, SystemUsername) ==>
              && r.users == t.users + [SystemUser(id).row]
              && r.auths == t.auths + [Models.UserAuth(id, "", 0)]
              && r.chats == t.chats
    ensures Query.Exists(r.users, Models.UsernameColumn, SystemUsername)
  {
    if Query.FirstWhere(t.users, Models.UsernameColumn, SystemUsername).Some? then t
    else
      var sys := SystemUser(id);
      assert (t.users + [sys.row])[|t.users|] == sys.row;
      Tables(t.users + [sys.row], t.auths + sys.auth, t.chats + sys.chats)
  }

  /** Seeding twice leaves the tables as seeding once, whatever uuid the second run draws. */
  lemma SeedIdempotent(t: Tables, id1: Schema.Uuid, id2: Schema.Uuid)
    ensures Seeded(Seeded(t, id1), id2) == Seeded(t, id1)
  {
  }

  /** After seeding, the first "system" row is the pre-existing one or the seeded user. */
  lemma SeededSystemUser(t: Tables, id: Schema.Uuid)
    ensures var r := Seeded(t, id);
            match Query.FirstWhere(r.users, Models.UsernameColumn, SystemUsername)
            case None => false
            case Some(k) =>
              if Query.Exists(t.users, Models.UsernameColumn, SystemUsername) then k < |t.users|
              else k == |t.users| && r.users[k] == SystemUser(id).row
  {
    var r := Seeded(t, id);
    if !Query.Exists(t.users, Models.UsernameColumn, SystemUsername) {
      assert r.users[|t.users|] == SystemUser(id).row;
    }
  }

  /**
   * `seed_db`: when no user is named "system", adds the system user and its
   * credential; otherwise leaves the database unchanged.
   */
  method SeedDb(db: Store, freshId: Schema.Uuid)
    requires db.Valid() && db.Unused(freshId)
    modifies db
    ensures db.Valid()
    ensures db.Snapshot() == Seeded(old(db.Snapshot()), freshId)
  {
    var sysU := Query.FirstWhere(db.users, Models.UsernameColumn, SystemUsername);
    if sysU.Some? {
      return;
    }
    var systemUser := SystemUser(freshId);
    Query.AppendKeepsUnique(db.users, systemUser.row);
    db.Add(systemUser);
  }
}

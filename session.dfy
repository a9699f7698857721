/**
 * The ORM session as three tables held in insertion order. Adding an
 * object adds its row and, by cascade, the rows in its relationship
 * collections; commit is not modelled separately.
 */
module Session {
  import opened Wrappers
  import opened Models
  import Query

  /** A snapshot of the three tables. */
  datatype Tables = Tables(users: seq<User>, auths: seq<UserAuth>, chats: seq<Chat>)

  class Store {
    var users: seq<User>
    var auths: seq<UserAuth>
    var chats: seq<Chat>

    /** An empty database. */
    constructor ()
      ensures users == [] && auths == [] && chats == []
      ensures Valid()
    {
      users, auths, chats := [], [], [];
    }

    /**
     * The invariant every operation keeps: usernames are unique, ids are
     * unique, and every chat row has an owner a view can show.
     */
    predicate Valid()
      reads this
    {
      UniqueUsernames(users) && UniqueIds(users) && Owned(chats)
    }

    function Snapshot(): (t: Tables)
      reads this
    {
      Tables(users, auths, chats)
    }

    /** No row of any table mentions `id`: what a fresh `uuid4()` gives. */
    predicate Unused(id: Uuid)
      reads this
    {
      && (forall u :: u in users ==> u.id != id)
      && (forall a :: a in auths ==> a.userId != id)
      && (forall c :: c in chats ==> c.userId != Some(id))
    }

    /** `row` with its relationship collections loaded from the tables. */
    function Load(row: User): (lu: Loaded)
      reads this
      ensures lu.row == row
      ensures forall a :: a in lu.auth <==> a in auths && a.userId == row.id
      ensures forall c :: c in lu.chats <==> c in chats && c.userId == Some(row.id)
      ensures forall a :: multiset(lu.auth)[a] == if a.userId == row.id then multiset(auths)[a] else 0
      ensures forall c :: multiset(lu.chats)[c] == if c.userId == Some(row.id) then multiset(chats)[c] else 0
      ensures Owned(chats) ==> Owned(lu.chats)
    {
      Query.FilterCount(auths, (a: UserAuth) => a.userId == row.id);
      Query.FilterCount(chats, (c: Chat) => c.userId == Some(row.id));
      Loaded(row,
             Query.Filter(auths, (a: UserAuth) => a.userId == row.id),
             Query.Filter(chats, (c: Chat) => c.userId == Some(row.id)))
    }

    /** `db.add(user)`: the user row and, by cascade, its auth and chat rows. */
    method Add(lu: Loaded)
      modifies this
      ensures users == old(users) + [lu.row]
      ensures auths == old(auths) + lu.auth
      ensures chats == old(chats) + lu.chats
    {
      users := users + [lu.row];
      auths := auths + lu.auth;
      chats := chats + lu.chats;
    }

    /** `db.add(chat)`. */
    method AddChat(c: Chat)
      modifies this
      ensures users == old(users) && auths == old(auths)
      ensures chats == old(chats) + [c]
    {
      chats := chats + [c];
    }

    /** `db.delete(chat)` of the chat row at index `k`. */
    method DeleteChat(k: nat)
      requires k < |chats|
      modifies this
      ensures users == old(users) && auths == old(auths)
      ensures chats == old(chats)[..k] + old(chats)[k + 1..]
    {
      chats := chats[..k] + chats[k + 1..];
    }

    /** A user row's columns after `setattr` calls. */
    method SetUser(k: nat, row: User)
      requires k < |users|
      modifies this
      ensures users == old(users)[k := row]
      ensures auths == old(auths) && chats == old(chats)
    {
      users := users[k := row];
    }
  }
}

/**
 * The ORM query forms the core uses, over tables held as sequences in
 * insertion order: `.filter(col == v).first()`, `.filter(...).one()`,
 * a relationship collection (all rows whose foreign key matches) and
 * `.offset(skip).limit(limit)`.
 */
module Query {
  import opened Wrappers
  import opened Models

  /** `.filter(col == value).first()`: the index of the first matching row. */
  function FirstWhere(users: seq<User>, col: Column, value: string): (r: Option<nat>)
    ensures r.Some? ==>
              r.value < |users| && ColumnValue(users[r.value], col) == value &&
              forall j :: 0 <= j < r.value ==> ColumnValue(users[j], col) != value
    ensures r.None? <==> forall j :: 0 <= j < |users| ==> ColumnValue(users[j], col) != value
  {
    if users == [] then None
    else if ColumnValue(users[0], col) == value then Some(0)
    else match FirstWhere(users[1..], col, value)
      case None => None
      case Some(k) => Some(k + 1)
  }

  /** Whether some row has `value` in column `col`. */
  predicate Exists(users: seq<User>, col: Column, value: string) {
    exists j :: 0 <= j < |users| && ColumnValue(users[j], col) == value
  }

  /** Appending a row with a new username and a new id keeps both unique. */
  lemma AppendKeepsUnique(users: seq<User>, row: User)
    requires UniqueUsernames(users) && UniqueIds(users)
    requires !Exists(users, UsernameColumn, row.username)
    requires forall u :: u in users ==> u.id != row.id
    ensures UniqueUsernames(users + [row]) && UniqueIds(users + [row])
  {
    var s := users + [row];
    forall i, j | 0 <= i < j < |s| ensures s[i].username != s[j].username && s[i].id != s[j].id {
      assert s[i] == users[i] && s[i] in users;
      if j == |users| {
        assert ColumnValue(users[i], UsernameColumn) != row.username;
      }
    }
  }

  /** Replacing row `k` by one with the same username and an id no other row has keeps both unique. */
  lemma ReplaceKeepsUnique(users: seq<User>, k: nat, row: User)
    requires UniqueUsernames(users) && UniqueIds(users)
    requires k < |users| && row.username == users[k].username
    requires !IdClash(users, k, row.id)
    ensures UniqueUsernames(users[k := row]) && UniqueIds(users[k := row])
  {
    var s := users[k := row];
    forall i, j | 0 <= i < j < |s| ensures s[i].id != s[j].id {
      if i == k {
        assert users[j].id != row.id;
      } else if j == k {
        assert users[i].id != row.id;
      }
    }
  }

  /** The indices of the chat rows whose `chat_id` is `chatId`, ascending. */
  function ChatMatches(chats: seq<Chat>, chatId: string): (r: seq<nat>)
    ensures forall k: int :: k in r <==> 0 <= k < |chats| && chats[k].chatId == chatId
    ensures forall i, j :: 0 <= i < j < |r| ==> r[i] < r[j]
    ensures forall i :: 0 <= i < |r| ==> r[i] < |chats|
  {
    if chats == [] then []
    else
      var n := |chats| - 1;
      ChatMatches(chats[..n], chatId) + (if chats[n].chatId == chatId then [n] else [])
  }

  /** No chat row has `chatId`. */
  predicate NoChat(chats: seq<Chat>, chatId: string) {
    forall c :: c in chats ==> c.chatId != chatId
  }

  /** Two distinct chat rows share `chatId`. */
  predicate SharedChatId(chats: seq<Chat>, chatId: string) {
    exists i, j :: 0 <= i < j < |chats| && chats[i].chatId == chatId && chats[j].chatId == chatId
  }

  /** Row `k` is the one and only chat row with `chatId`. */
  predicate OnlyChatAt(chats: seq<Chat>, chatId: string, k: int) {
    && 0 <= k < |chats|
    && chats[k].chatId == chatId
    && forall j :: 0 <= j < |chats| && j != k ==> chats[j].chatId != chatId
  }

  /** `.one()` finding no row: no row has the id. */
  lemma NoMatch(chats: seq<Chat>, chatId: string)
    requires |ChatMatches(chats, chatId)| == 0
    ensures NoChat(chats, chatId)
  {
    var m := ChatMatches(chats, chatId);
    forall c | c in chats ensures c.chatId != chatId {
      var i :| 0 <= i < |chats| && chats[i] == c;
      assert i !in m;
    }
  }

  /** `.one()` finding several rows: two rows share the id. */
  lemma SeveralMatches(chats: seq<Chat>, chatId: string)
    requires |ChatMatches(chats, chatId)| > 1
    ensures SharedChatId(chats, chatId)
  {
    var m := ChatMatches(chats, chatId);
    assert m[0] in m && m[1] in m;
  }

  /** `.one()` finding one row: it is the only row with the id. */
  lemma OneMatch(chats: seq<Chat>, chatId: string)
    requires |ChatMatches(chats, chatId)| == 1
    ensures OnlyChatAt(chats, chatId, ChatMatches(chats, chatId)[0])
  {
    var m := ChatMatches(chats, chatId);
    forall j | 0 <= j < |chats| && chats[j].chatId == chatId ensures j == m[0] {
      assert j in m;
    }
    assert m[0] in m;
  }

  /** Deleting the only row with `chatId` leaves no row with it. */
  lemma DeleteOnly(chats: seq<Chat>, chatId: string, k: int)
    requires OnlyChatAt(chats, chatId, k)
    ensures NoChat(chats[..k] + chats[k + 1..], chatId)
  {
    var rest := chats[..k] + chats[k + 1..];
    forall c | c in rest ensures c.chatId != chatId {
      var i :| 0 <= i < |rest| && rest[i] == c;
      if i < k {
        assert c == chats[i];
      } else {
        assert c == chats[i + 1];
      }
    }
  }

  /** The rows of `s` that satisfy `p`, in table order. */
  function Filter<T(!new)>(s: seq<T>, p: T -> bool): (r: seq<T>)
    ensures forall x :: x in r <==> x in s && p(x)
    ensures |r| <= |s|
  {
    if s == [] then []
    else
      var n := |s| - 1;
      Filter(s[..n], p) + (if p(s[n]) then [s[n]] else [])
  }

  /** One kept row per qualifying row of the table: multiplicities are preserved. */
  lemma {:induction false} FilterCount<T(!new)>(s: seq<T>, p: T -> bool)
    ensures forall x :: multiset(Filter(s, p))[x] == if p(x) then multiset(s)[x] else 0
  {
    if s != [] {
      var n := |s| - 1;
      assert s == s[..n] + [s[n]];
      FilterCount(s[..n], p);
    }
  }

  lemma FilterSnoc<T(!new)>(s: seq<T>, x: T, p: T -> bool)
    ensures Filter(s + [x], p) == Filter(s, p) + (if p(x) then [x] else [])
  {
    assert (s + [x])[..|s|] == s;
  }

  /** Filtering keeps table order: the kept rows of `a` come before those of `b`. */
  lemma {:induction false} FilterAppend<T(!new)>(a: seq<T>, b: seq<T>, p: T -> bool)
    ensures Filter(a + b, p) == Filter(a, p) + Filter(b, p)
  {
    if b == [] {
      assert a + b == a;
    } else {
      var n := |b| - 1;
      var init, x := b[..n], b[n];
      assert a + b == (a + init) + [x];
      assert init + [x] == b;
      FilterSnoc(a + init, x, p);
      FilterSnoc(init, x, p);
      FilterAppend(a, init, p);
    }
  }

  /** Filtering rows of which none qualifies gives nothing. */
  lemma FilterNoMatch<T(!new)>(s: seq<T>, p: T -> bool)
    requires forall x :: x in s ==> !p(x)
    ensures Filter(s, p) == []
  {
  }

  /** `.offset(skip).limit(limit)`. */
  function Page<T>(s: seq<T>, skip: nat, limit: nat): (r: seq<T>)
    ensures |r| == if skip >= |s| then 0 else if limit < |s| - skip then limit else |s| - skip
    ensures forall i :: 0 <= i < |r| ==> skip + i < |s| && r[i] == s[skip + i]
  {
    if skip >= |s| then []
    else if limit < |s| - skip then s[skip..skip + limit]
    else s[skip..]
  }
}

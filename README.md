# serge user/auth/chat store — a Dafny model

This project models the data layer of the serge chat web application: the
user, credential ("user auth") and chat-ownership tables, the CRUD
operations over them (`api/src/serge/crud.py`), the `Mappers` that turn
stored rows into API view records and back, the view records themselves
with their defaults and secret masking (`api/src/serge/schema/user.py`),
the "make sure a system user exists" seeding routine
(`api/src/serge/database.py`) and the catalogue flattening of the model
health-check (`api/test/healthcheck_models.py`).

The ORM session is the class `Session.Store`: three sequences of rows
(`users`, `auths`, `chats`) in insertion order. The read-only lookups
(`get_user`, `get_user_by_email`, `get_users`) are functions that read the
store. The operations that change it (`create_user`, `update_user`,
`create_chat`, `remove_chat`, `seed_db`) are methods. Each method's
contract states exactly how the three sequences change. ORM queries are modelled as follows (module `Query`):
`.filter(col == v).first()` is the first match in sequence order,
`.one()` counts the matches, a relationship collection is the rows whose
foreign key matches, in table order, and `.offset(skip).limit(limit)` is
slicing.

External pieces become parameters: the password hash is the
function-typed parameter `hash`, and `uuid.uuid4()` is a `freshId`
parameter that no row of any table uses yet (`Store.Unused`). Logging is
left out.

Modules: `Wrappers` (Option), `Schema` (view records), `Models` (stored
rows), `Query`, `Session`, `Mappers`, `Crud`, `Database`,
`HealthcheckModels`.

Modelling decisions:

- The ORM model file `serge/models/user.py` is not part of this model. The
  rows follow the persisted schema users(id, username, email, full_name,
  theme_light, default_prompt, is_active), user_auth(user_id, secret,
  auth_type), chats(chat_id, owner, user_id). A user's `chats` collection
  is taken to be the chat rows whose `user_id` is the user's id. So a chat
  added by `create_chat`, which sets only `owner` and `chat_id`, is not in
  any user's `chats` collection.
- A chat row's `owner` is nullable: `user_view_to_db` copies only
  `chat_id` (crud.py:214). The view record declares `owner: str`, so
  `user_db_to_view` can only map chat rows that have an owner. Its
  precondition says so.
- `Store.Valid()` is the store's invariant: no two user rows share a
  username, no two share an id (the primary key), and every chat row has an
  owner. The empty store satisfies it, and every operation keeps it.
- `update_user`'s `setattr` loop over `u.dict()` is a loop over
  `Schema.Keys`, the view's field names in declaration order. It skips
  `auth` and `chats`. The loop overwrites the row's `id` as well.
- `remove_chat` ends in one of `.one()`'s two exceptions when zero rows or
  several rows match. These are the result values `NoResultFound` and
  `MultipleResultsFound`.
- `update_user` returns the updated stored row, not a view, as the code
  does. Its `db.commit()` (crud.py:105) fails when the new `id` is already
  another row's primary key. The model returns `IntegrityError` in that
  case and changes nothing.

## Model

| member | source | states |
|---|---|---|
| `Schema.NewUser` | api/src/serge/schema/user.py:20-28 | a `User` given only id and username is active, has empty email and full name, dark theme, the default instruction prompt, and no auth or chats |
| `Schema.ToPublicDict` | api/src/serge/schema/user.py:47-50 | every auth entry's secret becomes `"********"`; the number of entries, each entry's username and auth type, and every other user field and the chats are unchanged |
| `Query.FirstWhere` | api/src/serge/crud.py:29 | `.first()` gives the index of a matching row with no match before it, and gives nothing exactly when no row matches |
| `Query.ChatMatches` | api/src/serge/crud.py:140 | the ascending list of exactly the indices of chat rows with the given chat_id |
| `Query.NoMatch` | api/src/serge/crud.py:140 | zero matches means no chat row has the id |
| `Query.SeveralMatches` | api/src/serge/crud.py:140 | more than one match means two distinct rows share the id |
| `Query.OneMatch` | api/src/serge/crud.py:140 | exactly one match means that row is the only one with the id |
| `Query.DeleteOnly` | api/src/serge/crud.py:141 | deleting the only row with a chat_id leaves no row with it |
| `Query.Filter` | api/src/serge/crud.py:171-173 | a relationship collection holds exactly the rows whose foreign key matches, and no more rows than the table |
| `Query.FilterCount` | api/src/serge/crud.py:171-173 | each matching row occurs in the collection as often as in the table, and a non-matching row not at all |
| `Query.FilterAppend` | api/src/serge/crud.py:171-173 | the collection keeps table order: filtering `a + b` is filtering `a` followed by filtering `b` |
| `Query.AppendKeepsUnique` | api/src/serge/crud.py:62-64 | appending a row whose username no row has and whose id no row has keeps usernames and ids unique |
| `Query.ReplaceKeepsUnique` | api/src/serge/crud.py:98-105 | replacing a row by one with the same username and an id no other row has keeps usernames and ids unique |
| `Query.Page` | api/src/serge/crud.py:39 | `.offset(skip).limit(limit)` yields min(limit, rows after skip) rows, the i-th being row skip+i |
| `Session.Store.Load` | api/src/serge/crud.py:171-173 | a user's `auth` holds exactly the credential rows with its id, each as often as in the table, its `chats` likewise the chat rows with its id, and they are owned when the table's chats are |
| `Session.Store.Add` | api/src/serge/crud.py:74-75 | adding a user appends its row, its credential rows and its chat rows, and nothing else |
| `Session.Store.AddChat` | api/src/serge/crud.py:123 | adding a chat appends exactly that row |
| `Session.Store.DeleteChat` | api/src/serge/crud.py:141 | deleting removes exactly the row at that index |
| `Session.Store.SetUser` | api/src/serge/crud.py:104 | the updated columns replace exactly that user row |
| `Mappers.ViewRoundTrip` | api/src/serge/crud.py:175-179 | a view stored as a row (`User(**u.dict())`, crud.py:210) and mapped back is the same view with empty collections, with or without auth |
| `Mappers.UserDbToView` | api/src/serge/crud.py:167-181 | None maps to None; otherwise the view has the row's scalar fields, no auth unless `include_auth`, with it one entry per stored credential in order carrying the user's username, the stored secret and type, and always one chat per stored chat with its id and owner |
| `Mappers.UserAuthViewToDb` | api/src/serge/crud.py:236-238 | None for None; otherwise a row bound to the given user id from which the view's secret and type are recovered |
| `Mappers.UserViewToDb` | api/src/serge/crud.py:204-215 | needs a user or a credential; without a user, a new row with the fresh id and the credential's username; the credential row only when one is given, bound to that user's id; one chat row per view chat with its chat_id, no owner, bound to the user |
| `Mappers.AuthRoundTrip` | api/src/serge/crud.py:177 | a stored credential shown in the view maps back through `user_auth_view_to_db` to the same row |
| `Crud.LoadedCredentials` | api/src/serge/crud.py:170-177 | with auth included, the view's auth entries are exactly the user's stored credentials |
| `Crud.GetUser` | api/src/serge/crud.py:28-31 | found exactly when a row has the username; then it is the first such row, shown with one auth entry per credential row of that user in table order, and one chat per chat row of that user with its id and owner |
| `Crud.GetUserByEmail` | api/src/serge/crud.py:35 | found exactly when a row has the email; then it is the first such row, with no auth entries and one chat per chat row of that user with its id and owner |
| `Crud.GetUsers` | api/src/serge/crud.py:39 | at most `limit` users, the i-th being stored row skip+i, each without auth entries and with one chat per chat row of that user with its id and owner |
| `Crud.CreateUser` | api/src/serge/crud.py:62-77 | a taken username or an auth type other than 1 gives None and leaves all three tables unchanged; otherwise exactly one user row with the fresh id and the username and exactly one credential row with that id, the hashed secret and type 1 are appended, chats unchanged, and the result is the default view with no auth |
| `Crud.NewUserIsFound` | api/src/serge/crud.py:73-77 | after a successful create, `get_user` returns the new user with exactly its one hashed credential |
| `Crud.AssignedAll` | api/src/serge/crud.py:101-104 | the `setattr` loop over all view keys, skipping auth and chats, sets every scalar column, id included, to the view's value |
| `Crud.UpdateUser` | api/src/serge/crud.py:98-106 | no user with the username gives `NoSuchUser` and no change; a new id that another row already has fails the commit with no change; otherwise the first such row, and only it, gets all the view's scalar fields; credential and chat rows are unchanged and the store invariant is kept |
| `Crud.CreateChat` | api/src/serge/crud.py:122-124 | exactly one chat row with the given chat_id and owner is appended, with no duplicate check |
| `Crud.RemoveChat` | api/src/serge/crud.py:140-142 | fails with no change unless exactly one row has the chat_id; then removes exactly that row, after which no row has the id |
| `Database.SystemUser` | api/src/serge/database.py:33-41 | the system user is named "system", has empty email, full name "Default User", dark theme, is active, has the view's default prompt, and one credential with empty secret and type 0 |
| `Database.Seeded` | api/src/serge/database.py:30-44 | with a "system" user present nothing changes; otherwise exactly the system row and its credential are appended; afterwards a "system" user exists |
| `Database.SeedIdempotent` | api/src/serge/database.py:30-44 | seeding twice gives the same tables as seeding once |
| `Database.SeededSystemUser` | api/src/serge/database.py:30-44 | after seeding, the first "system" row is the old one if there was one, else the appended system user |
| `Database.SeedDb` | api/src/serge/database.py:30-44 | the store after the call is `Seeded` of the store before |
| `HealthcheckModels.FlattenCount` | api/test/healthcheck_models.py:44-47 | the number of pairs equals the total number of files across all models of all families |
| `HealthcheckModels.FlattenAppend` | api/test/healthcheck_models.py:44 | flattening `a + b` is flattening `a` followed by flattening `b` |
| `HealthcheckModels.EmptyFamily` | api/test/healthcheck_models.py:44-45 | a family with no models contributes nothing |
| `HealthcheckModels.EmptyModel` | api/test/healthcheck_models.py:45-46 | a model with no files contributes nothing |
| `HealthcheckModels.FlattenAt` | api/test/healthcheck_models.py:44-47 | the pair for file k of model j of family i is (that model's repo, that file's filename), at its position in the output |
| `HealthcheckModels.PositionOrder` | api/test/healthcheck_models.py:44-47 | positions follow family order, then model order, then file order |
| `HealthcheckModels.FlattenFrom` | api/test/healthcheck_models.py:44-47 | every output pair is the repo and filename of some file of some model of some family |

## Left out

- `api/src/serge/main.py`: application wiring, routers, CORS, the static-file fallback middleware and deleting `.tmp` files at startup. These are framework and file-system plumbing.
- The engine and session factory (database.py:11-12), transactions, commit durability and rollback: the store is updated directly and `db.commit()` is not modelled.
- `load_model_data`, `check_model_availability` and the parametrised test in healthcheck_models.py: file reading and HTTP requests.
- The behaviour of `get_password_hash` is an abstract parameter. So the property "a stored password secret never equals the plaintext" cannot be stated.
- `uuid.uuid4()` randomness is a supplied fresh id. Logging calls are dropped.
- Pydantic validation and `orm_mode`, and the `Token` record.
- The check-then-insert race on usernames: the model is single-threaded.
- CreateUser: the source also overwrites the caller's `ua.secret` with the hash in place (crud.py:69). The model passes `ua` by value, so the caller's copy is unchanged.
- UserViewToDb: when the given view already carries auth or chat entries, `User(**u.dict())` would also pass them as plain dictionaries to the ORM constructor, which rejects them. The model ignores them. The only caller in the core passes no view.
- UserViewToDb: when no credential is given, the source returns `[]` as the credential (crud.py:207,215). The model returns `None`. Both are falsy and the only caller in the core always passes a credential.
- UserDbToView: the pydantic error raised for a stored chat without an owner is not modelled. That case is excluded by the precondition instead.
- UpdateUser: when the view's `id` differs from the stored one, what the database does to credential rows that refer to the old id is not modelled. They keep the old `user_id`.
- GetUsers: `skip` and `limit` are natural numbers; negative values are not modelled.
- HealthcheckModels: the JSON catalogue is typed records, so a missing `models`, `files`, `repo` or `filename` key (a `KeyError` in the source) is not modelled. The lazily evaluated generator is modelled as the list of everything it yields.

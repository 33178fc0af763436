# AEDB catalogue backend: a Dafny model of its data manager, login flow and file naming

AEDB is a REST backend for an equipment-manual catalogue. Categories hold
groups, and groups hold manuals. It also provides login with bearer tokens,
S3 uploads and PDF cover extraction. This project models four parts of it as
pure functions and proves properties about them:

- **The generic data manager** (`DataManager`, `Manuals`). A table is a
  `Store<F>`: its rows in the store's default order, each a `Row(id, fields)`,
  plus the next value of the table's identifier sequence. The model covers add,
  get, get-all, update, delete-one, delete-all and the case-insensitive search.
  `Manuals` gives the record shapes of manuals, categories and groups. It also
  models the three search endpoints, which require at least 3 query characters,
  and the nested Category → Group → Manual view. A group's children are the
  manuals whose `group_id` names it. A category's children are the groups whose
  `category_id` names it.
- **The login flow** (`Auth`). User lookup, `authenticate`, the token claims
  and their 60-minute expiry, `get_current_user` and `is_expired`.
  Password hashing and verification are function parameters. So are token
  signing and decoding, given as a `Codec`. The lemmas that need it assume the
  codec decodes every token it signed back to the same claims (`RoundTrips`).
  Time is integer seconds.
- **Object-store uploads** (`Files`). The object key `[folder/]uuid_name`, the
  public URL `endpoint/bucket/key`, and the bucket contents after the write.
  The uuid and the store's answer to the write are parameters.
- **Cover images** (`Covers`). The PNG name is derived from the PDF's base
  name and saved under the media directory, and the call returns the media URL
  of that file. The first page's rendering is a parameter.

The shared modules are `Wrappers` (`Option`, `Result`), `Errors` (HTTP and
attribute errors), `Bytes`, `Seqs` (order-preserving filter and map) and
`Text` (ASCII case folding and substring search).

The model follows the code in three places:

- Deleting does not catch storage errors (`app/services/base.py:126-132`),
  so the model has no "error becomes `false`" path.
- Creating a user does not check for an existing email. The unique column
  rejects a duplicate instead, and the resulting error is not handled, so
  `CreateUser` answers with the unhandled-error 500, not a client error.
- A token without `expires_at` makes the expiry parse fail with an error that
  the handler's `except PyJWTError` does not catch. That surfaces as a 500,
  not a 401.

## Model

| member | source | states |
|---|---|---|
| DataManager.GetItem | app/services/base.py:229-232 | returns a row iff some row has the id; the row returned has that id and is the first such row |
| DataManager.GetItemFinds | app/services/base.py:134-145 | under a unique key, looking up a row's id returns exactly that row |
| DataManager.AddItem | app/services/base.py:89-102 | the store keeps its invariant and grows by one row at the end; the new id is fresh and above every earlier id; the returned row is the stored one and can be looked up |
| DataManager.AddThenGet | app/services/base.py:220-227 | looking up the id that add_item returned gives back the inserted fields under that id |
| DataManager.UpdateItem | app/services/base.py:104-124 | absent id: returns None and leaves the store unchanged; present id: keeps every id, sets that row's fields to the replacement, returns it, leaves other rows untouched and keeps the invariant |
| DataManager.UpdateIdempotent | app/services/base.py:280-285 | repeating the same update changes neither the store nor the answer |
| DataManager.DeleteItem | app/services/base.py:287-294 | returns true iff a row had the id; afterwards no row has it; the remaining rows are exactly the other rows, in their original order, one fewer when something was removed |
| DataManager.DeleteThenGet | app/services/base.py:126-128 | after a delete, the deleted id is not found and every other lookup gives the same answer as before |
| DataManager.DeleteItems | app/services/base.py:296-302 | afterwards the table is empty and no id is found; returns true iff the table was non-empty, i.e. iff some id was found before |
| DataManager.GetItems | app/services/base.py:255-268 | with no statement, the whole table in order; with a WHERE clause, exactly the rows it keeps, in table order |
| DataManager.SearchItems | app/services/base.py:270-278 | fails with the attribute error iff the model has neither column; otherwise returns exactly the rows whose column contains q ignoring case, in table order, where the column is title whenever the model has one and name only when it has no title |
| DataManager.SearchItemsAsWritten | app/services/base.py:272-277 | testing the attributes on the type variable makes every search fail with the attribute error |
| Text.OccursIgnoringCase | app/services/base.py:273 | true iff q occurs at some offset of the text under case folding (the `ILIKE '%q%'` test) |
| Manuals.SearchAsWrittenMissesMatch | app/services/base.py:272-275 | a manual titled "ACS880" is refused by the search as written and returned by the corrected search for "acs" |
| Manuals.SearchManuals | app/routers/v1/manuals.py:54-58 | for q of at least 3 characters: succeeds with exactly the manuals whose title contains q, in table order and each once (a subsequence of the table); every hit's title has at least 3 characters |
| Manuals.SearchGroups | app/routers/v1/manuals.py:61-65 | for q of at least 3 characters: succeeds with exactly the groups whose name contains q, in table order and each once (a subsequence of the table) |
| Manuals.SearchCategories | app/routers/v1/manuals.py:68-72 | for q of at least 3 characters: succeeds with exactly the categories whose name contains q, in table order and each once (a subsequence of the table) |
| Manuals.NestGroup | app/services/base.py:245-250 | a nested group keeps its id and name and lists exactly the manuals whose group_id is its id; under unique manual ids no manual is listed twice |
| Manuals.NestCategory | app/schemas/manuals.py:74-89 | a nested category keeps id, name and logo and lists exactly its groups, each nested; with no groups the list is empty; under unique ids no group is listed twice and no group lists a manual twice |
| Manuals.GetNestedItems | app/services/base.py:234-253 | one entry per category, in order, with that category's fields; each entry holds exactly the groups pointing at it; a category without groups gets an empty list, not omission; under unique ids no entry lists a group twice and no group lists a manual twice |
| Manuals.NestedViewSound | app/services/base.py:242-251 | every manual shown under a category belongs to a group of that category |
| Manuals.NestedViewComplete | app/services/base.py:244-249 | every manual of a group of a category is shown inside that group, inside that category |
| Auth.GetUser | app/services/auth.py:92-103 | fails with 404 iff no user has the email; otherwise returns the name, email and hash of the first user in table order with that email (`scalar()`) |
| Auth.Authenticate | app/services/auth.py:53-85 | 404 iff the email is unknown; 401 iff the user has no hash or the password does not verify; otherwise a bearer token signing `AccessClaims`: the name of the user `get_user` returns, the email as subject and the expiry, issue time plus 60 minutes |
| Auth.GetCurrentUser | app/services/auth.py:106-145 | missing token: 401 Invalid token; undecodable or without a subject: 401 Invalid credentials; a subject but no expiry: the unhandled 500; expiry before now: 401 Token expired; succeeds iff it decodes with a subject and an expiry not before now, returning name and subject as email |
| Auth.IssuedTokenLifetime | app/services/auth.py:148-151 | a token carrying `AccessClaims` issued at t is accepted, with the issued name and email, up to and including t + 3600 s, and refused as expired after it (`IsExpired` is a strict `<`) |
| Auth.CreateUser | app/services/auth.py:44-51 | an email already present fails with the unhandled error; otherwise one row is appended holding name, email and the password's hash, earlier rows kept |
| Auth.RegisterThenLogin | app/services/auth.py:44-78 | a user just created can log in with the same password, and the token identifies them for the next 60 minutes |
| Files.ObjectKey | app/services/files.py:44-45 | the key is `uuid_name`, prefixed by `folder/` when a folder is given; it ends with `_` + the file name and carries the uuid just before it |
| Files.PublicUrl | app/services/files.py:53 | the URL is `endpoint/bucket/` followed by exactly the key |
| Files.SaveFile | app/services/files.py:43-59 | on success the bytes are stored under the key, nothing else in the bucket changes, and the URL of that key is returned; on a store error the bucket is unchanged and the answer is 500 with the store's message |
| Files.UploadFile | app/services/files.py:39-41 | on success the upload's bytes are stored under the key derived from its own file name, nothing else in the bucket changes, and that key's URL is returned; on a store error the bucket is unchanged and the answer is 500 with the upload-failure message and the store's message |
| Files.DistinctIdentifiersDistinctKeys | app/services/files.py:44 | different uuids give different keys for the same folder and name |
| Files.SavedUrlNamesStoredObject | app/services/files.py:48-53 | the URL without its endpoint and bucket is a key the bucket now holds, with the uploaded bytes, ending in `_` + the original name |
| Files.TopLevelKeySplits | app/services/files.py:44-45 | without a folder, the key splits back into the uuid, `_` and the file name |
| Covers.Basename | app/utils/manuals.py:52 | the longest suffix of the path that contains no `/` |
| Covers.OutputFilename | app/utils/manuals.py:52 | the cover name has no directory component and ends with `.png` |
| Covers.CreateUrl | app/utils/manuals.py:52-63 | the URL is `/media/` + the cover name; exactly that name is saved in the media directory with the rendered page, and nothing else changes |
| Covers.CoverOfPdfPath | app/utils/manuals.py:52 | a file at `dir/stem.ext`, with a 4-character extension, gets the cover `stem.png` |
| Covers.CoverOfBareName | app/utils/manuals.py:52 | a bare file name `stem.ext`, with a 4-character extension and no directory part, gets the cover `stem.png` |
| Covers.ShortNameCover | app/utils/manuals.py:52 | a base name of at most 4 characters gives the cover name `.png` |

## Left out

- Database sessions and transactions are not modelled. An add or update commits inside the call, so the state it returns is the durable one. The delete methods (`app/services/base.py:126-132`) execute without committing, and the request's session manager always rolls back on exit (`app/database/session.py:143-150`). The model treats the returned table as the session's state and does not model that rollback.
- SearchItems: treats `q` as literal text. In the source, `%` and `_` inside `q` keep their `LIKE` wildcard meaning, and `\` stays the default escape character, because the pattern is built without escaping. Case folding is ASCII-only, while the database's `ILIKE` also folds other alphabets, such as Cyrillic.
- SearchItems: the source picks the column by reflection (`hasattr`). The model takes an explicit `Attrs` record per entity that says which of `title` and `name` the model declares.
- UpdateItem: takes a full replacement record. In the source only the keys present in the replacement's transport schema are written. `ManualSchema` has no `cover_image_url` or `category_id`, so a manual update keeps those two columns.
- AddItem: always assigns the next sequence value. An insert that supplies its own `id` is not modelled.
- GetItems: an arbitrary SQL statement is modelled only as a row predicate (`Where`). Joins and explicit ordering are not modelled. The default order is taken to be table order.
- GetNestedItems: only the default statement is modelled, which loads all categories with their groups and manuals. Children keep table order, although the eager-loading join does not fix an order. The ORM relationships the source relies on are not declared in the shown models, so children are the rows whose foreign key matches.
- Foreign keys are plain `nat` values. Nullable foreign keys and referential integrity are left to the store.
- Auth.Authenticate: bcrypt and JWT are parameters (`verify`, `hash`, `Codec`). The algorithm, the key and the string format of `expires_at` are not modelled, and time is integer seconds. The source uses `datetime.datetime.UTC` and `datetime.UTC` on the `datetime` class (`app/services/auth.py:84,151`), which would fail when run. It also calls the asynchronous `add_one` and `get_one` without awaiting them (`app/services/auth.py:90,94`). It builds `AuthDataManager(self.session)` (`app/services/auth.py:56`) without the `schema` argument that `BaseDataManager.__init__` requires (`app/services/base.py:78`), so as written the call raises a `TypeError`, an unhandled 500, before any lookup. The model follows the evident intent of that code instead.
- Auth.GetUser: as written, `get_one` is not awaited (`app/services/auth.py:94`), so `model` is a coroutine and never a `UserModel`, and the `isinstance` test (`app/services/auth.py:96`) answers 404 for every email. The model gives the evidently intended lookup.
- Auth.CreateUser: as written, `AuthDataManager(self.session)` (`app/services/auth.py:51`) omits the required `schema` argument (`app/services/base.py:78`) and raises a `TypeError`, an unhandled 500, before anything is stored; `add_one` is also not awaited (`app/services/auth.py:90`). The model gives the evidently intended insert.
- Auth.GetCurrentUser: the returned identity carries the decoded name as an optional value, because the user schema's validation is not part of this model.
- Files.SaveFile: the boto3 client, bucket creation, listing, download and deletion are not modelled. The store is the configured bucket's key-to-bytes map.
- Covers.CreateUrl: PDF parsing and rasterisation are not modelled. The rendered first page is a parameter, so a PDF without pages or an unreadable file, which raises in the source, is not modelled. The logging output is not modelled either.
- Manuals.SearchManuals: the route calls `ManualService(session).search_manuals(q)` (`app/routers/v1/manuals.py:58`), but the `ManualService` it imports from `app/services/manuals.py` (`app/routers/v1/manuals.py:10`) defines no such method. As written the route raises an `AttributeError`, an unhandled 500. The model gives the evidently intended delegation to the generic search over the manuals table.
- Manuals.SearchGroups: `ManualService` defines no `search_groups` either (`app/routers/v1/manuals.py:65`), so as written the route is an unhandled 500. The route also declares `response_model=List[ManualSchema]` (`app/routers/v1/manuals.py:60`), so any non-empty list of groups would fail response validation. The model gives the evidently intended group search.
- Manuals.SearchCategories: `ManualService` defines no `search_categories` (`app/routers/v1/manuals.py:72`), so as written the route is an unhandled 500. Its `response_model=List[ManualSchema]` (`app/routers/v1/manuals.py:67`) would also reject any non-empty list of categories. The model gives the evidently intended category search.
- Routers, dependency injection, templates and the admin panel are not modelled. The only part of the routers kept is the 3-character minimum on search queries.
- The converter, post, menu and storage services are not modelled. The domain `ManualService` in `app/services/manuals.py` is not modelled either, because it builds records with fields that do not exist. The fixture loaders are not modelled.
- Asynchronous execution is treated as sequential. There is no concurrency in the model.

## Findings

| source | as written | input that shows it | evidently intended | confidence | as-written member | corrected member |
|---|---|---|---|---|---|---|
| app/services/base.py:272-277 | `hasattr(M, 'title')` / `hasattr(M, 'name')` test the module-level type variable `M`, which has neither attribute, so every search raises the attribute error | a manuals table holding a manual titled "ACS880", searched for "acs" | test the manager's model class (`self.model`): title when it has one, else name | not executed; high (a `TypeVar` object has no `title` or `name` attribute) | DataManager.SearchItemsAsWritten, Manuals.SearchAsWrittenMissesMatch | DataManager.SearchItems |

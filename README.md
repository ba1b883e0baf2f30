# In-memory Todo store

A Dafny model of the in-memory fallback store of the FirstAPI Todo backend
(`FirstAPI/main.py`). When no MongoDB connection is available, every
`/api/todos*` handler and `/api/stats` work on the module-level list
`todos_memory`. Each record holds `_id`, `title`, `description`,
`completed`, `priority` and `created_at`.

- `wrappers.dfy` (`Wrappers`): `Option`, which stands for Python's `None` or a value.
- `text.dfy` (`Text`): ASCII `Lower` (`str.lower`), substring membership
  `Contains` (`keyword in text`) with an independent position-based
  characterisation, and `NatToString` (`str(n)`), proved injective through
  a parser.
- `todos.dfy` (`Todos`): the `Todo` record, the create body with its
  defaults (`completed` False, `priority` "medium", `description` None),
  and `ApplyPatch`. `ApplyPatch` is the `TodoUpdate` patch with its None
  fields dropped.
- `queries.dfy` (`Queries`): the read-only handlers `List`, `GetStats` and
  `Search`. Each is a function of the stored sequence, so it cannot change
  the store.
- `store.dfy` (`MemoryStore`): functions that give the state after create,
  update, toggle and delete, and lemmas relating them. It also holds the
  class `Store`. Its field `todos` is the list. Its methods do what the
  handlers do: append, scan for the first match, rebind to a filtered
  copy. Each method is proved to follow the matching function.

Behaviour of this branch worth knowing:
- Ids are `str(len(todos_memory) + 1)`, so an id can be reused after a
  delete. `IdsRepeatAfterDelete` exhibits two records with id "2". In that
  case get returns the older record, not the one just created.
- An update whose patch has no fields succeeds and changes nothing. There
  is no "no fields to update" error in this branch.
- There is no invalid-id error in this branch.
- An empty title is accepted.
- `priority` is free text.

## Model

| member | source | states |
|---|---|---|
| Text.Lower | FirstAPI/main.py:388 | lower-casing keeps the length, turns every ASCII upper-case letter into its lower-case counterpart and keeps every other character |
| Text.LowerIgnoresCase | FirstAPI/main.py:388 | strings that differ only in ASCII letter case lower-case to the same string |
| Text.LowerIdempotent | FirstAPI/main.py:391-392 | lower-casing an already lower-cased string changes nothing |
| Text.Contains | FirstAPI/main.py:391-392 | `p in s`: a contained string is never longer than the string containing it |
| Text.ContainsIff | FirstAPI/main.py:391-392 | `keyword in text` holds exactly when the keyword occurs at some position of the text |
| Text.ContainsEmpty | FirstAPI/main.py:391 | the empty keyword occurs in every string |
| Text.NatToString | FirstAPI/main.py:149 | the id is a non-empty string of decimal digits without a leading zero |
| Text.ParseNatToString | FirstAPI/main.py:149 | parsing the decimal id gives back the number it was made from |
| Text.NatToStringInjective | FirstAPI/main.py:149 | two numbers give the same id exactly when they are equal |
| Todos.Record | FirstAPI/main.py:37-41 | the stored record carries the given id, timestamp, title and description; omitted `completed` is false and omitted `priority` is "medium" |
| Todos.RecordDefaults | FirstAPI/main.py:37-41 | a body with only a title yields a pending, medium-priority record with no description |
| Todos.ApplyPatch | FirstAPI/main.py:252-253 | every field given in the patch is overwritten and every other field, including id and timestamp, is kept |
| Todos.ApplyEmptyPatch | FirstAPI/main.py:44-48 | an all-None patch leaves the record unchanged |
| Todos.ApplyPatchIdempotent | FirstAPI/main.py:252-253 | applying the same patch twice equals applying it once |
| Queries.WithCompleted | FirstAPI/main.py:189 | the completed filter keeps only records of the store with that `completed` value |
| Queries.WithPriority | FirstAPI/main.py:191 | the priority filter keeps only records of the store with that priority |
| Queries.EmptyPriorityIgnored | FirstAPI/main.py:190-191 | `if priority:` skips an empty priority string: listing with priority "" equals listing with no priority |
| Queries.Filtered | FirstAPI/main.py:186-191 | the handler's two passes keep only store records that pass both filters |
| Queries.MatchingMembers | FirstAPI/main.py:188-191 | a record is among the matches exactly when it is in the store and passes both filters |
| Queries.TwoPassesAreOne | FirstAPI/main.py:188-191 | filtering by completed and then by priority equals one in-order pass with both filters |
| Queries.List | FirstAPI/main.py:186-196 | `total` counts all matches before truncation; `todos` is the first min(limit, total) matches in store order, each in the store and passing both filters; `limit` defaults to `DefaultLimit`, 100 |
| Queries.ListDefaultLimit | FirstAPI/main.py:163 | a request without `limit` lists as with limit 100 and returns at most 100 records |
| Queries.ListAll | FirstAPI/main.py:186-196 | with no filters and a limit at least the store size, the listing is the whole store |
| Queries.GetStats | FirstAPI/main.py:349-364 | total is the store size, completed is at most total, pending is total minus completed and non-negative, and high+medium+low is at most total |
| Queries.PriorityCountsBounded | FirstAPI/main.py:353-357 | the three priority counts add up to at most the number of records |
| Queries.CompletedSplit | FirstAPI/main.py:350-351 | completed and pending records together are all records |
| Queries.StatsAgreeWithList | FirstAPI/main.py:349-357 | each stats count equals the total the list handler reports for the matching filter |
| Queries.Search | FirstAPI/main.py:388-393 | search raises exactly when some record's title misses and its description is None; otherwise every result is a store record whose title or description contains the keyword, ignoring case |
| Queries.SearchInStoreOrder | FirstAPI/main.py:389-393 | successful search results are exactly the matching records in store order |
| Queries.SearchComplete | FirstAPI/main.py:389-393 | a successful search misses no matching record |
| Queries.SearchEmptyKeyword | FirstAPI/main.py:388-393 | the empty keyword returns the whole store and never raises |
| MemoryStore.FirstIndex | FirstAPI/main.py:213-214 | the first position whose id matches, or none exactly when no record has the id |
| MemoryStore.Lookup | FirstAPI/main.py:213-216 | get returns the first record with the id, and NotFound exactly when no record has it |
| MemoryStore.Created | FirstAPI/main.py:148-151 | create appends exactly one record at the end, keeps all earlier records, and gives it the decimal id of the old length plus one |
| MemoryStore.Patched | FirstAPI/main.py:250-258 | update patches only the first record with the id; all other records are kept; a missing id changes nothing |
| MemoryStore.Flipped | FirstAPI/main.py:318 | toggling negates `completed` and keeps every other field |
| MemoryStore.Toggled | FirstAPI/main.py:316-323 | toggle flips only the first record with the id; all other records are kept; a missing id changes nothing |
| MemoryStore.Removed | FirstAPI/main.py:280 | delete leaves only store records whose id differs |
| MemoryStore.RemovedSingle | FirstAPI/main.py:280 | a single record is dropped exactly when its id matches |
| MemoryStore.RemovedAppend | FirstAPI/main.py:280 | delete over a concatenation is the concatenation of the deletes, so survivors keep their store order and multiplicity |
| MemoryStore.RemovedKeeps | FirstAPI/main.py:280 | delete keeps every record with another id |
| MemoryStore.RemovedShrinks | FirstAPI/main.py:279-284 | the store shrinks exactly when some record has the id; otherwise it is unchanged |
| MemoryStore.GetAfterDelete | FirstAPI/main.py:280 | after delete, get of that id is NotFound |
| MemoryStore.ToggleTwice | FirstAPI/main.py:316-318 | toggling the same id twice restores the store |
| MemoryStore.EmptyPatchChangesNothing | FirstAPI/main.py:250-257 | an all-None patch leaves the store unchanged |
| MemoryStore.GetAfterCreate | FirstAPI/main.py:148-151 | get of the new id returns the created record when no older record has that id |
| MemoryStore.IdsRepeatAfterDelete | FirstAPI/main.py:148-151 | create, create, delete "1", create leaves two records with id "2", and get "2" returns the older one |
| MemoryStore.Store.constructor | FirstAPI/main.py:33 | the store starts empty |
| MemoryStore.Store.Create | FirstAPI/main.py:146-156 | the list becomes `Created` of the old list, and the returned record is the appended one |
| MemoryStore.Store.IndexOf | FirstAPI/main.py:213-214 | the scan finds the first position whose id matches |
| MemoryStore.Store.Get | FirstAPI/main.py:211-216 | returns `Lookup` of the list and changes nothing |
| MemoryStore.Store.Update | FirstAPI/main.py:248-258 | the list becomes `Patched` of the old list; the patched record is returned, or NotFound exactly when no record had the id |
| MemoryStore.Store.Delete | FirstAPI/main.py:276-284 | the list becomes `Removed` of the old list; success exactly when it got shorter, which is exactly when some record had the id |
| MemoryStore.Store.Toggle | FirstAPI/main.py:314-323 | the list becomes `Toggled` of the old list; the flipped record is returned, or NotFound exactly when no record had the id |

## Left out

- MongoDB branches of every handler: they call an external database server (ObjectId parsing, `modified_count`, regex queries).
- `FirstAPI/database.py`: client construction, ping and index creation are network I/O.
- HTML pages, static files, health, db-info, the `/api` root and the startup banner are glue.
- `created_at`: the wall-clock timestamp is a parameter (`createdAt`), opaque to the model.
- Request validation by the framework (a missing title, a non-boolean `completed`) and route resolution. `/api/todos/search` is declared after `/api/todos/{todo_id}`, so the framework may route it to get; search is modelled on its own.
- Text.Lower: ASCII letters only, whereas Python's `str.lower` also lower-cases non-ASCII letters.
- Queries.List: `limit` is a natural number; Python's slicing with a negative limit is not modelled.
- Response wrapping (the `message` texts, the `{keyword, count, results}` envelope) is left out; `count` is the length of the results.
- Concurrency: handlers run one at a time on the shared list.
- Aliasing: the handlers return the stored dict itself, so later mutations would show through a response; the model returns values.
- `FirstAPI/static/js/script.js` (browser UI) and `FirstAPI/test_setup.py` (environment checks) are not part of this model.

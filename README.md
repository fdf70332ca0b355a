# Generic repository and URL redirect service — a Dafny model

This project models the data-access core of a URL-shortening service with
click analytics:

- the **generic repository** (`RepositoryInterface` in `src/services/base.py`).
  One instance is bound to one entity type and offers `get`, `filter`, `create`,
  `update` and `delete` on that entity's table. Each call either commits its
  change, or rolls back or raises before the commit; either way a failed call
  commits nothing.
- the **redirect and analytics service** (`UrlRepository` in `src/services/url.py`).
  It is the repository bound to the Url entity and works with a second
  repository over the Click entity. `get_redirect_url` reads a Url, refuses a
  banned one, records one Click and returns the Url's address. `get_status`
  returns a Url together with its Clicks, or with how many were read.

The database session is modelled as the table itself:

- A table is a `seq<Row>` in insertion order.
- A `Row` is an identifier plus a map from attribute name to `Value`
  (`Null | Bool | Int | Text`). An attribute a row does not hold reads as
  `Null`, which is SQL NULL and Python `None`.
- A `Schema` names the entity's columns, the columns that carry a unique
  constraint, the column defaults (`default=`) and the column `onupdate=`
  values. An insert stores the given values over the defaults; an update
  stores the given values over the `onupdate` values over the old row.
  Two rows clash when they have the same identifier, or the same non-NULL
  value in a unique column.
- A commit keeps the new table. A rollback, or an exception raised before the
  commit, leaves the table exactly as it was.

Module layout:

- `wrappers.dfy`: `Option` and `Result`.
- `table.dfy` (module `Table`): rows, values, schemas, and the queries the
  statements express: select by id, equality filter, offset/limit window.
- `base.dfy` (module `Base`):
  - each operation as a function from the old table to a result plus the new
    table (`CreateStep`, `UpdateStep`, `DeleteStep`, `FilterRows`);
  - the invariant-preservation lemmas;
  - the `Repository` class. It holds the table in a field, and its methods
    reassign that field the way the Python methods change the session.
- `base_properties.dfy` (module `BaseProperties`): how the operations relate.
  This covers round trips (`create` then `get`, `create` then `delete`), what
  is left unchanged, and the error paths.
- `url.dfy` (module `Url`): `RedirectStep` and `StatusOf` as functions of the
  two tables, and the `UrlRepository` class over two `Repository` objects.
- `url_properties.dfy` (module `UrlProperties`): the redirect and status
  properties, including a three-redirect scenario.

Error behaviour follows the Python code:

| Python behaviour | model |
|---|---|
| `create` catches `IntegrityError`, rolls back, returns `None` | `Err(IntegrityError)`, table unchanged |
| `update` catches `NoResultFound`, rolls back, returns `None` | `Err(NoResultFound)`, table unchanged |
| `update` hits a unique clash; the `IntegrityError` is not caught | `Err(IntegrityError)`; nothing is committed |
| `delete` on a missing id: `scalar_one()` raises before the commit | `Err(NoResultFound)`, table unchanged |
| insert or update values name a column the entity lacks (the statement does not compile) | `Err(UnconsumedColumns(names))` with every such name |
| a `filter` keyword is not an attribute (`getattr` raises at the first one, in call order) | `Err(NoSuchAttribute(name))` for that first one |
| `get` on a missing id returns `None` | `None` |
| the service then reads `url.is_active` or `url.id` of `None` | `Url.NotFound` |

Consequences of the code worth stating, since a reader might expect otherwise:

- `get` returns `None` rather than failing with a not-found error.
- The count mode of `get_status` is the length of one `filter` page with the
  default limit, so it never exceeds 100 (`UrlProperties.StatusCountIsCapped`).
- `src/services/base.py` has no bulk-insert operation, so none is modelled.

## Model

| member | source | states |
|---|---|---|
| `Table.Lookup` | src/services/base.py:40-43 | the result is a stored row with the requested id; it is `None` exactly when no stored row has that id |
| `Table.MatchingRows` | src/services/base.py:46-48 | a row is in the result iff it is in the table and satisfies every `attribute == value` keyword (logical AND); the result is never longer than the table |
| `Table.Window` | src/services/base.py:49 | `OFFSET`/`LIMIT`: the result holds the rows after the first `offset`, at most `limit` of them, in order (its length is min(limit, n - min(offset, n))) |
| `Base.FirstUnknown` | src/services/base.py:47-48 | `None` iff every keyword is an attribute of the entity; otherwise the first keyword, in call order, that is not |
| `Base.FilterRows` | src/services/base.py:45-52 | for keywords that name no parameter of `filter`: fails iff some keyword is not an attribute, and then names the first such keyword in call order; on success returns at most `limit` rows, each of them stored and satisfying every keyword |
| `Base.CreateStep` | src/services/base.py:54-62 | succeeds iff every value names a column and the new row (the values over the column defaults) clashes with no stored row; any failure leaves the table as it was (rollback) |
| `Base.UpdateStep` | src/services/base.py:64-76 | any failure leaves the table as it was; the table keeps its length, and every position keeps its identifier |
| `Base.DeleteStep` | src/services/base.py:78-84 | on failure the table is unchanged; on success the returned row was stored and the table is one row shorter |
| `Base.CreatePreservesValid` | src/services/base.py:54-62 | `create` keeps the table's integrity: declared columns only, no two rows clashing |
| `Base.UpdatePreservesValid` | src/services/base.py:64-76 | `update` keeps the table's integrity |
| `Base.DeletePreservesValid` | src/services/base.py:78-84 | `delete` keeps the table's integrity |
| `Base.Repository.constructor` | src/services/base.py:36-37 | a repository is bound to one entity schema and starts from an empty table |
| `Base.Repository.Get` | src/services/base.py:39-43 | returns the stored row with the id, or `None` iff there is none; the table is not modified |
| `Base.Repository.Filter` | src/services/base.py:45-52 | the loop adds one WHERE condition per keyword and stops at the first keyword that is not an attribute; the result equals `FilterRows` on the current table, which is not modified |
| `Base.Repository.Create` | src/services/base.py:54-62 | the new table and result are those of `CreateStep`: on success exactly the new row is appended and returned, on failure the table is unchanged; integrity is kept |
| `Base.Repository.Update` | src/services/base.py:64-76 | the new table and result are those of `UpdateStep`; on failure the table is unchanged; integrity is kept |
| `Base.Repository.Delete` | src/services/base.py:78-84 | the new table and result are those of `DeleteStep`; on failure the table is unchanged; integrity is kept |
| `BaseProperties.ValidIdsUnique` | src/services/base.py:40-43 | a table with integrity never holds two rows with one id, so the id lookup is unambiguous |
| `BaseProperties.LookupUnique` | src/services/base.py:40-43 | with unique ids, `get(id)` returns `x` iff `x` is stored and has that id |
| `BaseProperties.MatchingRowsNoOptions` | src/services/base.py:47-48 | with no keyword every row qualifies |
| `BaseProperties.MatchingRowsAll` | src/services/base.py:47-48 | when every row satisfies the keywords, all of them are kept, in order |
| `BaseProperties.FilterWithoutKeywords` | src/services/base.py:45-52 | `filter` with no keyword returns the offset/limit window of the whole table |
| `BaseProperties.MatchingRowsAppend` | src/services/base.py:47-48 | matching distributes over appending a row, keeping table order |
| `BaseProperties.FilterIsWindowOfMatches` | src/services/base.py:45-52 | with known keywords, `filter` returns the matching rows starting after the first `offset` matches: element k is match offset+k, and the length is min(limit, matches - min(offset, matches)) |
| `BaseProperties.FilterUnpagedIsComplete` | src/services/base.py:45-52 | with offset 0 and a limit no smaller than the table, a row is returned iff it is stored and satisfies all keywords |
| `BaseProperties.CreateThenGet` | src/services/base.py:54-62 | a successful `create` appends exactly one row and returns it; that row has the new id, holds each given value, the column default where no value is given and NULL elsewhere; `get` of its id then returns it, and `get` of every other id answers as before |
| `BaseProperties.CreateRejectsTakenId` | src/services/base.py:56-60 | `create` with an id already stored yields the integrity error (`None`) and the table as before |
| `BaseProperties.CreateRejectsTakenUniqueValue` | src/services/base.py:56-60 | `create` repeating a stored non-NULL value of a unique column yields the integrity error and the table as before |
| `BaseProperties.CreateThenDelete` | src/services/base.py:54-62 | deleting the id just created returns the created row and restores the table exactly |
| `BaseProperties.UpdateThenGet` | src/services/base.py:64-76 | `update` of a stored row succeeds and returns it with the given attributes replaced, the attributes with an `onupdate` value set to it and the others kept; `get` then sees that row, and every other id answers as before |
| `BaseProperties.UpdateMissingRollsBack` | src/services/base.py:69-74 | `update` of an id no row has returns `None` (no result) and leaves the table unchanged |
| `BaseProperties.UpdateRejectsClash` | src/services/base.py:66-71 | `update` that would give the row a unique value (or id) another row holds yields the integrity error and the table as before |
| `BaseProperties.UpdateNeverCreates` | src/services/base.py:64-76 | after `update`, exactly the ids stored before are stored: it never creates a row |
| `BaseProperties.DeleteRemovesRow` | src/services/base.py:78-84 | `delete` of a stored row returns it as it was, removes exactly that row (one fewer, all others kept), and `get` of its id is then `None` while other ids answer as before |
| `BaseProperties.DeleteMissingFails` | src/services/base.py:78-84 | `delete` of an id no row has reports no result and leaves the table unchanged |
| `BaseProperties.DeleteTwice` | src/services/base.py:78-84 | a second `delete` of the same id reports no result and changes nothing |
| `Url.ClickData` | src/services/url.py:21 | the Click built for a redirect sets exactly `url_id` and `client` |
| `Url.ClicksOfMatches` | src/services/url.py:28-30 | a row matches `url_id=url.id` iff its `url_id` is that Url's id |
| `Url.RedirectStep` | src/services/url.py:16-22 | a failed redirect leaves the Click table unchanged; any redirect leaves it unchanged or adds exactly the one Click for this Url and client (with the Click column defaults) |
| `Url.StatusOf` | src/services/url.py:24-31 | for options that name none of the parameters `get_status` and `filter` bind themselves, a successful status carries the Url stored under the id, and holds rows iff `full_info`; a missing Url fails |
| `Url.ClicksOfNoneNamed` | src/services/url.py:24-28 | when the caller's options name none of `self`, `session`, `url_id`, `full_info`, `offset`, `limit`, the full-info `filter` keywords `url_id=url.id, **options` name no parameter of `filter` |
| `Url.UrlRepository.constructor` | src/services/url.py:14 | the service is built on two distinct repositories, Url and Click |
| `Url.UrlRepository.GetRedirectUrl` | src/services/url.py:16-22 | reads the Url, refuses an inactive one, records the Click through the Click repository's create; result and Click table are those of `RedirectStep`; the Url table is unchanged |
| `Url.UrlRepository.GetStatus` | src/services/url.py:24-31 | returns `StatusOf` of the current tables; neither table is modified |
| `UrlProperties.RedirectReturnsStoredAddress` | src/services/url.py:18-22 | for all inputs, a successful redirect resolved an active stored Url and returns its `full_url` exactly as stored; the Click table is unchanged or gains exactly that one Click |
| `UrlProperties.RedirectToActiveUrl` | src/services/url.py:18-22 | for an active Url whose Click fits the table, the result is its `full_url`; exactly one Click is appended, and its `url_id` is the Url's id and its `client` the given client; the Url's click count grows by one |
| `UrlProperties.RedirectToBannedUrl` | src/services/url.py:19-20 | an inactive Url fails with `UrlIsBanned` and no Click is recorded |
| `UrlProperties.RedirectToMissingUrl` | src/services/url.py:18-19 | a Url id with no row fails before any Click is written |
| `UrlProperties.RedirectWithClashingClick` | src/services/url.py:21-22 | a Click whose id is taken is not recorded, yet the redirect still returns the address (create's `None` is ignored) |
| `UrlProperties.StatusCountIsCapped` | src/services/url.py:29-30 | in count mode the status is the Url with min(number of its Clicks, 100) |
| `UrlProperties.StatusCountIgnoresOptions` | src/services/url.py:29-30 | in count mode the caller's options, offset and limit make no difference |
| `UrlProperties.StatusFullInfoRows` | src/services/url.py:27-28 | with `full_info`, each returned Click is stored, belongs to the Url and satisfies the caller's equalities; at most `limit` are returned |
| `UrlProperties.StatusFullInfoComplete` | src/services/url.py:27-28 | with `full_info` and known option keywords, the status succeeds with the Url; its rows are the Clicks matching `url_id` and every option, from the `offset`-th match on, at most `limit`, in table order; a Click matches iff it is stored, belongs to the Url and satisfies every option; unpaged, exactly those Clicks are listed |
| `UrlProperties.StatusOfOwnClicks` | src/services/url.py:24-31 | when all stored Clicks belong to the Url and there are at most 100, the count is their number and the full status lists them all |
| `UrlProperties.ThreeRedirects` | src/services/url.py:16-31 | three redirects to an active Url, from an empty Click table with no unique column, each return its address; the status then counts 3 and the full status lists the three Clicks |

## Left out

- SQLAlchemy statement construction, asyncpg and real session isolation: each call is one all-or-nothing update of an in-memory table.
- `async`/`await` and concurrency, including the race between the Url read and the Click write in `get_redirect_url`: the model is sequential.
- Pydantic validation and `data.dict()`: inputs are taken as attribute maps.
- UUID generation: identifiers are integers. The id of a new row is an argument (the `clickId` of a redirect), standing for the value the database generates.
- The id is kept apart from the attribute map. An input map that itself names `id` is treated as an unknown column.
- `AnyUrl`/`HttpUrl` validation: the client and the address are opaque values.
- The `Repository` stub class (src/services/base.py:12-27): every method only raises `NotImplementedError`.
- `UrlClick` (src/services/url_click.py) is not part of this model. It is modelled as a second generic repository over a Click table. The call at src/services/url.py:21 passes `schema=` while the generic `create` takes `data=`; the model uses the generic create. A consequence of that choice, and of the model only: a Click insert that violates a uniqueness constraint does not fail the redirect, because the generic `create` answers the integrity error with `None` and the address is still returned with no Click recorded (`UrlProperties.RedirectWithClashingClick`). The design of the service instead has that failure propagate and fail the redirect. The rollback inside the generic `create` would also expire the loaded Url; the model reads `full_url` as stored.
- The module-level singleton `Url = UrlRepository(UrlModel)` (src/services/url.py:34).
- Foreign-key and NOT NULL constraints: the only integrity errors modelled are primary-key and unique-column clashes.
- Negative `offset` or `limit`, which the database rejects: both are natural numbers here.
- Row order: SQL without `ORDER BY` promises none. The model returns rows in insertion order.
- Keywords that Python binds to named parameters never reach `**options` or `**kwargs`: `self`, `session`, `url_id` and `full_info` of `get_status`, and `self`, `session`, `offset` and `limit` of `filter`. `StatusOf`, `GetStatus`, `FilterRows` and `Filter` require that their options name none of them; caller options `offset` and `limit` are the separate `offset`/`limit` arguments.
- Column defaults and `onupdate` values are fixed values per column. Defaults computed at each call (a clock, a generated value) are not modelled.
- An `update` with no values is modelled as returning the row with only the `onupdate` values applied. What the database layer does with an empty SET clause is not modelled.
- The commits after `get` and `filter` have no effect on the table and are not modelled.

# control_stock: stock ledger, load recorder and machine registry

This project models the backend of **control_stock** in Dafny. The backend
is a small REST service that keeps stock of articles (`articulos`), vending
machines (`maquinas`), loads of articles into machines (`cargas_maquinas`)
and cup counts taken at machines (`conteos_vasos`) in one SQLite database.
The model covers the four route files that read and write those tables.

- **Store.** The database is one object, `Db.Store`. It holds four tables as
  `map<int, Row>` plus one id counter per table. `Valid()` says every id in
  use is positive and below its counter, so a new row takes the counter's
  value and ids are never reused. The `articulos` table is declared
  AUTOINCREMENT (index.js:19), which gives exactly that; for the other
  three tables the same rule is assumed (see "Left out").
- **Writing routes.** Each route that writes is a method on the store. It
  returns a `Status` (200, 201, 400, 404, or 400 for insufficient stock or
  a machine with loads). It states the new contents of every table it may
  change, and that nothing changes on an error.
- **Reading routes.** Each route that only reads is a function over the
  tables:
  - `Table.Select` is a table scan with a WHERE predicate, proved sound,
    complete and in id order, so each row comes once.
  - `Order.SortBy` is an insertion sort, proved sorted and a permutation of
    its input.
  - Inner joins drop rows whose machine or article is gone.
  - Every listing is proved to list each row at most once (`DistinctIds`).
- **Request fields and times.**
  - JavaScript truthiness of request fields is spelled out in `Common`: a
    missing or empty string is falsy, and so is a missing number or 0.
  - Timestamps are natural numbers of milliseconds. `Common.Day` is
    SQLite's `DATE()` on them, and date filters are day numbers.

The code keeps an article's stock by two rules:

- **Consume** (`POST /articulos/:id/utilizar`) shrinks `cantidad` and sets
  `disponibles` to the new `cantidad`.
- **Loads** keep `cantidad` and set `disponibles = cantidad - utilizados`.
  This is what creating a load (debit) and deleting one (credit back,
  with `utilizados` floored at 0) do.

Both rules are modelled as written, and no table-wide invariant on
`disponibles` is claimed. The code also lets an edit leave `disponibles`
negative. The round trip "create a load, then delete it" restores
`cantidad`, and restores `utilizados` when it was not negative (an edit can
make it negative). When `utilizados` was not negative, it restores
`disponibles`, and with it the whole row but for its update time, exactly
when the article obeyed the load rule beforehand (`Cargas.CreditUndoesDebit`,
`Cargas.CreateThenDelete`). A stricter reading would say `disponibles ==
cantidad - utilizados` always holds and the round trip always restores the
row. The code does not do that, and this model follows the code.

Load sessions (`GET /cargas/agrupadas`) group loads by machine, calendar
day, user and note. In `Sessions`, the groups are built by a left fold
(`GroupAll`). Each group is proved equal to an independent per-key
summary (`Summarize`) of the member loads: count, sum, least id and
earliest timestamp. Groups are listed newest first.

## Model

| member | source | states |
|---|---|---|
| Common.HttpCode | routes/articulos.js:46-54 | insufficient stock, a machine with loads and bad input answer 400, a missing row 404; only success answers 2xx |
| Common.NormalizeEmpresa | routes/articulos.js:20 | the stored empresa is the request value when it is one of the two tags, else the fallback; a valid fallback gives a valid tag |
| Common.Day | routes/cargas.js:75 | `DATE()` of a timestamp: the day whose span contains it |
| Table.Select | routes/maquinas.js:37-48 | a scan with a WHERE clause: exactly the matching rows, each with its key, in increasing key order |
| Order.SortBy | routes/maquinas.js:50 | `ORDER BY` reorders the rows without adding or losing any (same multiset) |
| Order.SortBySorted | routes/maquinas.js:50 | under a total preorder the reordered rows are sorted |
| Order.LexLeIsTotalPreorder | routes/maquinas.js:50 | SQLite's binary string collation is total and transitive |
| Order.LexLeAntisym | routes/maquinas.js:50 | two strings that each sort no later than the other are equal |
| Order.DistinctSorted | routes/maquinas.js:61-69 | `SELECT DISTINCT ... ORDER BY`: every value once, in strictly increasing order, and no other value |
| Order.Limit | routes/conteos.js:63 | `LIMIT n` keeps the first min(n, length) rows; a negative n keeps them all |
| Articulos.NewArticle | routes/articulos.js:16-21 | a new article has `utilizados = 0` and `disponibles = cantidad`; `empresa` is the given value only when it is "Telecom" or "Pago Online", else "Telecom" |
| Articulos.Create | routes/articulos.js:9-25 | succeeds iff `nombre` is non-empty and `cantidad` is a positive number; on success exactly one row is added under a fresh id; on failure nothing changes |
| Articulos.List | routes/articulos.js:28-40 | every article, each once (in id order, the scan order the model fixes), or exactly those of the given empresa when the query names one of the two tags |
| Articulos.Consumed | routes/articulos.js:55-59 | consuming n lowers `cantidad` by n, raises `utilizados` by n, keeps their sum, sets `disponibles` to the new `cantidad`, and leaves `cantidad` non-negative when n ≤ `cantidad` |
| Articulos.ConsumeBreaksLoadFormula | routes/articulos.js:55-59 | after consuming, `disponibles = cantidad - utilizados` holds iff nothing was ever used |
| Articulos.Consume | routes/articulos.js:43-64 | bad amount gives 400, unknown id 404, amount above `cantidad` insufficient stock, each with the store unchanged; success iff all three checks pass, writing only that row |
| Articulos.Edited | routes/articulos.js:79-93 | each of `cantidad`, `utilizados` is taken from the request when given, else kept; `disponibles` is their difference; a falsy `nombre` keeps the old one; `empresa` changes only to a valid tag |
| Articulos.EditCanLeaveNegativeStock | routes/articulos.js:81-83 | an edit giving `utilizados` above `cantidad` leaves `disponibles` negative |
| Articulos.Edit | routes/articulos.js:67-99 | 404 iff the id is absent, with nothing changed; otherwise only that row is replaced by its edited form |
| Articulos.Delete | routes/articulos.js:102-108 | always succeeds and removes exactly the given id, present or not |
| Maquinas.NewMachine | routes/maquinas.js:13-17 | `ubicacion` defaults to "", `empresa` is a valid tag defaulting to "Telecom", `estado` starts "activa" |
| Maquinas.Create | routes/maquinas.js:7-32 | succeeds iff `nombre` and `edificio` are non-empty; on success one row is added under a fresh id; on failure nothing changes |
| Maquinas.BuildingThenNameIsTotalPreorder | routes/maquinas.js:50 | ordering by (edificio, nombre) under SQLite's binary collation is a total preorder |
| Maquinas.List | routes/maquinas.js:35-56 | exactly the machines of the empresa (when a valid tag is given) and building (when given), each once, sorted by building then name |
| Maquinas.BuildingNames | routes/maquinas.js:61-69 | the buildings scanned are exactly those of the machines passing the empresa filter |
| Maquinas.Edificios | routes/maquinas.js:59-75 | each building of a matching machine appears, nothing else does, once each, in strictly increasing order |
| Maquinas.EditedMachine | routes/maquinas.js:87-96 | `nombre`, `edificio`, `estado` fall back to the row on falsy input; `ubicacion` is replaced whenever given, even empty; `empresa` changes only to a valid tag |
| Maquinas.Edit | routes/maquinas.js:78-106 | 404 iff the id is absent, with nothing changed; otherwise only that row is replaced by its edited form |
| Maquinas.LoadsOfMachine | routes/maquinas.js:113 | the loads of the machine, each once: as many rows as load keys naming it |
| Maquinas.LoadCount | routes/maquinas.js:113 | the count equals the number of loads naming the machine |
| Maquinas.LoadCountPositive | routes/maquinas.js:113-118 | the count is positive iff some load names the machine |
| Maquinas.Delete | routes/maquinas.js:109-125 | refused iff some load names the machine, with nothing changed; otherwise exactly that machine is removed; loads are never touched |
| Cargas.NewCarga | routes/cargas.js:30-34 | the load has the given machine, article and positive quantity, `fecha_carga = now`, `usuario` and `observaciones` defaulting to "" |
| Cargas.Debited | routes/cargas.js:39-43 | `cantidad` kept, `utilizados` raised by q, `disponibles = cantidad - utilizados`; from a consistent row, `disponibles` drops by q and stays non-negative when q fit |
| Cargas.Credited | routes/cargas.js:251-253 | `cantidad` kept, `utilizados` lowered by q but never below 0, `disponibles = cantidad - utilizados` |
| Cargas.CreditUndoesDebit | routes/cargas.js:251-253 | crediting q after debiting q restores `cantidad`; when `utilizados` was ≥ 0 it restores `utilizados`, and restores `disponibles` iff the row obeyed the load rule |
| Cargas.CreateLoad | routes/cargas.js:7-63 | bad input 400, unknown machine or article 404, `disponibles` below the quantity insufficient stock, each with the store unchanged; success iff all pass, adding exactly one load and debiting only its article |
| Cargas.DeleteLoad | routes/cargas.js:238-270 | 404 iff the load or its article is missing, with nothing changed; otherwise its article is credited and exactly that load removed |
| Cargas.CreateThenDelete | routes/cargas.js:238-265 | deleting a load just created succeeds, restores the load table and every other article, restores the article's `cantidad`; when its `utilizados` was not negative, restores `utilizados`, restores `disponibles` iff it obeyed the load rule, and then the whole row but its update time |
| Cargas.MatchingLoads | routes/cargas.js:163-197 | exactly the loads with both machine and article present that pass every given filter, in id order |
| Cargas.JoinedLoads | routes/cargas.js:154-167 | each row is a visible load joined with its machine and article, in increasing id order so each once; every qualifying load appears |
| Cargas.ListLoads | routes/cargas.js:151-202 | exactly the qualifying loads with their machine and article, each once, newest first |
| Cargas.ListLoadsHidesDangling | routes/cargas.js:163-165 | a load whose machine or article is gone is never listed, whatever the filter |
| Cargas.SessionDetails | routes/cargas.js:121-141 | each row is a load of the machine on the day (and of the user, when given) joined with its article, in increasing id order so each once; every such load appears |
| Cargas.Details | routes/cargas.js:121-148 | the same rows, each once, oldest first |
| Cargas.SumCons | routes/cargas.js:215 | the total of the loads added from the front equals the total added from the back |
| Cargas.TotalCantidad | routes/cargas.js:215 | `SUM` is NULL iff there are no rows and otherwise equals the independent total `Sum`; at least the row count when every quantity is positive |
| Cargas.LatestFecha | routes/cargas.js:216 | NULL iff there are no rows, otherwise the latest load time, which some row has |
| Cargas.LatestOfMachine | routes/cargas.js:216-218 | the latest time over a machine's loads bounds every load naming it and is reached by one of them |
| Cargas.TotalsCorrect | routes/cargas.js:209-218 | about `Cargas.Totals`, one machine's row of the LEFT JOIN grouped by machine: the load count of a machine equals the loads naming it; sum and latest are NULL iff it has none; the sum is the total quantity of its loads and latest is the maximum |
| Cargas.Summary | routes/cargas.js:205-235 | one totals row per listed machine (empresa filter applied), machines without loads included, ordered by building then name |
| Cargas.SummaryExact | routes/cargas.js:217-229 | every machine passing the empresa filter has a row |
| Cargas.SummaryDistinct | routes/cargas.js:229 | no machine has two rows |
| Sessions.Members | routes/cargas.js:112 | the loads collected under a session key all have that key |
| Sessions.MembersFromRows | routes/cargas.js:112 | every member of a session is one of the loads scanned |
| Sessions.RowsInMembers | routes/cargas.js:112 | every load scanned is a member of its own session |
| Sessions.MinId | routes/cargas.js:71 | the least id of a session, reached by a member |
| Sessions.MinFecha | routes/cargas.js:76 | the earliest load time of a session, reached by a member |
| Sessions.Summarize | routes/cargas.js:71-82 | a session's summary has its key and counts exactly its members |
| Sessions.Find | routes/cargas.js:112 | finds the group of a key, or reports that no group has it |
| Sessions.MembersSnoc | routes/cargas.js:112 | scanning one more load adds it to its own session only |
| Sessions.SummarizeOther | routes/cargas.js:112 | one more load leaves every other session's summary unchanged |
| Sessions.SummarizeJoin | routes/cargas.js:71-82 | one more load of an existing session updates its summary by adding it |
| Sessions.SummarizeOpen | routes/cargas.js:71-82 | the first load of a key makes a session of that load alone |
| Sessions.AddOpens | routes/cargas.js:112 | opening a new group keeps the groups exact |
| Sessions.JoinKeepsKeys | routes/cargas.js:112 | adding a load to a group keeps the group keys distinct |
| Sessions.JoinKeepsSummaries | routes/cargas.js:112 | adding a load to its group keeps every group equal to its session's summary |
| Sessions.JoinKeepsCover | routes/cargas.js:112 | adding a load to its group keeps every session with members present |
| Sessions.AddJoins | routes/cargas.js:112 | joining an existing group keeps the groups exact |
| Sessions.AddKeepsGroups | routes/cargas.js:112 | adding any load keeps the groups exact |
| Sessions.GroupAll | routes/cargas.js:112 | one group per session key with members, each equal to the independent summary of its loads |
| Sessions.SessionLoads | routes/cargas.js:84-110 | the scanned loads all have machine and article present |
| Sessions.SessionMachines | routes/cargas.js:85 | every session's machine exists |
| Sessions.ListSessions | routes/cargas.js:66-118 | each qualifying session once, summarized exactly, with its machine, newest first |
| Sessions.WithMachines | routes/cargas.js:77-80 | each session is paired with its own machine row |
| Sessions.SortedGrouped | routes/cargas.js:112 | sorting the exact groups and attaching machines gives the listed sessions |
| Sessions.SortedSessions | routes/cargas.js:112 | reordering the groups keeps them exact, distinct and covering |
| Conteos.NewConteo | routes/conteos.js:27 | the count row has the given machine and cups; `observaciones` is NULL iff falsy; `empresa` defaults to "Telecom" only when falsy, with no tag check |
| Conteos.Create | routes/conteos.js:7-42 | created (201) iff `maquina_id` is given and `cantidad_vasos` is positive, adding one row under a fresh id; the machine is not checked; on failure nothing changes |
| Conteos.Update | routes/conteos.js:120-159 | 400 iff `cantidad_vasos` is not positive, then 404 iff the id is absent, each with nothing changed; otherwise only that row's cups and note change |
| Conteos.Delete | routes/conteos.js:162-179 | 404 iff the id is absent, with nothing changed; otherwise exactly that row is removed |
| Conteos.JoinedCounts | routes/conteos.js:59-62 | each row is a count whose machine exists, joined with it and passing the WHERE clause, in increasing id order so each once; every such count appears |
| Conteos.NewestCounts | routes/conteos.js:59-63 | the same rows, each once, newest first |
| Conteos.EmpresaOrDefault | routes/conteos.js:46 | the query's empresa is used as given, even empty, and "Telecom" only when absent |
| Conteos.CountsOf | routes/conteos.js:47-64 | every count of the empresa whose machine exists, joined with it, each once, newest first |
| Conteos.Latest | routes/conteos.js:45-74 | at most `limit` rows (10 by default; a negative limit sets no bound), each once, all of the empresa, with existing machines, newest first |
| Conteos.LatestIsNewest | routes/conteos.js:61-64 | a qualifying count left out is no newer than any listed one; when fewer rows than the limit return, every qualifying count is listed |
| Conteos.ByMachine | routes/conteos.js:77-117 | exactly the counts of the machine, if it exists, of the empresa and within the day range, each once, newest first |

## Left out

- Store failures (the 500 paths) are not modelled. Every store call succeeds.
- The non-atomic two-write sequences in creating and deleting a load are modelled as one step each. So are concurrent requests and the lost-update hazard they allow.
- JavaScript type coercion is not modelled. Quantities arrive as already parsed integers, so string concatenation by `+` and non-integer `Number()` results are absent.
- A `limit` that `parseInt` cannot read is not modelled; it is an integer or absent.
- Dates are day numbers and timestamps are natural numbers. Invalid date strings, time zones and SQLite's `'localtime'` are not modelled.
- The order of ISO-8601 timestamp strings is modelled as the order of the numbers they denote.
- The `GROUP_CONCAT` detail string of a session is not modelled, since SQLite does not define its element order. Neither is the `simbolo` column it reads.
- Rows with equal sort keys keep scan order in the model. SQL leaves that order open, so no property depends on it.
- Articulos.List: the query has no ORDER BY, so SQL leaves the row order open; the model fixes it to increasing id, the order of a SQLite rowid scan, and its increasing-ids clause is a property of the model rather than a promise of the route.
- Maquinas.Create, Cargas.CreateLoad, Conteos.Create: a new row's id is the table's counter, which is never reused. Only `articulos` is shown declared AUTOINCREMENT (index.js:19); the schemas of `maquinas`, `cargas_maquinas` and `conteos_vasos` are not part of this model, and without AUTOINCREMENT SQLite may reuse the id of a deleted newest row.
- Cargas.CreateLoad: returns the key of the inserted load instead of the id the route reads from the UPDATE's callback.
- The `fecha_conteo` column default and the `maquinas.estado` default are not in the schema shown. A count's time is the clock value passed to `Conteos.Create`, and a new machine's `estado` is "activa", the value the create route reports.
- `imagen` is an opaque optional string. The upload handling (multer, Cloudinary) is not part of this model.
- Server bootstrap, schema creation and migration (index.js) are not part of this model. Neither are the diagnostic script (check_table.js) or the statistics routes (routes/estadisticas_new.js), whose averages and trends use floating point and the wall clock.
- The clock is a parameter, `now`, of every operation that stamps a row.

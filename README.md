# dodualm almanax service — a Dafny model of its core

The service keeps the game's daily almanax facts (a date, a kamas reward, a
localized bonus and an item tribute) in four SQLite tables and keeps one
Meilisearch index of bonus names per language. This project models and
proves four parts of it:

- **The bonus index reconciler** (`UpdateAlmanaxBonusIndex`). It visits the
  languages en, fr, de, es in order and skips pt. It fetches a language's bonus
  listing and numbers the entries with surrogate ids "0", "1", …. In full mode
  it empties the language's index and adds every document. In incremental mode
  it upserts one document at a time, and only when a limit-1 search by the
  document's name does not return a top hit with exactly that name. The first
  failure ends the run and returns the count so far. The search service is a
  `Meili.Client` object: its contents are a map from index name to documents
  keyed by `id`, and its answers come from an `Oracle` value. The method
  `Reconciler.UpdateAlmanaxBonusIndex` is proved equal to the recursive
  specification `Reconciler.Reconcile`. The lemmas in `ReconcilerLemmas` are
  stated over that specification.
- **The search endpoint** (`getLimitInBoundary`, `SearchBonuses`). The checks
  run in a fixed order: query, language, limit, search error, zero hits. After
  them, each hit is projected to a listing.
- **The almanax store** (`repository.go`). The `Sql` module models the
  four-way inner join, the WHERE clause, `ORDER BY a.date ASC` and the scan of
  each row. The class `Repository.Repository` holds the four tables as
  sequences. Its two query methods are proved against `Sql.Select` and
  `Sql.Outcome`. `Create`, `UpdateAlmanax` and `CreateBonusType` change the
  tables in place.
- **The utilities and the language check** (`utils.go`, `routes.go`). These
  are `TruncateText`, `sliceContains`, the generic `Set` and `Map`, and the
  lower-casing language switch.

Outside effects become parameters:

- **The listing fetch:** a function from URL to fetch result.
- **Meilisearch's answers:** the `Oracle`.
- **Database errors:** a `QueryFault`, or an `Option` error for a write.
- **`datetime('now')`:** an opaque `now` timestamp.

Where the documented contract of the service and the code differ, the model
follows the code:

- `UpdateAlmanax` reports no error when no row has the id, and it also updates
  soft-deleted rows.
- `Create` and `CreateBonusType` fail only when the database reports an
  error. No foreign-key or unique-slug rule is visible in the code, so the
  model makes no claim about which inputs fail.
- Soft deletion hides only almanax rows. Both queries test only `a.deleted_at IS NULL` (repository.go:74, repository.go:130). A soft-deleted bonus, bonus type or tribute is still joined and returned, and `Sql.JoinRow` does the same.
- Four languages are reconciled, not five, because `Languages` lists pt and the
  loop skips it.
- Incremental mode can overwrite an existing document. Documents are keyed by
  their position in the listing ("0", "1", …; server.go:117-126), and the upsert
  at server.go:220 replaces whatever other bonus sits under that id.
  `ReconcilerLemmas.IncrementalReplacesById` exhibits a document "Old name"
  replaced this way.
- Incremental mode asks only whether the top hit of a limit-1 search has the
  document's exact name (server.go:200-216). It does not check every hit for an
  identical name.

## Model

| member | source | states |
|---|---|---|
| `Utils.TruncateText` | utils.go:8-13 | When `max > len(s)`, `s` is returned unchanged; `max == len(s)` still truncates. Otherwise the result is `s[:k] + " ..."`, where `k` is the last space among the first `max` bytes. That part is a prefix of `s` shorter than `max`. Go panics when `max < 0` or there is no such space, so both are preconditions. |
| `Utils.SliceContains` | utils.go:22-30 | The result is true iff some element equals `x`. |
| `Utils.Map` | utils.go:76-85 | The result has the same length as the input, and `res[i] == f(data[i])`. |
| `Utils.Set.constructor` | utils.go:60-64 | `NewSet` is empty and its size is 0. |
| `Utils.Set.Add` | utils.go:44-46 | Afterwards `v` is a member and every other member is unchanged. The size grows by one exactly when `v` was absent. |
| `Utils.Set.Remove` | utils.go:48-50 | Afterwards `v` is not a member and every other member is unchanged. The size shrinks by one exactly when `v` was present. |
| `Utils.Set.Clear` | utils.go:52-54 | Afterwards nothing is a member and the size is 0. |
| `Utils.Set.Has` | utils.go:39-42 | A member makes the set non-empty. |
| `Utils.Set.Size` | utils.go:56-58 | The size counts distinct members and is 0 exactly when nothing is a member. |
| `Utils.Set.Slice` | utils.go:66-72 | Every member appears exactly once and nothing else appears. The length is the size. |
| `Strings.Contains` | server.go:131 | The result is true iff `sub` occurs at some offset of `s`. This is the test for "not found" (line 131) and "already exists" (line 149). |
| `Strings.LastIndex` | utils.go:12 | The result is -1 iff the character is absent. Otherwise it holds the character and no later position does. |
| `Strings.ToLower` | routes.go:25 | Length is preserved, and each byte is lower-cased by ASCII rules. |
| `Strings.ToLowerIdempotent` | routes.go:25 | Lower-casing twice gives the same result as lower-casing once. |
| `Routes.LanguageChecker` | routes.go:23-34 | The request is forwarded iff the lower-cased value is one of `Languages` (en, fr, de, es, pt). It is forwarded with the lower-cased value; any other value gets status 400 and is not forwarded. |
| `Routes.CheckerIgnoresCase` | routes.go:25-31 | Inputs with the same lower-cased form, such as "EN" and "en", get the same decision. |
| `Routes.CheckerIdempotent` | routes.go:25-29 | Checking the forwarded value again forwards it unchanged. |
| `Routes.CheckerExamples` | routes.go:25-31 | "EN" is forwarded as "en", "Pt" as "pt", and "it" is rejected with 400. |
| `Strconv.Itoa` | server.go:121 | The result is a non-empty string of decimal digits. It is one digit long iff the number is below 10. |
| `Strconv.Atoi` | server.go:266 | A parsed value lies in the 64-bit range, and the empty string does not parse. |
| `Strconv.AtoiRejectsNonDigit` | server.go:266 | A string with a character that is neither a decimal digit nor a leading sign does not parse. |
| `Strconv.AtoiRejectsLoneSign` | server.go:266 | A bare "+" or "-" does not parse. |
| `Strconv.ItoaInjective` | server.go:118-126 | Two numbers with the same decimal spelling are equal, so surrogate ids never collide. |
| `Strconv.AtoiItoa` | server.go:266 | Parsing the decimal spelling of any non-negative 64-bit value gives that value back. |
| `Strconv.AtoiNegatedItoa` | server.go:266 | A minus sign followed by the digits of `n` parses as `-n`, down to the smallest 64-bit value. |
| `Strconv.AtoiRejectsOverflow` | server.go:266 | A decimal value above the 64-bit range does not parse. |
| `Server.GetLimitInBoundary` | server.go:260-274 | A success lies at or below 100 and has no lower bound. A failure is "invalid limit value" or "limit value is too high". |
| `Server.LimitDefaultsToEight` | server.go:261-263 | An empty limit gives 8. |
| `Server.LimitInBoundsIsKept` | server.go:266-273 | Every value from the smallest 64-bit value up to 100 is returned unchanged, including 0, 100 and negative values. |
| `Server.LimitAboveMaxIsTooHigh` | server.go:269-271 | A parsable value above 100 fails with "limit value is too high". |
| `Server.LimitOverflowIsInvalid` | server.go:266-268 | A number beyond 64 bits fails the parse first, so it gives "invalid limit value". |
| `Server.LimitNotNumericIsInvalid` | server.go:266-268 | A limit with a character that is neither a digit nor a leading sign gives "invalid limit value". |
| `Server.LimitLoneSignIsInvalid` | server.go:266-268 | A limit of a bare "+" or "-" gives "invalid limit value". |
| `Server.LimitExamples` | server.go:260-274 | "150" is too high, "100" gives 100, and "abc" is invalid. |
| `Server.IndexName` | server.go:128 | The name is "alm-bonuses-" followed by the language, which can be read back from it. The search handler uses the same name (line 311). |
| `Server.IndexNameDiffers` | server.go:128 | Different languages use different index names. |
| `Server.SearchBonuses` | server.go:287-347 | The checks run in order and the first failing one decides the response. An empty query gives 400, pt gives 400, and a bad limit gives 400 with the limit error. A search error gives 500 and zero estimated hits give 404 "No results found.". Otherwise the response holds one listing per hit, in hit order, with `Id = slug` and `Name = name`. |
| `Meili.UpsertAll` | server.go:181-184 | Add-or-replace keeps every existing key, and the last document of the batch ends up under its id. |
| `Meili.UpsertAllKeys` | server.go:181-184 | `AddDocuments` adds exactly the documents' ids to the index's keys. |
| `Meili.UpsertAllKeepsOthers` | server.go:220-224 | A key that no added document carries keeps its document. |
| `Meili.UpsertAllPlaces` | server.go:181-184 | When the ids are distinct, every added document is stored under its own id. |
| `Meili.UpsertAllSize` | server.go:181-184 | Adding documents with distinct new ids grows the index by their number. |
| `Meili.AfterCreate` | server.go:133-152 | A creation task never changes an existing index. When it succeeds, the index exists afterwards, and a previously missing one is empty. |
| `Meili.AfterClear` | server.go:163-178 | A successful clearing task leaves the index existing and empty. Any other outcome changes nothing, and no other index changes. |
| `Meili.AfterAdd` | server.go:181-195 | A successful add task leaves the index with its old keys plus the documents' ids, so no document is deleted. Any other outcome changes nothing, and no other index changes. |
| `Meili.Client.constructor` | server.go:94 | The client starts with the given behaviour and contents. |
| `Meili.Client.GetIndex` | server.go:129 | The client returns the service's answer for that index. |
| `Meili.Client.CreateIndex` | server.go:133-147 | When the creation task succeeds, a missing index becomes an empty index; otherwise nothing changes. |
| `Meili.Client.DeleteAllDocuments` | server.go:163-173 | When the task succeeds, the index is emptied; otherwise nothing changes. |
| `Meili.Client.AddDocuments` | server.go:181-190 | When the task succeeds, the documents are upserted by id; otherwise nothing changes. |
| `Meili.Client.Search` | server.go:205 | The search is answered against the index's current documents. |
| `Reconciler.BonusesUrlDiffers` | server.go:103 | Different languages are fetched from different URLs. |
| `Reconciler.Project` | server.go:117-126 | One document per listing entry. Its ids are distinct (`ProjectDistinct`), the index built from it is exact (`ProjectIndexExact`), and the `counter` loop builds it (`ProjectListing`). |
| `Reconciler.ProjectDistinct` | server.go:117-126 | The projected documents of a listing have pairwise distinct ids. |
| `Reconciler.ProjectIndexExact` | server.go:117-126 | A listing's index holds one document per entry `i`, under id `Itoa(i)`, with slug `bonuses[i].Id` and name `bonuses[i].Name`, and nothing else. |
| `Reconciler.EnsureIndex` | server.go:129-158 | When the run may go on, the contents are unchanged or the missing index was created empty. An index that is found leaves the contents unchanged. |
| `Reconciler.FullRebuild` | server.go:162-197 | On completion the index holds exactly the upserted projection and the count is the number of documents. A failure counts 0. Other indexes are unchanged. |
| `Reconciler.Incremental` | server.go:198-239 | At most one document is counted per listing entry, and no index disappears. |
| `Reconciler.LanguageStep` | server.go:103-240 | One language deletes no index. It changes only its own index (`ReconcilerLemmas.LanguageStepTouchesOnly`), and a failed fetch changes nothing (`ReconcilerLemmas.FetchFailureStopsRun`). |
| `Reconciler.Reconcile` | server.go:93-244 | A run deletes no index. Its abort, contents and incremental behaviour are stated by `ReconcilerLemmas.AbortStopsRun`, `ReconcilerLemmas.FullRunContents` and `ReconcilerLemmas.IncrementalKeepsOthers`. |
| `Reconciler.ProjectListing` | server.go:117-126 | The `counter` loop builds exactly the projection, in listing order. |
| `Reconciler.UpsertMissing` | server.go:198-239 | The incremental loop's count, new contents and completion are those of the specification `Incremental`. |
| `Reconciler.ProcessLanguage` | server.go:103-240 | One language's fetch, index check, and rebuild or incremental pass match the specification `LanguageStep`. |
| `Reconciler.UpdateAlmanaxBonusIndex` | server.go:93-244 | The returned count and the new index contents are those of the specification `Reconcile` over `Languages` from the old contents. |
| `ReconcilerLemmas.AfterAddOne` | server.go:220-237 | A successful single-document upsert changes only that id of that index. |
| `ReconcilerLemmas.IncrementalTouchesOnly` | server.go:198-239 | Incremental mode changes no index other than the current language's. |
| `ReconcilerLemmas.LanguageStepTouchesOnly` | server.go:103-240 | Processing one language changes no index other than that language's. |
| `ReconcilerLemmas.ReconcileTouchesOnly` | server.go:99-102 | A run changes only the indexes of the languages it visits, and it never visits pt. |
| `ReconcilerLemmas.PtIndexUntouched` | server.go:99-102 | The pt index keeps its contents in both modes. |
| `ReconcilerLemmas.PtNeverFetched` | server.go:99-104 | The run's result does not depend on what the pt listing URL would answer, so that URL is never fetched. |
| `ReconcilerLemmas.ReconcileSplit` | server.go:99-243 | A run over `a + b` is the run over `a`, continued over `b` only if `a` completed. |
| `ReconcilerLemmas.AbortStopsRun` | server.go:104-235 | When language `k` aborts, the run returns the earlier languages' count plus what `k` added before failing. No later language changes anything. |
| `ReconcilerLemmas.FetchFailureStopsRun` | server.go:104-115 | A failed fetch or decode for language `k` returns exactly the earlier languages' count and contents. |
| `ReconcilerLemmas.FullModeLanguage` | server.go:162-197 | When a language completes in full mode, its index holds exactly the projected listing and the count grows by the listing's length. |
| `ReconcilerLemmas.FullRunContents` | server.go:162-197 | After a completed full run, every visited index holds exactly its projected listing. The count is the sum of the listing lengths. |
| `ReconcilerLemmas.LaterLanguagesKeep` | server.go:99-128 | Languages processed later leave an earlier language's index alone. |
| `ReconcilerLemmas.FullRunIdempotent` | server.go:162-197 | Two completed full runs in a row leave the same contents in every index and report the same count. |
| `ReconcilerLemmas.IncrementalKeepsOthers` | server.go:198-238 | Incremental mode deletes no key. Ids that no document carries keep their documents, and at most one is counted per document. |
| `ReconcilerLemmas.IncrementalSkipsIdentical` | server.go:210-218 | When every search's top hit has the document's exact name, nothing is upserted or counted. |
| `ReconcilerLemmas.IncrementalAllNew` | server.go:218-237 | When every search misses and every upsert succeeds, each document is upserted and counted once. |
| `ReconcilerLemmas.IncrementalReplacesById` | server.go:117-126 | Surrogate ids are positions, so an incremental upsert replaces the document of another bonus that sits under the same id. |
| `ReconcilerLemmas.IndexCreationPolicy` | server.go:129-158 | The run goes on iff the index exists, or the lookup said "not found" and creation succeeded or failed with "already exists". Only that index may be created. |
| `Collation.StrLeReflexive` | repository.go:130 | Text order is reflexive. |
| `Collation.StrLeTotal` | repository.go:131 | Any two dates are comparable. |
| `Collation.StrLeAntisymmetric` | repository.go:131 | Two dates that are each no greater than the other are equal. |
| `Collation.StrLeTransitive` | repository.go:130-131 | Text order is transitive. |
| `Sql.Find` | repository.go:127-129 | A row that is found carries the key, and a miss means no row carries it. |
| `Sql.FindUnique` | repository.go:127-129 | With a primary key, the row found is the one carrying the key. |
| `Sql.JoinRow` | repository.go:126-129 | A joined row holds the almanax row and a bonus, bonus type and tribute of the tables whose ids match its references. |
| `Sql.JoinAll` | repository.go:126-129 | The join has at most one row per almanax row, and each is that row's `JoinRow`. `Sql.JoinAllMembers` gives the converse. |
| `Sql.Join` | repository.go:126-129 | The four-way join has at most one row per almanax row. Its contents are stated by `Sql.JoinExact` and `Sql.JoinSound`. |
| `Sql.JoinExact` | repository.go:126-129 | With unique ids, the join holds exactly the combinations whose references agree. An almanax row with a dangling reference yields no row. |
| `Sql.JoinSound` | repository.go:126-129 | Every joined row has `Bonus.ID == Almanax.BonusID`, `BonusType.ID == Bonus.BonusTypeID` and `Tribute.ID == Almanax.TributeID`. |
| `Sql.Where` | repository.go:130 | A row is kept iff it is in the input, `from <= date <= to`, `deleted_at` is NULL and, when given, name_id matches. |
| `Sql.OrderByDate` | repository.go:131 | ORDER BY keeps the number of rows. `Sql.OrderByDateSortsAndPermutes` states the order and the permutation. |
| `Sql.OrderByDateSortsAndPermutes` | repository.go:131 | ORDER BY gives the same multiset of rows, in ascending date order. |
| `Sql.Select` | repository.go:118-131 | The selected rows ascend by date. `Sql.SelectExact` and `Sql.SelectSound` state which rows are selected. |
| `Sql.SelectExact` | repository.go:118-131 | With unique ids, the query ascends by date and holds exactly the consistent, non-deleted joined rows within the range. Each comes back once: no two selected rows share an almanax id. |
| `Sql.SelectSound` | repository.go:126-131 | Every selected row satisfies the join conditions and the WHERE clause, and the rows ascend by date. |
| `Sql.SelectEmptyWhenInverted` | repository.go:130 | With `from > to`, nothing is selected. |
| `Sql.ByNameIsRestriction` | repository.go:62-75 | The by-name query selects the plain query's rows with the given name_id, in the same order. |
| `Sql.ScanRow` | repository.go:145-162 | The almanax record, including whether `deleted_at` is present, is kept. The bonus, bonus type and tribute keep every selected column; their timestamps are not selected and stay at Go's zero value. |
| `Sql.ScanAll` | repository.go:141-165 | There is one record per row, in order, each keeping its row's almanax record. |
| `Sql.Outcome` | repository.go:133-171 | The query fails iff the query, the scan of an existing row or the iteration fails. A success holds one record per row, with its almanax record, in order. |
| `Sql.ScanRows` | repository.go:141-171 | The scan loop gives every row scanned in order, or an error and no partial result. |
| `Sql.SuccessfulQuery` | repository.go:118-171 | There is one record per selected row. Every returned record is non-deleted and in range, matches name_id when asked, and joins records whose ids agree. The records ascend by date. With unique ids, no two records share an almanax id. |
| `Sql.ScanAllWithNameId` | repository.go:62-116 | Filtering by name_id before or after the scan gives the same records. |
| `Sql.ByNameQueryIsRestriction` | repository.go:62-172 | Without errors, the by-name query returns the plain query's records restricted to that name_id, in order. |
| `Repository.LargestId` | repository.go:182 | The result is absent iff there are no rows. Otherwise it is some row's id and no id is larger. |
| `Repository.NextRowId` | repository.go:182 | The new id exceeds every id in use, and it is 1 in an empty table. |
| `Repository.UpdateRows` | repository.go:186-191 | On rows whose id matches, bonus_id, tribute_id, date, reward_kamas and updated_at are overwritten. Every other row is unchanged. id, created_at and deleted_at are kept on all rows. |
| `Repository.UpdateWithoutMatch` | repository.go:186-191 | An update whose id matches no row leaves the table unchanged. |
| `Repository.UpdateKeepsDeletedInvisible` | repository.go:186-191 | Updating a soft-deleted row does not make it visible to the queries. |
| `Repository.UpdateKeepsIds` | repository.go:186-191 | An update keeps almanax ids unique. |
| `Repository.CreateKeepsIds` | repository.go:175-182 | An insert takes a fresh id, so ids stay unique. |
| `Repository.CreateBonusTypeKeepsIds` | repository.go:195-202 | A bonus-type insert takes a fresh id, so ids stay unique. |
| `Repository.CreatedRowIsFound` | repository.go:175-182 | A created row whose references exist and whose date is in range is returned by the range query. |
| `Repository.Repository.constructor` | repository.go:22-26 | The store starts with the given tables, whose ids are primary keys, so the class invariant holds. |
| `Repository.Repository.GetAlmanaxByDateRange` | repository.go:118-172 | The result equals scanning the selected rows. A success contains only non-deleted, in-range, consistently joined records in ascending date order. In a valid store no almanax row is returned twice. With `from > to` the result is empty and not an error. |
| `Repository.Repository.GetAlmanaxByDateRangeAndNameID` | repository.go:62-116 | The same as the range query, with every record carrying the name_id, and in a valid store no almanax row returned twice. Without errors, it equals the plain range query restricted to that name_id. |
| `Repository.Repository.Create` | repository.go:174-183 | On success, one non-deleted row with the given four columns and `now` timestamps is appended under a fresh id, and that id is returned. On error nothing changes. Other tables are unchanged. |
| `Repository.Repository.UpdateAlmanax` | repository.go:185-192 | On success, the table becomes `UpdateRows` of the old table. The database's error, if any, is returned and nothing changes. Other tables are unchanged. |
| `Repository.Repository.CreateBonusType` | repository.go:194-203 | On success, one non-deleted bonus type with the given slug and six names is appended under a fresh id, and that id is returned. On error nothing changes. |

## Left out

- main.go and metrics.go: CLI flags, configuration, migrations, HTTP listeners and Prometheus counters are bootstrapping and I/O.
- `loadAlmanaxData`, the stub handlers `RetrieveAlmanax`, `UpdateAlmanax` (HTTP) and `ListBonuses`: the first is remote I/O, and the stubs have empty bodies.
- `Repository.Init`, `Deinit` and `repositoryMutex`: they touch only the file system and the connection handle. The model's `Repository` is an open store.
- `getEnv` and the webhook constants of types.go: an environment lookup and unused values.
- Router wiring, CORS, `dateExtractMiddleware`, timeouts, `SetJsonHeader`, `WriteCacheHeader` and JSON encoding of responses: framework plumbing. JSON encoding can also fail after the headers are written; that path is not modelled.
- `Server.SearchBonuses`: a hit whose `slug` or `name` is not a string makes the Go code panic. The model's hits always carry both strings, so it does not capture that panic. When `EstimatedTotalHits` is positive but `Hits` is empty, the Go slice stays nil and is encoded as JSON `null`. The model returns `Listings([])` and does not distinguish the two.
- `Reconciler.UpdateAlmanaxBonusIndex`: Meilisearch's ranking, `WaitForTask` polling and its 500 ms and 100 ms timeouts are not modelled; each task's outcome is an oracle value. A task that times out but completes later on the server is treated as having changed nothing. The Go code fails only on status "failed", so a task that ends "canceled" counts as success. The model then applies its change (`Meili.AfterClear`, `Meili.AfterAdd`) although the service did not. `ReconcilerLemmas.FullRunContents` and `ReconcilerLemmas.FullRunIdempotent` therefore describe the index the code assumes, not necessarily the index the service holds after a canceled task.
- `Reconciler.UpdateAlmanaxBonusIndex`: logging is left out.
- `Reconciler.Incremental`: the promise that incremental mode never inserts a duplicate slug and name pair holds only if Meilisearch ranks a document with the exact name first. The model leaves the ranking to the `Oracle`, so it neither proves nor refutes that promise.
- `Meili.Client.Search`: only the top hit's `name` matters to the reconciler, so the search outcome is reduced to an error, no hit, or a top hit with an optional string name.
- `Sql.OrderByDate`: SQLite leaves the order of rows with equal dates unspecified, and nothing enforces one almanax row per date. The model breaks ties by table order. Ascending dates and the same set of rows would hold under any tie order. The "same order" claims of `Sql.ByNameIsRestriction`, `Sql.ByNameQueryIsRestriction` and `Repository.Repository.GetAlmanaxByDateRangeAndNameID` do not: they rely on both queries breaking ties by the same stable rule, which SQLite does not promise for two separate statements.
- `Repository.NextRowId`: the table schemas are not part of this model. New ids follow SQLite's default rowid rule (largest + 1, or 1 when the table is empty). An AUTOINCREMENT column would never reuse ids and could differ after deletions.
- `Repository.Repository.Create`: the model makes no claim about which inputs the database rejects (foreign keys, unique slugs) because those constraints live in the schema. `LastInsertId`'s own error is folded into the statement's error.
- `Strings.ToLower`: only ASCII is lower-cased, not Go's full Unicode case mapping.
- `Utils.TruncateText`: one `char` stands for one Go byte. `max` and `Strings.LastIndex` count bytes only for ASCII text; for multi-byte UTF-8 text the model counts characters, and Go's cut in the middle of a character is not modelled. `Collation.StrLe` compares characters as code points, which gives the same order as SQLite's byte comparison of UTF-8.
- `Strconv.Atoi`: only decimal integers with an optional sign are parsed.
- `Types.Timestamp`: timestamps are opaque strings, and `datetime('now')` is a parameter.

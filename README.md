# progress-svc journal tables, modelled in Dafny

progress-svc is a small journaling back end. Users write **daily entries**:
a mood score and reason, plus a list of updates, each with tags. They also
write **weekly updates**, each with tags. All of it lives in five PostgreSQL
tables: `daily_entries`, `daily_updates`, `daily_tags`, `weekly_updates` and
`weekly_tags`.

This project models the route handlers that read and write those tables:

- `lib/routes/entries-daily.js`: the range read, the create, and the empty update.
- `lib/routes/entries.js`: an earlier revision of the create, and the empty update.
- `lib/routes/updates-weekly.js`: the range read, and the replace-all overwrite of a week.
- `lib/routes/tags.js`: the tag listing, and the per-date tag buckets.

## How the model is built

- **The database (`store.dfy`).** A `Store` value holds one sequence of rows per table and one id counter.
  - An `INSERT ... RETURNING id` appends a row whose id is the counter, then increments it.
  - A `DELETE ... WHERE` keeps the rows that do not match, in order.
- **The connection.** The class `Store.Database` holds the same tables as fields. Every data statement is a method that changes them in place.
  - A statement can fail. The set `rejected` names, by their position in the run, the statements the server refuses.
  - A refused statement changes nothing.
  - `Begin` takes a snapshot. `Rollback` restores the rows of the snapshot.
  - The id counter is not rolled back, because a PostgreSQL sequence is not transactional.
- **The writing handlers** are methods with the source's nested loops. Each is proved against a specification function of the old state:
  - `DailyCreate.Created` for the create;
  - `UpdatesWeekly.Overwritten` for the weekly overwrite.

  Their contracts say three things:
  - success happens exactly when none of the request's statements is refused, and, for the create in `entries-daily.js`, the payload has `updates`;
  - on success, the new state is that function of the old state;
  - on failure, the result is an Internal error and every row is as it was.
- **Lemmas** then state what the specification functions promise:
  - the content read back equals the payload;
  - other rows are untouched;
  - stale rows are gone;
  - repeating an overwrite leaves the same week content (bodies and tags, in order), under new ids;
  - a create followed by a read of a range holding its date returns exactly the rows built from the payload;
  - the row counts.
- **The reads** are functions. A read query is a filter, a LEFT JOIN and an ORDER BY:
  - `Order.Sort` sorts stably on the composite key;
  - in that key, NULLs sort last, as PostgreSQL does for an ascending order;
  - each read is characterised by a lemma that says exactly which rows it returns.
- **The per-date buckets of `/tags/weekly`** are built by a method with the source's loop over the query rows. The loop fills a `map`.
- **The two create revisions** share `DailyCreate`. They differ in two ways:
  - whether the tag rows record the entry id;
  - what a payload without `updates` does. In `entries-daily.js` the loop throws and the request fails; in `entries.js` only the entry row is written.
- **A query parameter counts as given** only when it is present and non-empty, as the handlers' `!startDate` test has it.

## Model

| member | source | states |
|---|---|---|
| Seqs.Filter | lib/routes/entries-daily.js:48-50 | a WHERE clause keeps exactly the rows that satisfy it, and never adds rows |
| Seqs.Distinct | lib/routes/tags.js:24-28 | DISTINCT returns each value of its input exactly once and nothing else |
| Order.StrCmp | lib/routes/entries-daily.js:50 | string comparison is a three-way order that is zero exactly on equal strings |
| Order.KeyCmp | lib/routes/entries-daily.js:51-54 | the ORDER BY key comparison (date_string, id, tag; NULLS LAST) is zero exactly on equal keys |
| Order.KeyCmpTrans | lib/routes/entries-daily.js:51-54 | the ORDER BY key comparison is transitive |
| Order.Sort | lib/routes/entries-daily.js:51-54 | ORDER BY returns the same rows (a permutation) in ascending key order |
| Store.AddDailyEntry | lib/routes/entries-daily.js:97-101 | inserting an entry issues exactly one new id and keeps every stored id issued |
| Store.AddDailyUpdate | lib/routes/entries-daily.js:104-108 | inserting an update issues one new id; the store stays consistent when it points at an issued entry id |
| Store.AddDailyTag | lib/routes/entries-daily.js:110-113 | inserting a tag issues one new id; the store stays consistent when it points at issued ids |
| Store.AddWeeklyUpdate | lib/routes/updates-weekly.js:79-83 | inserting a weekly update issues one new id and keeps the store consistent |
| Store.AddWeeklyTag | lib/routes/updates-weekly.js:85-88 | inserting a weekly tag issues one new id; the store stays consistent when it points at an issued update id |
| Store.RemoveWeeklyUpdates | lib/routes/updates-weekly.js:70-73 | after the DELETE, a weekly update remains exactly when it was there and is not of (userid, week) |
| Store.RemoveWeeklyTags | lib/routes/updates-weekly.js:74-77 | after the DELETE, a weekly tag remains exactly when it was there and is not of (userid, week) |
| Store.Database.Begin | lib/routes/entries-daily.js:96 | BEGIN records the current tables as the snapshot |
| Store.Database.Rollback | lib/routes/entries-daily.js:118-119 | ROLLBACK restores every row of the snapshot; the id counter keeps its value |
| Store.Database.InsertDailyEntry | lib/routes/entries-daily.js:97-101 | the INSERT either appends the entry row and returns its new id, or is refused and changes nothing |
| Store.Database.InsertDailyUpdate | lib/routes/entries-daily.js:104-108 | the INSERT either appends the update row and returns its new id, or is refused and changes nothing |
| Store.Database.InsertDailyTag | lib/routes/entries-daily.js:110-113 | the INSERT either appends the tag row, or is refused and changes nothing |
| Store.Database.InsertWeeklyUpdate | lib/routes/updates-weekly.js:79-83 | the INSERT either appends the weekly update and returns its new id, or is refused and changes nothing |
| Store.Database.InsertWeeklyTag | lib/routes/updates-weekly.js:85-88 | the INSERT either appends the weekly tag, or is refused and changes nothing |
| Store.Database.DeleteWeeklyUpdates | lib/routes/updates-weekly.js:70-73 | the DELETE either removes the (userid, week) updates, or is refused and changes nothing |
| Store.Database.DeleteWeeklyTags | lib/routes/updates-weekly.js:74-77 | the DELETE either removes the (userid, week) tags, or is refused and changes nothing |
| DailyCreate.AddTags | lib/routes/entries-daily.js:109-114 | one tag row per tag, one new id each; no other table changes |
| DailyCreate.AddTagsRows | lib/routes/entries-daily.js:109-114 | the tag loop appends, in tag order, one row per tag whose id is the next counter value, carrying userid, the entry id column, the update id, date_string and the tag |
| DailyCreate.AddTagsAdded | lib/routes/entries-daily.js:109-114 | the rows appended for one update all point at that update and hold its tags in order |
| DailyCreate.AddUpdates | lib/routes/entries-daily.js:103-115 | one new id per update and per tag; the entry and weekly tables do not change |
| DailyCreate.Created | lib/routes/entries-daily.js:97-115 | a create runs, and issues an id for, exactly one INSERT for the entry, one per update and one per tag |
| DailyCreate.CreatedValid | lib/routes/entries-daily.js:97-115 | after a create, every stored id and every stored reference to a parent row was issued by the counter |
| DailyCreate.CreatedRows | lib/routes/entries-daily.js:97-115 | a create appends one entry row with the payload fields and the new id; one update row per payload update, in order, carrying userid, the new entry id and date_string; and one tag row per tag, carrying userid and date_string (and the entry id when that revision writes it). The weekly tables do not change |
| DailyCreate.CreatedContent | lib/routes/entries-daily.js:103-114 | read back by the new entry id, the stored updates are exactly the payload's, in order, each with exactly its own tags, in order |
| DailyCreate.AddUpdatesUpdatesMember | lib/routes/entries-daily.js:103-108 | after the update loop, an update row is stored exactly when it was before or is the row of one payload update, whose id is the counter value after the rows of the updates and tags before it |
| DailyCreate.AddUpdatesTagsMember | lib/routes/entries-daily.js:103-114 | after the update loop, a tag row is stored exactly when it was before or is the row of one tag of one payload update, pointing at that update's id and numbered right after it in tag order |
| DailyCreate.CreatedUpdatesOfEntry | lib/routes/entries-daily.js:97-108 | after a create, the update rows pointing at the new entry are exactly one per payload update, with its body and the id issued to it |
| DailyCreate.CreatedTagsOfUpdate | lib/routes/entries-daily.js:103-114 | after a create, the tag rows pointing at one new update are exactly one per tag of that payload update, with the ids following the update's, and no row of another update |
| DailyCreate.InsertTags | lib/routes/entries-daily.js:109-114 | the tag loop succeeds exactly when no tag INSERT is refused, and then has added that update's tag rows |
| DailyCreate.InsertUpdate | lib/routes/entries-daily.js:104-114 | one pass of the update loop succeeds exactly when its update and tag INSERTs are all accepted, and then has added that update and its tags |
| DailyCreate.InsertUpdates | lib/routes/entries-daily.js:103-115 | the update loop succeeds exactly when none of its INSERTs is refused, and then has added every update with its tags, in payload order |
| EntriesDaily.ReadDaily | lib/routes/entries-daily.js:21-81 | BadRequest exactly when a date is missing or empty; otherwise the joined rows, ascending by (date_string, update id, tag), with no row lost or added |
| EntriesDaily.ReadDailyRows | lib/routes/entries-daily.js:38-50 | a row is returned exactly when it joins one of the caller's entries dated in [startDate, endDate] with one of its updates and one of that update's tags. The update columns are NULL for an entry without updates, and the tag columns are NULL for an update without tags |
| EntriesDaily.EntryJoinedCreated | lib/routes/entries-daily.js:38-47 | after a create, the LEFT JOIN of the new entry yields the entry's columns with NULL update columns when the payload has no update; otherwise exactly one row per tag of each payload update, and one row with NULL tag columns per update without tags, under the ids the create issued |
| EntriesDaily.CreateThenRead | lib/routes/entries-daily.js:28-55 | after a create, a read of a range holding the entry's date returns, for the new entry id, exactly the rows built from the payload as above, and nothing else |
| EntriesDaily.CreateEntry | lib/routes/entries-daily.js:91-123 | Ok(new entry id) exactly when `updates` is present and no statement is refused; the tables then hold the created rows, tag rows recording the entry id. Otherwise Internal, with every row as before |
| EntriesDaily.UpdateEntry | lib/routes/entries-daily.js:133-135 | the handler changes no table |
| Entries.CreateEntry | lib/routes/entries.js:21-55 | Ok(new entry id) exactly when no statement is refused, a missing `updates` writing the entry alone; the tables then hold the created rows, tag rows without an entry id. Otherwise Internal, with every row as before |
| Entries.UpdateEntry | lib/routes/entries.js:65-67 | the handler changes no table |
| UpdatesWeekly.AddWeeklyTags | lib/routes/updates-weekly.js:84-89 | one weekly tag row per payload tag, one new id each; no other table changes |
| UpdatesWeekly.AddWeeklyEntries | lib/routes/updates-weekly.js:78-90 | one new id per payload element and per tag; the daily tables do not change |
| UpdatesWeekly.ClearWeek | lib/routes/updates-weekly.js:70-77 | after the two DELETEs, no update or tag of (userid, week) is left, and every other weekly row stays, in order |
| UpdatesWeekly.AddWeeklyTagsRows | lib/routes/updates-weekly.js:84-89 | the tag loop appends, in tag order, one row per payload tag whose id is the next counter value, carrying userid, the update id, the week and the tag text |
| UpdatesWeekly.AddWeeklyTagsAdded | lib/routes/updates-weekly.js:84-89 | the rows appended for one element all point at its update and hold its tags in order |
| UpdatesWeekly.Overwritten | lib/routes/updates-weekly.js:70-90 | an overwrite issues exactly one new id per payload element and one per payload tag |
| UpdatesWeekly.OverwrittenValid | lib/routes/updates-weekly.js:70-90 | after an overwrite, every stored id and every stored reference to a parent row was issued by the counter |
| UpdatesWeekly.OverwrittenContent | lib/routes/updates-weekly.js:78-90 | after an overwrite, the week's updates are the payload's elements, in order, with their bodies, each with exactly its own tags, in order |
| UpdatesWeekly.OverwriteIdempotent | lib/routes/updates-weekly.js:70-90 | overwriting a week twice with the same payload leaves the same content as overwriting it once |
| UpdatesWeekly.OverwriteKeepsOthers | lib/routes/updates-weekly.js:70-77 | an overwrite leaves every daily row, and every weekly row of another user or another week, unchanged and in order |
| UpdatesWeekly.OverwriteReplacesWeek | lib/routes/updates-weekly.js:70-90 | after an overwrite, the week has one update per payload element and one tag row per payload tag, all new; none of its former rows survives |
| UpdatesWeekly.OverwriteEmpty | lib/routes/updates-weekly.js:70-78 | overwriting with an empty payload leaves the week without updates or tags |
| UpdatesWeekly.InsertWeeklyTags | lib/routes/updates-weekly.js:84-89 | the tag loop succeeds exactly when no tag INSERT is refused, and then has added the element's tag rows |
| UpdatesWeekly.InsertWeeklyEntry | lib/routes/updates-weekly.js:79-89 | one pass of the element loop succeeds exactly when its INSERTs are all accepted, and then has added the element and its tags |
| UpdatesWeekly.InsertWeeklyEntries | lib/routes/updates-weekly.js:78-90 | the element loop succeeds exactly when none of its INSERTs is refused, and then has added every element with its tags, in order |
| UpdatesWeekly.DeleteWeek | lib/routes/updates-weekly.js:70-77 | the two DELETEs succeed exactly when neither is refused, and then leave the cleared week |
| UpdatesWeekly.Overwrite | lib/routes/updates-weekly.js:64-98 | Ok exactly when none of the DELETEs and INSERTs is refused, with the tables then overwritten; otherwise Internal, with every row as before |
| UpdatesWeekly.ReadWeekly | lib/routes/updates-weekly.js:21-54 | BadRequest exactly when a date is missing or empty; otherwise the joined rows, ascending by (date_string, update id, tag), with no row lost or added |
| UpdatesWeekly.ReadWeeklyRows | lib/routes/updates-weekly.js:35-43 | a row is returned exactly when it joins one of the caller's weekly updates dated in [startDate, endDate] with one of its tags. The tag columns are NULL for an update without tags |
| Tags.DailyTexts | lib/routes/tags.js:26 | the projection holds exactly the tag texts of the user's daily tag rows |
| Tags.WeeklyTexts | lib/routes/tags.js:28 | the projection holds exactly the tag texts of the user's weekly tag rows |
| Tags.AllTags | lib/routes/tags.js:19-35 | every tag text the user has in either table comes back exactly once, and no other text comes back |
| Tags.InsertDistinct | lib/routes/tags.js:59-62 | adding a row to the grouped, ordered rows keeps them strictly ascending and adds exactly that row |
| Tags.GroupedRows | lib/routes/tags.js:52-63 | the grouped query returns each distinct (date_string, tag) of the caller's weekly tags in range exactly once, strictly ascending |
| Tags.TagsOnMember | lib/routes/tags.js:65-69 | a tag is in a date's list exactly when a row with that date and tag is |
| Tags.TagsOnAscending | lib/routes/tags.js:59-69 | with rows in strictly ascending (date_string, tag) order, each date's list is strictly ascending, hence free of duplicates |
| Tags.GroupByDate | lib/routes/tags.js:64-70 | the map has a key exactly for the dates of the rows; each list holds its date's tags in row order; the lists hold one tag per row in total |
| Tags.TagsWeekly | lib/routes/tags.js:45-76 | BadRequest exactly when a date is missing or empty; otherwise a key exactly for each date with a caller's weekly tag in range, whose list holds exactly that date's tags, ascending and without duplicates |

## Left out

- HTTP routing, authentication and the request/response encoding are not modelled. The caller's user id is a parameter.
- Logging is not modelled.
- Concurrent requests on the shared connection are not modelled. Each handler is one sequential call.
- A failing SELECT, which the read handlers turn into an Internal error, is not modelled: reads are total functions of the tables.
- BEGIN, COMMIT and ROLLBACK are modelled as never failing.
- Why a statement is refused is not modelled: a constraint, a malformed value and a lost connection all look alike. Only which statements are refused is modelled.
- The model uses one id counter for all five tables, where the database has one sequence per table. Each id is still fresh and larger than every earlier id of its table.
- The payload shapes are taken as given. An update without a `tags` array, which would make the loop throw, is not modelled. Nor is a `body` or field of the wrong type.
- String order is lexicographic by code point. The database's collation, and whether `date_string` holds a valid date, are not modelled.
- EntriesDaily.ReadDaily: among rows with equal (date_string, update id, tag), the model's order is its own. The database leaves that order unspecified.
- UpdatesWeekly.ReadWeekly: same as ReadDaily for rows with equal sort keys.
- Tags.AllTags: the query has no ORDER BY, so the model fixes an order of its own; only membership and uniqueness are stated.
- Tags.TagsWeekly: the key order of the returned JSON object is not modelled; the result is a `map`.
- EntriesDaily.UpdateEntry and Entries.UpdateEntry: the response an empty handler produces is not modelled, only that no table changes.
- lib/auth.js, lib/routes/users.js, lib/routes/slack.js, lib/server.js and lib/db.js are not part of this model.

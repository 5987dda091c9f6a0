# feed-to-mastodon, modelled in Dafny

feed-to-mastodon is a command-line tool. It reads an RSS/Atom feed and stores each
item in a SQLite `entries` table under a stable id. It then posts the unposted
entries to Mastodon through a text template and marks them as posted. The
durable state is that one table. Each row has an id, the item's JSON, a nullable
`posted_at` and a `fetched_at`.

This project models the logic that reads and changes that table, and proves what
the code promises about it:

- **Entry store** (`database.dfy`, module `Database`). The table is a pure value:
  - a map from id to row;
  - the ids in rowid order;
  - a logical clock standing for `CURRENT_TIMESTAMP`.

  Class `EntryStore` holds those three as fields. `SaveEntry` and `MarkAsPosted`
  change them and are proved against `Inserted` and `Marked`. `GetUnpostedEntries`
  is a scanning loop proved against `Unposted` and `Take`. The counts and the two
  maxima are functions of the table.
- **Schema versions** (`migrations.dfy`, module `Migrations`). Class `Schema` holds:
  - whether the entries table exists;
  - whether the schema_migrations table exists;
  - the versions whose statements ran;
  - the rows of schema_migrations.

  `InitSchema`, `ApplyMigration`, the version loop and `RunMigrations` are methods
  proved against `ApplyOne`, `ApplyAll` and `Migrated`.
- **Entry identity and ingestion** (`feed.dfy`, module `Feed`). `GenerateEntryID` is
  modelled with concrete lowercase hex and SHA-256 as a parameter. The
  `SaveEntriesToDB` loop is proved against `SaveAll` and `SaveCount`.
- **Rendering** (`template.dfy`, module `Template`). It covers `truncate` on
  runes and `Render`'s decode, execute and limit check. The limit only warns.
- **Posting** (`mastodon.dfy`, module `Mastodon`). It covers:
  - visibility validation in `New`;
  - `Post`'s dry-run short-circuit and the toot it sends;
  - the `PostEntries` counting loop.
- **Configuration and the token lookup** (`config.dfy` and `helpers.dfy`, modules
  `Configuration` and `AccessToken`).
- **The commands** (`post.dfy`, `catchup.dfy`, `fetch.dfy`). Each command is a
  function from the table and its inputs to a result and a new table. Each one is
  also a method that drives the store objects and is proved equal to that
  function.

The following are inputs of the model, not computations:
- SHA-256;
- JSON encoding and decoding;
- template execution;
- the Mastodon API;
- the settings table;
- which statements fail.

A function argument such as `saveFails: nat -> bool` says which call, by its
position in the loop, fails.

Four behaviours of the code are worth stating plainly, because they are easy to
assume otherwise:
- **Ingestion failures.** A failed `SaveEntry` during ingestion is logged and
  skipped, not returned (`internal/feed/fetcher.go:85-89`).
- **Marking failures.** A failed `MarkAsPosted` in `post` and `catchup` is logged
  and the loop goes on (`internal/commands/post.go:129-131`,
  `internal/commands/catchup.go:67-71`).
- **Schema creation.** `InitSchema` creates only the `entries` table.
- **Migration map.** `getMigrations` is empty, so a fresh database ends at
  version 1. The repository's test at `internal/database/db_test.go:542` expects
  version 2; the model follows the code.

## Model

| member | source | states |
|---|---|---|
| Database.WellFormedDistinct | internal/database/migrations.go:24 | in a reachable table no id appears twice in rowid order (id is the primary key) |
| Database.EmptyTable | internal/database/migrations.go:22-36 | the table InitSchema creates has no rows and satisfies the table invariant |
| Database.InsertedEffect | internal/database/db.go:62-75 | INSERT OR IGNORE of an unseen id adds exactly that key, one more row, unposted and fetched now; a known id leaves the whole table unchanged; no existing row is altered |
| Database.MarkedEffect | internal/database/db.go:116-135 | marking a known id sets its posted_at to now, even when already posted, and changes no other row, no key and not the order; an unknown id changes nothing |
| Database.InsertedWellFormed | internal/database/db.go:62-75 | inserting keeps the invariant: rowid order is strictly increasing fetched_at order, every stamp precedes the clock |
| Database.MarkedWellFormed | internal/database/db.go:116-135 | marking keeps the same invariant |
| Database.Take | internal/database/db.go:88-90 | LIMIT only when limit > 0: the whole sequence for limit <= 0, else a prefix of length min(limit, length) |
| Database.UnpostedIsBacklog | internal/database/db.go:80-113 | without a limit the query returns exactly the rows with posted_at NULL, each with its stored fields, strictly oldest fetched_at first, as many as GetStats' unposted count |
| Database.BacklogPage | internal/database/db.go:88-90 | with limit > 0 the page has min(limit, #unposted) entries and is a prefix of the unlimited result |
| Database.InsertionOrderScenario | internal/database/db.go:80-86 | saving A, B, C into an empty table gives the backlog [A, B, C] |
| Database.PostedExclusionScenario | internal/database/db.go:80-86 | after marking B the backlog is [A, C] |
| Database.GetStats | internal/database/db.go:138-158 | total = posted + unposted for every table |
| Database.Latest | internal/database/db.go:161-180 | SQL MAX over nullable stamps: None iff all are NULL, else a present stamp that bounds all others |
| Database.LastFetchTimeIsMax | internal/database/db.go:161-169 | None iff the table is empty, else the largest fetched_at of a row |
| Database.LastPostTimeIsMax | internal/database/db.go:172-180 | None iff no row is posted, else the largest posted_at of a posted row |
| Database.MarkedPostedIds | internal/database/db.go:117 | one UPDATE adds the id to the posted rows exactly when the row exists |
| Database.MarkEachWellFormed | internal/database/db.go:116-135 | any run of MarkAsPosted calls keeps the table invariant |
| Database.MarkEachFrame | internal/database/db.go:116-135 | a run of MarkAsPosted calls keeps keys, order, every row's data and fetched_at, and leaves unmarked rows untouched |
| Database.MarkEachPosted | internal/database/db.go:116-135 | a run of calls adds to the posted rows exactly the known ids whose call did not fail |
| Database.EntryStore.constructor | internal/database/migrations.go:22-36 | a new store holds an empty, well-formed table |
| Database.EntryStore.SaveEntry | internal/database/db.go:62-75 | success unless the statement fails; the new state is Inserted(old state), or unchanged on failure |
| Database.EntryStore.MarkAsPosted | internal/database/db.go:116-135 | storage failure, NotFound for an unknown id (table unchanged), else success with the state Marked(old state) |
| Database.EntryStore.GetUnpostedEntries | internal/database/db.go:80-113 | the scan returns Take(Unposted(state), limit) and changes nothing |
| Migrations.MaxOrZero | internal/database/migrations.go:128 | COALESCE(MAX(version), 0): 0 for no rows, else a recorded version bounding all others |
| Migrations.Version | internal/database/migrations.go:126-134 | 0 when the table is missing or empty, else the largest recorded version |
| Migrations.Target | internal/database/migrations.go:78-83 | max(1, largest key of the map) |
| Migrations.TargetUnique | internal/database/migrations.go:78-83 | that target is unique |
| Migrations.MaxMigrationVersion | internal/database/migrations.go:78-83 | the maxVersion scan over the map's keys computes the target |
| Migrations.PendingSpec | internal/database/migrations.go:93-94 | the versions visited are exactly the map's keys in [current+1, max], strictly ascending |
| Migrations.ApplyOneEffect | internal/database/migrations.go:111-123 | an unrecorded version is run then recorded; an exec failure runs and records nothing; a record failure runs it without recording; the error names the version |
| Migrations.ApplyAllSpec | internal/database/migrations.go:93-101 | applying ascending unrecorded versions records exactly those before the first failure, runs those and the failing one only if only its record failed, and reports that version |
| Migrations.MigratedSpec | internal/database/migrations.go:43-108 | RunMigrations records 1 first when the entries table exists and nothing is recorded, then behaves as ApplyAllSpec on the pending versions; the migrations table then exists |
| Migrations.FailureStopsRun | internal/database/migrations.go:96-98 | once a version fails, later versions change neither the state nor the error |
| Migrations.UpToDateDoesNothing | internal/database/migrations.go:86-88 | at or above the target nothing is run or recorded beyond the bootstrap step |
| Migrations.SuccessfulRunRecords | internal/database/migrations.go:93-101 | after a successful run every pending version is recorded, in order, after the earlier rows |
| Migrations.MigrateIdempotent | internal/database/migrations.go:86-88 | re-running after a successful run does no work |
| Migrations.Schema.InitSchema | internal/database/migrations.go:20-40 | creates the entries table or reports the failure, touching nothing else |
| Migrations.Schema.ApplyMigration | internal/database/migrations.go:111-123 | the object's new state and error are those of ApplyOne |
| Migrations.Schema.ApplyPending | internal/database/migrations.go:92-101 | the version loop leaves the state and error of ApplyAll over the pending versions |
| Migrations.Schema.RunMigrations | internal/database/migrations.go:43-108 | the object's new state and error are those of Migrated |
| Migrations.Schema.Open | internal/database/db.go:17-42 | InitSchema then RunMigrations; either failure aborts the open with its error |
| Migrations.FreshDatabaseEndsAtVersionOne | internal/database/migrations.go:11-17 | with the shipped empty map a fresh database ends with version 1 recorded, whatever fails |
| Migrations.ReopenIsNoOp | internal/database/migrations.go:22-32 | opening the same database again succeeds and runs and records nothing more |
| Feed.HexEncode | internal/feed/fetcher.go:61 | two lowercase hex digits per byte |
| Feed.HexRoundTrip | internal/feed/fetcher.go:61 | hex decoding inverts the encoding, so the encoding is injective |
| Feed.PublishedSegment | internal/feed/fetcher.go:49-54 | Published when non-empty, else the parsed date's text when present, else "" |
| Feed.EntryIdShape | internal/feed/fetcher.go:42-62 | the id is the GUID when there is one, else 64 lowercase hex digits decoding to SHA-256(title ++ link ++ date) |
| Feed.GuidWins | internal/feed/fetcher.go:44-46 | a non-empty GUID is the id whatever the other fields |
| Feed.SameConcatenationSameId | internal/feed/fetcher.go:57 | without GUIDs equal concatenations give equal ids |
| Feed.FieldBoundaryCollision | internal/feed/fetcher.go:57 | title "ab" + link "c" and title "a" + link "bc" collide |
| Feed.PublishedBeatsParsed | internal/feed/fetcher.go:50-54 | a non-empty Published makes the parsed date irrelevant |
| Feed.IdIgnoresOtherFields | internal/feed/fetcher.go:42-62 | only the GUID, title, link and dates make the id; the item's other fields never change it |
| Feed.HashedIdsDetermineDigest | internal/feed/fetcher.go:60-61 | two hashed ids are equal only when the digests are |
| Feed.SaveCount | internal/feed/fetcher.go:72-92 | the saved count never exceeds the number of items |
| Feed.SavedIdsMembers | internal/feed/fetcher.go:73-91 | the saved ids are exactly the ids of the items whose encoding and SaveEntry succeeded |
| Feed.SaveAllWellFormed | internal/feed/fetcher.go:73-91 | ingestion keeps the table invariant |
| Feed.SaveAllFrame | internal/feed/fetcher.go:73-91 | ingestion adds exactly the saved ids and never alters a stored row |
| Feed.SaveAllGrowth | internal/feed/fetcher.go:73-91 | the row count grows by the number of saved ids not stored before |
| Feed.NoFaultsSavesAll | internal/feed/fetcher.go:75-91 | with no encoding or storage failure the count is the item count and every item's id is saved |
| Feed.ResaveIsNoOp | internal/database/db.go:64 | saving items whose ids are all stored changes nothing |
| Feed.SaveEntriesToDB | internal/feed/fetcher.go:66-96 | a nil or empty feed gives 0 and no change; otherwise one SaveEntry per item in order, the count of successful calls, duplicates included |
| Template.TruncateTo | internal/template/renderer.go:67-83 | "" for limit <= 0; s when it fits; the first limit runes when limit <= 3; else limit-3 runes then "..."; never longer than max(limit, 0) |
| Template.Truncate | internal/template/renderer.go:53-65 | int and int64 limits truncate, any other type returns s unchanged |
| Template.TruncateIdempotent | internal/template/renderer.go:67-82 | truncating twice with one limit is truncating once |
| Template.TruncateKeepsPrefix | internal/template/renderer.go:72-82 | the result is s, a prefix of s, or a prefix of s followed by "..." |
| Template.TruncateTestTable | internal/template/renderer.go:56-82 | the repository's table: short, exact-length, empty, zero and 1-3 limits, limit 4; the last row again through the type switch, where int and int64 limits truncate and any other type returns s |
| Template.TruncateLongString | internal/template/renderer.go:82 | a string longer than a limit above 3 keeps limit-3 runes and gains "..." |
| Template.TruncateLongRow | internal/template/renderer.go:82 | the table's 51-rune row truncated to 20 |
| Template.TruncateCountsRunes | internal/template/renderer.go:71-82 | CJK and emoji count as one rune each |
| Template.Render | internal/template/renderer.go:86-113 | decode failure, then execute failure, are errors; otherwise the text is returned, with the warning exactly when it has more runes than the limit |
| Template.LimitIsAdvisory | internal/template/renderer.go:106-112 | the limit never changes success, text or error |
| Configuration.Validate | internal/config/config.go:69-95 | the first failing check of feed URL, server, token and visibility, in that order; no error iff all hold |
| Configuration.ValidateReadsOnlyChecked | internal/config/config.go:69-95 | no other field affects the result |
| Configuration.VisibilityTable | internal/config/config.go:83-92 | the four visibilities pass; "", "Public" and "invalid" fail |
| Configuration.ValidateOrderTable | internal/config/config.go:70-80 | with several fields missing the earliest check is reported |
| AccessToken.GetAccessToken | internal/commands/helpers.go:12-29 | the config token when set; else a read error is returned, a missing or empty setting is NoAccessToken, otherwise the stored token; a success is never "" |
| AccessToken.ConfigTokenWins | internal/commands/helpers.go:14-16 | with a config token the settings table is irrelevant, even unreadable |
| AccessToken.TokenFoundIff | internal/commands/helpers.go:14-28 | a token is found iff one of the two sources holds a non-empty one |
| Mastodon.NewPoster | internal/mastodon/poster.go:21-45 | succeeds iff the visibility is one of the four, and then keeps its four arguments |
| Mastodon.MakeToot | internal/mastodon/poster.go:57-65 | status is the content, visibility the poster's, spoiler text set iff the content warning is non-empty |
| Mastodon.Post | internal/mastodon/poster.go:49-75 | a dry run succeeds for every content and sends nothing; otherwise the toot is sent and the result is the request's |
| Mastodon.PostedCount | internal/mastodon/poster.go:80-108 | the count lies in [0, len(entries)] |
| Mastodon.PostedCountCounts | internal/mastodon/poster.go:83-99 | the count is the number of positions whose own render and post succeed: failures are isolated |
| Mastodon.DeliveredSpec | internal/mastodon/poster.go:83-99 | the delivered entries number the count and are exactly the entries at those positions |
| Mastodon.DryRunIgnoresServer | internal/mastodon/poster.go:50-54 | a dry run's outcome does not depend on the server |
| Mastodon.DryRunCountsRenderable | internal/mastodon/poster.go:50-54 | in a dry run an entry counts iff it renders |
| Mastodon.AllDelivered | internal/mastodon/poster.go:83-99 | when every entry succeeds all are counted and delivered; an empty list gives 0 |
| Mastodon.DryRunThreeValid | internal/mastodon/poster.go:83-99 | three renderable entries give a dry-run count of 3 |
| Mastodon.DryRunValidAndInvalid | internal/mastodon/poster.go:83-99 | a valid and an undecodable entry give 1 |
| Mastodon.FailuresLastPrefix | internal/mastodon/poster.go:83-99 | when no failure precedes a success the delivered entries are the first count entries |
| Mastodon.PostEntries | internal/mastodon/poster.go:80-108 | the loop returns PostedCount: one per entry that renders and posts, skipping the others |
| Mastodon.PostEntriesDelivered | internal/mastodon/poster.go:80-108 | the same loop collecting the delivered entries returns Delivered |
| PostCommand.Limit | internal/commands/post.go:66-69 | the --posts value when the flag was given, else maxItems |
| PostCommand.Prepare | internal/commands/post.go:47-113 | an early stop leaves the store and is an error or "nothing to post"; a ready run has a non-empty page of the chosen size, an authenticated valid config and a poster with the configured visibility and warning |
| PostCommand.StoreUntouchedUnlessPosting | internal/commands/post.go:77-81 | failed runs, empty backlogs and dry runs leave the store unchanged |
| PostCommand.EmptyBacklogStopsEarly | internal/commands/post.go:77-81 | with no unposted entries the run reports nothing to post |
| PostCommand.StoredTokenAloneFails | internal/commands/post.go:55-63 | as written, with no config token the run fails and leaves the store untouched even when the settings hold a token; with feed URL and server set it reports the missing token from Validate |
| PostCommand.StoredTokenSuffices | internal/commands/post.go:54-63 | corrected, a config without a token but a settings table holding one passes authentication and validation and posts whenever there is a backlog and a template; as written the same run fails with the missing-token error |
| PostCommand.ConfigTokenRunsUncorrected | internal/commands/post.go:54-63 | with a token in the config the token correction changes nothing |
| PostCommand.CorrectedStillNeedsToken | internal/commands/helpers.go:12-29 | corrected, a run with no token in either place still fails authentication with the store untouched |
| PostCommand.SummaryCounts | internal/commands/post.go:135-145 | posted + failed is the page size and the summary carries the dry-run flag |
| PostCommand.MarkingPageEntries | internal/commands/post.go:127-133 | marking a sub-list of a backlog page, no call failing, posts exactly the page entries in it |
| PostCommand.MarksByPosition | internal/commands/post.go:127-133 | as written, a page entry ends up posted iff it is among the first posted entries, whichever were sent |
| PostCommand.DeliveredRunMarksDelivered | internal/commands/post.go:127-133 | corrected, a page entry ends up posted iff it was rendered and sent |
| PostCommand.DeliveredRunCounts | internal/commands/post.go:135-145 | the corrected run reports the same result as the code |
| PostCommand.AgreeWhenFailuresLast | internal/commands/post.go:127-133 | the two coincide when every failure comes after every success |
| PostCommand.RunPostMarksWrongEntry | internal/commands/post.go:128-132 | as written, entry "a" fails to decode and "b" is sent, yet "a" is marked and "b" is not |
| PostCommand.DeliveredRunMarksRightEntry | internal/commands/post.go:128-132 | corrected, the same run marks "b" and leaves "a" unposted |
| PostCommand.MarkEntries | internal/commands/post.go:127-133 | the marking loop leaves MarkEach of the given entries' ids |
| PostCommand.PrepareRun | internal/commands/post.go:47-113 | the steps before posting, on the store, return Prepare |
| PostCommand.RunPost | internal/commands/post.go:40-148 | the command as written: result and new table are RunPostSpec |
| PostCommand.RunPostDelivered | internal/commands/post.go:40-148 | the corrected command: result and new table are RunPostDeliveredSpec |
| PostCommand.RunPostCorrected | internal/commands/post.go:40-148 | the command with both corrections: result and new table are RunPostCorrectedSpec |
| CatchupCommand.CatchupWritesOnlyWhenMarking | internal/commands/catchup.go:53-63 | empty backlog, dry run and failures leave the store unchanged |
| CatchupCommand.CatchupCounts | internal/commands/catchup.go:48-77 | the dry-run count and marked + failed are the unposted count; "nothing to mark" iff it is 0 |
| CatchupCommand.BacklogAllMarked | internal/commands/catchup.go:66-72 | with no failing call every row ends up posted and no row is added or removed |
| CatchupCommand.BacklogAllCounted | internal/commands/catchup.go:65-72 | with no failing call every call counts |
| CatchupCommand.CatchupClearsBacklog | internal/commands/catchup.go:48-77 | a real run with no failure leaves unposted = 0, posted = total unchanged, and reports them all |
| CatchupCommand.MarkAll | internal/commands/catchup.go:65-72 | the loop leaves MarkEach of the ids and counts the successful calls |
| CatchupCommand.RunCatchup | internal/commands/catchup.go:33-81 | result and new table are RunCatchupSpec |
| FetchCommand.InvalidConfigFirst | internal/commands/fetch.go:34-37 | an invalid config is reported before anything else, store untouched |
| FetchCommand.FailedFetchLeavesStore | internal/commands/fetch.go:57-60 | every failure, a failed fetch included, leaves the store unchanged |
| FetchCommand.NewEntriesAreUnknownIds | internal/commands/fetch.go:47-78 | totalAfter - totalBefore is the number of saved ids not stored before, never negative |
| FetchCommand.RefetchFindsNothing | internal/commands/fetch.go:78 | fetching the same feed again finds 0 new entries and changes nothing |
| FetchCommand.SkippedCountsFailures | internal/commands/fetch.go:79 | "skipped duplicates" is 0 when no save fails, duplicates or not |
| FetchCommand.RunFetch | internal/commands/fetch.go:27-91 | result and new table are RunFetchSpec |

## Findings

| source | as written | input that shows it | evidently intended | confidence | as-written member | corrected member |
|---|---|---|---|---|---|---|
| internal/commands/post.go:128-132 | after posting, MarkAsPosted runs on `entries[:posted]`, the first `posted` entries by position | backlog [a, b]; a fails to render, b is posted: posted = 1, so a is marked and b stays unposted and is posted again next run | mark the entries that were actually delivered | not executed | PostCommand.RunPostMarksWrongEntry | PostCommand.DeliveredRunMarksDelivered |
| internal/commands/post.go:54-63 | `Validate` runs on the loaded config after `getAccessToken`, and the token found is never stored in it, so `Validate` still requires the config's own token | a config with no access token and a settings table holding "mastodon_access_token": authentication succeeds, then the run fails with "invalid config: mastodonAccessToken is required" | the token `getAccessToken` found satisfies the token check, so a token stored only in the settings table (the case the comment at line 60 names) lets the run proceed | not executed | PostCommand.StoredTokenAloneFails | PostCommand.StoredTokenSuffices |

`PostCommand.RunPost` models the command as written. `PostCommand.RunPostCorrected`
applies both corrections. It validates the config carrying the token that
`getAccessToken` found, then runs the delivered-marking command below.
`PostCommand.ConfigTokenRunsUncorrected` shows the token correction changes nothing
when the config has its own token. For the marking correction: `PostCommand.RunPostDelivered`
is the corrected command: `PostEntriesDelivered` returns the delivered entries, and
those are marked. `PostCommand.DeliveredRunCounts` shows its reported counts are
unchanged. `PostCommand.AgreeWhenFailuresLast` shows the two agree whenever no
failure precedes a success.

## Left out

- Network, feed parsing and JSON: `Fetcher.Fetch`, gofeed, `json.Marshal` and
  `json.Unmarshal` are inputs (`fetched`, `marshal`, `decode`).
- SHA-256 is a parameter that returns 32 bytes; its internals are not modelled.
- `time.Time.String()` is an opaque string in `Item.publishedParsed`.
- An item's fields other than the GUID, title, link and dates are an opaque
  sequence of strings (`Item.otherFields`). Only `decode`, `marshal` and the
  template read them, and those are inputs.
- Templates are not parsed or executed. A parsed template is an input that
  returns text or fails. `template.New` failing to read or parse the file is the
  input `None`.
- `truncate`'s `float64` case is not modelled, because it is floating point.
- The Mastodon client and `PostStatus` are the input `sendFails`, and a status
  URL is not modelled.
- SQLite itself is not modelled: WAL and pragmas, SQL text, `created_at`,
  `Close`, and concurrency between processes.
- `CURRENT_TIMESTAMP` is a logical clock that each stamping write advances, so
  fetched_at order is rowid order. Equal timestamps within one second are not
  modelled.
- Failures of read queries are not modelled. These are `GetUnpostedEntries`,
  `GetStats`, `GetMigrationVersion`'s query and the `sqlite_master` check in
  `RunMigrations`. Write failures are inputs.
- Some write failures are not modelled:
  - `CREATE TABLE schema_migrations`;
  - the bootstrap `INSERT` of version 1 (`internal/database/migrations.go:45-52,70-72`).
- `LoadConfig` (viper, files, environment) is not modelled. A `Config` value is
  the input.
- `runPost` loads feed metadata and calls `Renderer.SetFeed`
  (`internal/commands/post.go:91-102`). Neither is defined in the repository's
  files; both are not part of this model.
- `GetSetting` is not part of this model. The settings table is the read-only
  input `SettingsRead`.
- Purging, the link/code/init/status commands, and all logging and printing are
  not modelled.
- Always-nil error results are not modelled. These are the second result of
  `PostEntries` and `SaveEntriesToDB`, and the error branches that test them in
  the commands.
- `mastodon.New` cannot fail inside `runPost` (`internal/commands/post.go:105-113`),
  because `Validate` has already accepted the visibility. `PostCommand.Prepare`
  therefore has no branch for it.
- Go `int` overflow is not modelled; integers are unbounded. `truncate`'s
  `int(v)` of an `int64` is taken to be exact.
- Invalid UTF-8 is not modelled. A Dafny string is a sequence of Unicode scalar
  values, which is what `[]rune` gives for valid input.

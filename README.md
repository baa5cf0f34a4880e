# ArcaneBungee storage layer: a Dafny model

This project models the data-access layer of the ArcaneBungee proxy plugin
(`SQLDatabase.java`). The MariaDB store becomes an in-memory value with three tables:

- `ab_players`: a map from a player's uuid to its row (id, username, firstseen,
  lastseen, timezone, discord, reddit, options), plus the AUTO_INCREMENT counter.
- `ab_news`: an append-only sequence of entries, plus its counter.
- `ab_reports`: a map from report id to its row.

Each SQL statement the file embeds is a function on these tables
(`PlayerQueries`, `PlayerUpdates`, `NewsTable`, `ReportTable`). Each public
write operation is a method of the class `Storage.SQLDatabase`, whose `ensures`
gives the new table as a function of the old one. Each read operation is a
function over the current table, with the source's sentinels for a missing row:
`0`, `0L` or `null`. The startup task that fills the UUID→name and UUID→Discord
directories and the latest-news slot is `Storage.SQLDatabase.WarmCaches`. It
works over `Storage.Caches`.

Every operation runs to completion before the next one starts. The future an
operation would return is its plain result. A future that is never completed
is `Tables.Future.NeverCompletes`. Several things become parameters:

- the current time, as `now`;
- the timestamp the news table's default gives a new entry, as `stamp`;
- the values the schema gives the columns an INSERT leaves out, as `ColumnDefaults`;
- SQLException failures, as `fails: bool` for single-statement operations and as
  `failing: set<Statement>` for operations that run several statements. In the
  second case the first failing statement of a try block skips the rest of
  that block.

The model keys the player table by uuid, so it assumes the uuid column is a
unique key. The schema itself is not part of this model; "## Left out" names
what this assumption decides.

Where the code and the design description disagree, the model follows the code:

- `playerJoin` returns a returning player's record as fetched, still carrying the
  old username. It does not carry the name just written.
- On first contact the INSERT sets only uuid and username. firstseen and lastseen
  are whatever the schema gives them, not "now".
- `fetchPlayerData` turns a query failure into `null`. So the failure check in
  `playerJoin` never fires, and a failed fetch leads to an INSERT attempt. The
  attempt succeeds when the row is really absent and is refused as a duplicate
  when the row exists.
- A failed INSERT gives `null`, not a failed future.
- `getDiscord` answers `null` on a query failure but `0` on a missing row.
- The design promises that at most one row holds a Discord id. Only `setDiscord`
  keeps that promise. `updatePlayer` writes the discord column from its snapshot
  without clearing other holders, so a stale snapshot brings a duplicate back
  (`PlayerUpdates.BulkUpdateCanDuplicateDiscord`).

## Model

| member | source | states |
|---|---|---|
| `PlayerQueries.FetchPlayerData` | src/main/java/com/arcaneminecraft/bungee/storage/SQLDatabase.java:195-236 | No record exactly when the row is missing or the query fails; otherwise a loaded record for that uuid whose columns, read back as a row, are exactly the stored row (a NULL timezone stays absent) |
| `PlayerQueries.GetOptions` | src/main/java/com/arcaneminecraft/bungee/storage/SQLDatabase.java:345-366 | Agrees with the options of the record `fetchPlayerData` would give, and is 0 when that gives none (missing row or failure) |
| `PlayerQueries.GetDiscord` | src/main/java/com/arcaneminecraft/bungee/storage/SQLDatabase.java:388-409 | null exactly when the query fails; otherwise the fetched record's discord id, or 0 for a missing row |
| `PlayerQueries.GetReddit` | src/main/java/com/arcaneminecraft/bungee/storage/SQLDatabase.java:426-447 | Agrees with the fetched record's reddit handle, and is null without a record |
| `PlayerQueries.GetTimeZoneAsWritten` | src/main/java/com/arcaneminecraft/bungee/storage/SQLDatabase.java:308-329 | Never completes exactly when the row exists, the query succeeds and its timezone column is NULL; whenever it completes it agrees with `GetTimeZone` |
| `PlayerQueries.GetTimeZone` | src/main/java/com/arcaneminecraft/bungee/storage/SQLDatabase.java:308-329 | With the null check `fetchPlayerData` makes: agrees with the fetched record's time zone, null without a record |
| `PlayerQueries.GetFirstSeenAsWritten` | src/main/java/com/arcaneminecraft/bungee/storage/SQLDatabase.java:256-273 | Never completes exactly when the select fails; otherwise the row's firstseen, null for a missing row |
| `PlayerQueries.GetFirstSeen` | src/main/java/com/arcaneminecraft/bungee/storage/SQLDatabase.java:256-273 | Agrees with the fetched record's firstseen, null without a record (failure included) |
| `PlayerQueries.GetLastSeenAsWritten` | src/main/java/com/arcaneminecraft/bungee/storage/SQLDatabase.java:275-292 | Never completes exactly when the select fails; otherwise the row's lastseen, null for a missing row |
| `PlayerQueries.GetLastSeen` | src/main/java/com/arcaneminecraft/bungee/storage/SQLDatabase.java:275-292 | Agrees with the fetched record's lastseen, null without a record (failure included) |
| `PlayerQueries.GetTimeZoneHangsOnNullColumn` | src/main/java/com/arcaneminecraft/bungee/storage/SQLDatabase.java:317-318 | On a row with a NULL timezone, getTimeZone as written never completes, while `fetchPlayerData` answers and the corrected read answers null |
| `PlayerQueries.SeenGettersHangOnFailure` | src/main/java/com/arcaneminecraft/bungee/storage/SQLDatabase.java:140-143 | A failed select makes getFirstSeen and getLastSeen as written never complete; the corrected reads answer null |
| `PlayerQueries.LatestPlayerId` | src/main/java/com/arcaneminecraft/bungee/storage/SQLDatabase.java:35 | The select of the latest id finds no row exactly on an empty table; otherwise it answers an id some row holds and no row exceeds |
| `PlayerQueries.NameDirectory` | src/main/java/com/arcaneminecraft/bungee/storage/SQLDatabase.java:96-101 | The UUID→name directory covers exactly the rows and maps each uuid to the username `fetchPlayerData` reads |
| `PlayerQueries.DiscordDirectory` | src/main/java/com/arcaneminecraft/bungee/storage/SQLDatabase.java:96-104 | The UUID→discord directory holds exactly the players for which `getDiscord` answers a nonzero id, and maps each to that id |
| `PlayerQueries.DiscordDirectoryInjective` | src/main/java/com/arcaneminecraft/bungee/storage/SQLDatabase.java:102-103 | While no two rows share a Discord id, the directory maps no two players to the same account |
| `PlayerUpdates.Apply` | src/main/java/com/arcaneminecraft/bungee/storage/SQLDatabase.java:43-49 | No SET clause of the file changes a row's id or firstseen; only the username update changes username; only the bulk update changes lastseen |
| `PlayerUpdates.UpdateByUuid` | src/main/java/com/arcaneminecraft/bungee/storage/SQLDatabase.java:43-49 | An UPDATE ... WHERE uuid=? keeps the set of rows, leaves every other row untouched, and applies its SET clause to the matching row if there is one |
| `PlayerUpdates.ClearDiscord` | src/main/java/com/arcaneminecraft/bungee/storage/SQLDatabase.java:46 | After SET discord=0 WHERE discord=d no row holds a nonzero d; rows with another id are untouched; only the discord column changes, and only to 0 |
| `PlayerUpdates.LinkDiscord` | src/main/java/com/arcaneminecraft/bungee/storage/SQLDatabase.java:368-386 | After both statements of setDiscord the target row holds d, every other former holder of d now holds 0, no other row holds d (d nonzero), rows with another id are untouched, and no non-discord column changes |
| `PlayerUpdates.RedditColumn` | src/main/java/com/arcaneminecraft/bungee/storage/SQLDatabase.java:246 | A null handle writes NULL; a handle shorter than 3 characters throws, so nothing is written; otherwise the written value is what follows the handle's first 3 characters |
| `PlayerUpdates.NewRow` | src/main/java/com/arcaneminecraft/bungee/storage/SQLDatabase.java:33 | The inserted row carries the given username and the auto-increment id, and the schema's default in each of firstseen, lastseen, timezone, discord, reddit and options |
| `PlayerUpdates.UpdateIdempotent` | src/main/java/com/arcaneminecraft/bungee/storage/SQLDatabase.java:294-306 | Running any single-uuid UPDATE twice with the same values gives the table one run gives, so setTimeZone, setOption and setReddit are idempotent |
| `PlayerUpdates.OptionsReadBack` | src/main/java/com/arcaneminecraft/bungee/storage/SQLDatabase.java:331-366 | After setOption, getOptions answers the new value (0 on a missing row); the fetched record differs only in options; every other player's record is unchanged |
| `PlayerUpdates.TimeZoneReadBack` | src/main/java/com/arcaneminecraft/bungee/storage/SQLDatabase.java:294-329 | After setTimeZone, getTimeZone answers the new zone (null on a missing row); the fetched record differs only in its time zone; every other player's record is unchanged |
| `PlayerUpdates.RedditReadBack` | src/main/java/com/arcaneminecraft/bungee/storage/SQLDatabase.java:411-447 | After setReddit, getReddit answers the new handle (null on a missing row); the fetched record differs only in reddit; every other player's record is unchanged |
| `PlayerUpdates.BulkUpdateEffect` | src/main/java/com/arcaneminecraft/bungee/storage/SQLDatabase.java:238-254 | updatePlayer with a prefixed handle sets the row's lastseen to now and its options, timezone and discord to the snapshot's; reddit loses its 3-character prefix; nothing else changes, in this row or any other |
| `PlayerUpdates.LinkDiscordKeepsUnique` | src/main/java/com/arcaneminecraft/bungee/storage/SQLDatabase.java:368-386 | setDiscord keeps a table without duplicate Discord ids free of them |
| `PlayerUpdates.RelinkMovesAccount` | src/main/java/com/arcaneminecraft/bungee/storage/SQLDatabase.java:368-409 | Linking an id to A and then to B leaves getDiscord answering 0 for A and the id for B |
| `PlayerUpdates.LinkDiscordRetry` | src/main/java/com/arcaneminecraft/bungee/storage/SQLDatabase.java:370-385 | setDiscord stopped after its first statement and run again ends where one full run ends, and a second full run changes nothing |
| `PlayerUpdates.BulkUpdateCanDuplicateDiscord` | src/main/java/com/arcaneminecraft/bungee/storage/SQLDatabase.java:241-248 | A table without duplicates after setDiscord gains one when updatePlayer writes back a snapshot taken before the id moved |
| `NewsTable.LatestNews` | src/main/java/com/arcaneminecraft/bungee/storage/SQLDatabase.java:54 | The latest-news select finds no row exactly on an empty table; otherwise it gives an entry of the table with the highest id |
| `NewsTable.AppendNews` | src/main/java/com/arcaneminecraft/bungee/storage/SQLDatabase.java:56 | The insert keeps every earlier entry and adds one with the next id, the given content and author, and the default timestamp |
| `NewsTable.LatestIsLast` | src/main/java/com/arcaneminecraft/bungee/storage/SQLDatabase.java:54 | When ids grow along the table, the entry with the highest id is the last one inserted |
| `NewsTable.AddedNewsIsLatest` | src/main/java/com/arcaneminecraft/bungee/storage/SQLDatabase.java:449-461 | After addNews the latest entry is the new one, with its content and author (null included), and the table's ids still grow |
| `ReportTable.UpdatePriority` | src/main/java/com/arcaneminecraft/bungee/storage/SQLDatabase.java:52 | Only report id changes, in priority and last-touched alone, and it takes the given priority and now; a missing report leaves the table as it was |
| `Storage.DirectoryFacts` | src/main/java/com/arcaneminecraft/bungee/storage/SQLDatabase.java:96-104 | After the scan, each row's uuid names its username, and the Discord directory holds exactly the rows with a nonzero Discord id, each with that id |
| `Storage.Caches.constructor` | src/main/java/com/arcaneminecraft/bungee/storage/SQLDatabase.java:87-89 | The three caches the startup scan writes into: the player module's UUID→name map, the Discord module's UUID→Discord-id map and the news module's latest entry; a fresh set starts empty |
| `Storage.SQLDatabase.constructor` | src/main/java/com/arcaneminecraft/bungee/storage/SQLDatabase.java:62-64 | The data layer starts over the tables as they stand |
| `Storage.SQLDatabase.WarmCaches` | src/main/java/com/arcaneminecraft/bungee/storage/SQLDatabase.java:91-121 | A failed scan leaves every cache alone. Otherwise every row's username and every nonzero Discord id is put into the directories over what they held. Then the latest-news slot gets the last entry, unless the news select fails or the table is empty |
| `Storage.SQLDatabase.PlayerJoin` | src/main/java/com/arcaneminecraft/bungee/storage/SQLDatabase.java:148-192 | A fetched record is answered as fetched. The username is rewritten only when it differs and the UPDATE succeeds; a failed UPDATE leaves the table and still answers the record. When the fetch gives no record (missing row or failed fetch), one row with the next id is inserted and a fresh record with that id is answered. A taken uuid or a failed INSERT answers null and leaves the table; a failed id select answers null after the insert. After any answer, unless the username UPDATE failed, the stored username is the current name |
| `Storage.SQLDatabase.UpdatePlayer` | src/main/java/com/arcaneminecraft/bungee/storage/SQLDatabase.java:238-254 | The table afterwards is the bulk UPDATE of the snapshot's row, or the old table when the write fails or substring(3) throws |
| `Storage.SQLDatabase.SetTimeZone` | src/main/java/com/arcaneminecraft/bungee/storage/SQLDatabase.java:294-306 | A failed write leaves the table. Otherwise the table afterwards is the timezone UPDATE of that row, and getTimeZone then answers the new zone |
| `Storage.SQLDatabase.SetOption` | src/main/java/com/arcaneminecraft/bungee/storage/SQLDatabase.java:331-343 | A failed write leaves the table. Otherwise the table afterwards is the options UPDATE of that row, and getOptions then answers the new value |
| `Storage.SQLDatabase.SetReddit` | src/main/java/com/arcaneminecraft/bungee/storage/SQLDatabase.java:411-424 | A failed write leaves the table. Otherwise the table afterwards is the reddit UPDATE of that row, and getReddit then answers the new handle |
| `Storage.SQLDatabase.SetDiscord` | src/main/java/com/arcaneminecraft/bungee/storage/SQLDatabase.java:368-386 | The table afterwards is unchanged, cleared of d, or cleared and then linked, up to the first failing statement. Once the clear has run only u can hold a nonzero d. After both statements getDiscord answers d for an existing u |
| `Storage.SQLDatabase.AddNews` | src/main/java/com/arcaneminecraft/bungee/storage/SQLDatabase.java:449-461 | Unless the insert fails, one entry with the next id is appended and becomes the latest entry |
| `Storage.SQLDatabase.ReportUpdatePriority` | src/main/java/com/arcaneminecraft/bungee/storage/SQLDatabase.java:474-487 | Unless the write fails, the report table afterwards is the priority/last UPDATE of that report |

## Findings

| source | as written | input that shows it | evidently intended | confidence | as-written member | corrected member |
|---|---|---|---|---|---|---|
| src/main/java/com/arcaneminecraft/bungee/storage/SQLDatabase.java:259-270 | When the select fails, `getPlayerResultSet` completes with a null result set, `rs.next()` throws a NullPointerException that nothing catches, and the future returned by `getFirstSeen` is never completed | any uuid, with the select by uuid failing | complete with null, as every other read does on a failure | not executed; high | `PlayerQueries.GetFirstSeenAsWritten`, `PlayerQueries.SeenGettersHangOnFailure` | `PlayerQueries.GetFirstSeen` |
| src/main/java/com/arcaneminecraft/bungee/storage/SQLDatabase.java:278-289 | The same for `getLastSeen` | any uuid, with the select by uuid failing | complete with null | not executed; high | `PlayerQueries.GetLastSeenAsWritten`, `PlayerQueries.SeenGettersHangOnFailure` | `PlayerQueries.GetLastSeen` |
| src/main/java/com/arcaneminecraft/bungee/storage/SQLDatabase.java:317-318 | `TimeZone.getTimeZone` gets the column value without a null check, so a NULL timezone column throws a NullPointerException inside the task and the future is never completed. `fetchPlayerData` guards the same column at line 220 | a player row whose timezone column is NULL, the case `fetchPlayerData` handles at lines 219-220 | complete with null | not executed; medium (rests on `TimeZone.getTimeZone(null)` throwing) | `PlayerQueries.GetTimeZoneAsWritten`, `PlayerQueries.GetTimeZoneHangsOnNullColumn` | `PlayerQueries.GetTimeZone` |

## Left out

- The connection pool, `getConnection`, prepared statements and result sets: each statement is modelled by its effect on the tables. A failure to get a connection is the same as the first statement failing.
- The startup ping and its 1-second warning: wall-clock time and logging.
- `runAsync` and `CompletableFuture` chaining: every operation runs to completion in sequence, so concurrent interleavings and the race between the INSERT and the latest-id select are not modelled.
- The static `instance` and `getInstance`: a process-wide handle with no behaviour.
- `TimeZone.getTimeZone` and `UUID.fromString`: time zones and uuids are opaque strings. The GMT fallback for unknown zone ids and the exception on a malformed uuid in the scan are not modelled.
- `setTimeZone` with a null `TimeZone` (a NullPointerException, so nothing is written) is not modelled: the parameter is a zone id.
- The uniqueness of the uuid column is an assumption of the map model; the schema is not part of this model. It decides one case: a failed fetch for an existing player leads to an INSERT, which the model refuses as a duplicate, answering null and leaving the table. With a non-unique column the store would add a second row for that uuid and `playerJoin` would answer a fresh record.
- String lengths and indices are counted in Unicode characters, not Java's UTF-16 code units. So `RedditColumn`'s length check and its dropping of the first 3 characters differ from `substring(3)` on handles with characters outside the Basic Multilingual Plane. For example, on a handle of one emoji followed by one letter, Java writes an empty string and the model writes nothing.
- Schema defaults are parameters: `ColumnDefaults` for a new player row, `stamp` for a news entry.
- The closed result set `getPlayerResultSet` hands on is driver-dependent; `getFirstSeen`/`getLastSeen` are plain lookups.
- A failure in the middle of the startup scan is not modelled (it would leave the directories partly filled). Only a failure of the scan statement as a whole is.
- `executeUpdate() == 0` after a single-row INSERT: such an INSERT affects one row or throws, so the model has no zero-row case.
- The `-1` id of `playerJoin`: the model still computes it, but in a sequential run it never occurs, because the row just inserted is in the table.
- A failed INSERT does not advance the auto-increment counter in the model; whether the store consumes an id then is store-dependent and not observable here.
- Java `int`/`long` widths: no operation does arithmetic on options, discord ids or row ids other than the auto-increment step, so values are unbounded integers.
- `ReportDatabase.Priority`: only its `getValue()` is used, so the priority is an integer. Report creation and the other report columns' writers are not part of this model.
- The directory updates that callers make after a write, and the `MinecraftPlayerModule`, `DiscordUserModule` and `NewsModule` classes, are not part of this model. Their `put`/`setLatest` are modelled as map override and assignment.
- `ArcaneBungee.java`: plugin bootstrap, configuration, command registration and the enable/disable wiring.

/**
 * Rows of the three tables the storage layer works on (ab_players, ab_news,
 * ab_reports), the player record it hands to callers, and the labels of the
 * SQL statements it runs.
 */
module Tables {
  import opened Wrappers

  /** A player's unique id, treated as an opaque string. */
  type Uuid = string
  /** A SQL TIMESTAMP, in milliseconds. */
  type Timestamp = int
  /** The id of a java.util.TimeZone, treated as an opaque string. */
  type TimeZoneId = string

  /** One row of ab_players, without its key column uuid. NULL columns are None. */
  datatype PlayerRow = PlayerRow(
    id: int,
    username: string,
    firstSeen: Option<Timestamp>,
    lastSeen: Option<Timestamp>,
    timeZone: Option<TimeZoneId>,
    discord: int,
    reddit: Option<string>,
    options: int)

  /** ab_players, keyed by uuid. */
  type PlayerRows = map<Uuid, PlayerRow>

  /** No two rows hold the same Discord id other than 0 (unlinked). */
  ghost predicate DiscordUnique(rows: PlayerRows) {
    forall a, b :: a in rows && b in rows && a != b && rows[a].discord != 0 ==> rows[a].discord != rows[b].discord
  }

  /** Every row's id is below the next auto-increment value. */
  ghost predicate PlayerIdsBelow(rows: PlayerRows, next: int) {
    forall u :: u in rows ==> rows[u].id < next
  }

  /** One row of ab_news; `author` is NULL for entries without an author. */
  datatype NewsRow = NewsRow(id: int, content: string, timestamp: Option<Timestamp>, author: Option<Uuid>)

  /** One row of ab_reports, without its key column id. */
  datatype ReportRow = ReportRow(
    uuid: Uuid, body: string, server: string, world: string,
    x: int, y: int, z: int,
    priority: int, last: Option<Timestamp>)

  /**
   * The player record the store hands back. `Minted` is the record built on
   * first contact from the uuid and the id alone; `Loaded` carries every
   * column of a fetched row, the username under the name `oldName`.
   */
  datatype ArcanePlayer =
    | Minted(uuid: Uuid, id: int)
    | Loaded(uuid: Uuid, id: int, oldName: string,
             firstSeen: Option<Timestamp>, lastSeen: Option<Timestamp>,
             timeZone: Option<TimeZoneId>, discord: int,
             reddit: Option<string>, options: int)

  /**
   * What the getters of a player record return when the record is written
   * back in bulk. `reddit` still carries the 3-character prefix that the write
   * strips.
   */
  datatype PlayerSnapshot = PlayerSnapshot(
    uuid: Uuid, options: int, timeZone: Option<TimeZoneId>,
    discord: int, reddit: Option<string>)

  /**
   * The values the schema's column defaults give a freshly inserted player
   * row in the columns the INSERT does not name (everything but uuid, username
   * and the auto-increment id).
   */
  datatype ColumnDefaults = ColumnDefaults(
    firstSeen: Option<Timestamp>, lastSeen: Option<Timestamp>,
    timeZone: Option<TimeZoneId>, discord: int,
    reddit: Option<string>, options: int)

  /** The entry the news module keeps as the latest announcement. */
  datatype NewsEntry = NewsEntry(author: Option<Uuid>, timestamp: Option<Timestamp>, content: string)

  /**
   * The SQL statements of operations that run more than one. A call is given
   * the set of statements that raise an SQLException on it.
   */
  datatype Statement =
    | PlayerSelectByUuid
    | PlayerInsert
    | PlayerSelectLatestId
    | PlayerUpdateUsername
    | PlayerUpdateDiscordByDiscord
    | PlayerUpdateDiscordByUuid
    | PlayerSelectAll
    | NewsSelectLatest

  /** The value a future completes with, or the fact that it never completes. */
  datatype Future<T> = Completed(value: T) | NeverCompletes
}

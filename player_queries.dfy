/**
 * The read statements on ab_players: SELECT * / SELECT <column> ... WHERE
 * uuid=? and SELECT id ... ORDER BY id DESC LIMIT 1. `fails` says that the
 * statement (or getting its connection) raised an SQLException.
 */
module PlayerQueries {
  import opened Wrappers
  import opened Tables
  import Sets

  /** The columns of a loaded player record, as a row again. */
  function RowOf(p: ArcanePlayer): PlayerRow
    requires p.Loaded?
  {
    PlayerRow(p.id, p.oldName, p.firstSeen, p.lastSeen, p.timeZone, p.discord, p.reddit, p.options)
  }

  /**
   * fetchPlayerData: no row, or a failed query (which the returned future
   * turns into null), gives None; otherwise a record carrying every column of
   * the row, a NULL timezone staying absent.
   */
  function FetchPlayerData(rows: PlayerRows, u: Uuid, fails: bool): (r: Option<ArcanePlayer>)
    ensures r.None? <==> fails || u !in rows
    ensures r.Some? ==> r.value.Loaded? && r.value.uuid == u && RowOf(r.value) == rows[u]
  {
    if fails || u !in rows then None
    else
      var row := rows[u];
      Some(Loaded(u, row.id, row.username, row.firstSeen, row.lastSeen,
                  row.timeZone, row.discord, row.reddit, row.options))
  }

  /** getOptions: the row's options, or 0 when there is no row or the query fails. */
  function GetOptions(rows: PlayerRows, u: Uuid, fails: bool): (r: int)
    ensures r == match FetchPlayerData(rows, u, fails)
                 case Some(p) => p.options
                 case None => 0
  {
    if !fails && u in rows then rows[u].options else 0
  }

  /**
   * getDiscord: the row's discord id, 0 when there is no row, and null (None)
   * when the query fails.
   */
  function GetDiscord(rows: PlayerRows, u: Uuid, fails: bool): (r: Option<int>)
    ensures fails <==> r.None?
    ensures !fails ==> r.value == match FetchPlayerData(rows, u, fails)
                                 case Some(p) => p.discord
                                 case None => 0
  {
    if fails then None
    else if u in rows then Some(rows[u].discord)
    else Some(0)
  }

  /** getReddit: the row's reddit column, or null when there is no row or the query fails. */
  function GetReddit(rows: PlayerRows, u: Uuid, fails: bool): (r: Option<string>)
    ensures r == match FetchPlayerData(rows, u, fails)
                 case Some(p) => p.reddit
                 case None => None
  {
    if !fails && u in rows then rows[u].reddit else None
  }

  /**
   * getTimeZone as written: TimeZone.getTimeZone is applied to the column
   * without the null check fetchPlayerData makes, so a row whose timezone is
   * NULL makes the task throw a NullPointerException and the future is never
   * completed.
   */
  function GetTimeZoneAsWritten(rows: PlayerRows, u: Uuid, fails: bool): (r: Future<Option<TimeZoneId>>)
    ensures r.NeverCompletes? <==> !fails && u in rows && rows[u].timeZone.None?
    ensures r.Completed? ==> r.value == GetTimeZone(rows, u, fails)
  {
    if fails || u !in rows then Completed(None)
    else match rows[u].timeZone
      case Some(tz) => Completed(Some(tz))
      case None => NeverCompletes
  }

  /** getTimeZone with the null check: the row's time zone, or null. */
  function GetTimeZone(rows: PlayerRows, u: Uuid, fails: bool): (r: Option<TimeZoneId>)
    ensures r == match FetchPlayerData(rows, u, fails)
                 case Some(p) => p.timeZone
                 case None => None
  {
    if !fails && u in rows then rows[u].timeZone else None
  }

  /**
   * getFirstSeen as written: a failed select completes the inner future with
   * a null result set, `rs.next()` then throws a NullPointerException, and
   * the returned future is never completed.
   */
  function GetFirstSeenAsWritten(rows: PlayerRows, u: Uuid, fails: bool): (r: Future<Option<Timestamp>>)
    ensures r.NeverCompletes? <==> fails
    ensures r.Completed? ==> r.value == GetFirstSeen(rows, u, fails)
  {
    if fails then NeverCompletes
    else if u in rows then Completed(rows[u].firstSeen)
    else Completed(None)
  }

  /** getFirstSeen completing with null on failure, as on a missing row. */
  function GetFirstSeen(rows: PlayerRows, u: Uuid, fails: bool): (r: Option<Timestamp>)
    ensures r == match FetchPlayerData(rows, u, fails)
                 case Some(p) => p.firstSeen
                 case None => None
  {
    if !fails && u in rows then rows[u].firstSeen else None
  }

  /** getLastSeen as written: never completes on a failed select, as getFirstSeen. */
  function GetLastSeenAsWritten(rows: PlayerRows, u: Uuid, fails: bool): (r: Future<Option<Timestamp>>)
    ensures r.NeverCompletes? <==> fails
    ensures r.Completed? ==> r.value == GetLastSeen(rows, u, fails)
  {
    if fails then NeverCompletes
    else if u in rows then Completed(rows[u].lastSeen)
    else Completed(None)
  }

  /** getLastSeen completing with null on failure, as on a missing row. */
  function GetLastSeen(rows: PlayerRows, u: Uuid, fails: bool): (r: Option<Timestamp>)
    ensures r == match FetchPlayerData(rows, u, fails)
                 case Some(p) => p.lastSeen
                 case None => None
  {
    if !fails && u in rows then rows[u].lastSeen else None
  }

  /** A row whose timezone column is NULL makes getTimeZone hang, where fetchPlayerData answers. */
  lemma GetTimeZoneHangsOnNullColumn(rows: PlayerRows, u: Uuid)
    requires u in rows && rows[u].timeZone.None?
    ensures GetTimeZoneAsWritten(rows, u, false).NeverCompletes?
    ensures FetchPlayerData(rows, u, false).Some?
    ensures GetTimeZone(rows, u, false).None?
  {
  }

  /** A failed select makes getFirstSeen and getLastSeen hang, whatever the table holds. */
  lemma SeenGettersHangOnFailure(rows: PlayerRows, u: Uuid)
    ensures GetFirstSeenAsWritten(rows, u, true).NeverCompletes?
    ensures GetLastSeenAsWritten(rows, u, true).NeverCompletes?
    ensures GetFirstSeen(rows, u, true).None? && GetLastSeen(rows, u, true).None?
  {
  }

  /** The largest element of a finite non-empty set of ids. */
  function MaxOf(s: set<int>): (m: int)
    requires s != {}
    ensures m in s && forall x :: x in s ==> x <= m
  {
    MaxExists(s);
    var m :| m in s && forall x | x in s :: x <= m;
    m
  }

  lemma {:induction false} MaxExists(s: set<int>)
    requires s != {}
    ensures exists m :: m in s && forall x :: x in s ==> x <= m
  {
    var y := Sets.Pick(s);
    if s != {y} {
      MaxExists(s - {y});
      var m :| m in s - {y} && forall x :: x in s - {y} ==> x <= m;
      var top := if y <= m then m else y;
      assert forall x :: x in s ==> x <= top by {
        forall x | x in s ensures x <= top {
          if x != y { assert x in s - {y}; }
        }
      }
    } else {
      assert forall x :: x in s ==> x <= y;
    }
  }

  /**
   * SELECT id FROM ab_players ORDER BY id DESC LIMIT 1: the largest id, or no
   * row when the table is empty.
   */
  function LatestPlayerId(rows: PlayerRows): (r: Option<int>)
    ensures r.None? <==> rows == map[]
    ensures r.Some? ==> exists u :: u in rows && rows[u].id == r.value
    ensures r.Some? ==> forall u :: u in rows ==> rows[u].id <= r.value
  {
    var ids := set u | u in rows :: rows[u].id;
    if rows == map[] then None
    else
      assert ids != {} by {
        var u := Sets.Pick(rows.Keys);
        assert rows[u].id in ids;
      }
      var m := MaxOf(ids);
      assert forall u :: u in rows ==> rows[u].id in ids;
      Some(m)
  }

  /**
   * The UUID→name directory the startup scan builds: every row's username.
   */
  function NameDirectory(rows: PlayerRows): (d: map<Uuid, string>)
    ensures d.Keys == rows.Keys
    ensures forall u :: u in d ==> FetchPlayerData(rows, u, false).value.oldName == d[u]
  {
    map u | u in rows :: rows[u].username
  }

  /**
   * The UUID→discord directory the startup scan builds: exactly the rows
   * whose discord id is not 0.
   */
  function DiscordDirectory(rows: PlayerRows): (d: map<Uuid, int>)
    ensures forall u :: u in d <==> GetDiscord(rows, u, false) != Some(0)
    ensures forall u :: u in d ==> Some(d[u]) == GetDiscord(rows, u, false)
  {
    map u | u in rows && rows[u].discord != 0 :: rows[u].discord
  }

  /**
   * While no two rows share a Discord id, the UUID→discord directory never
   * maps two players to the same account.
   */
  lemma DiscordDirectoryInjective(rows: PlayerRows)
    requires DiscordUnique(rows)
    ensures forall a, b :: a in DiscordDirectory(rows) && b in DiscordDirectory(rows) && a != b ==>
      DiscordDirectory(rows)[a] != DiscordDirectory(rows)[b]
  {
    var d := DiscordDirectory(rows);
    forall a, b | a in d && b in d && a != b ensures d[a] != d[b] {
      assert a in rows && rows[a].discord != 0 && d[a] == rows[a].discord;
      assert b in rows && d[b] == rows[b].discord;
    }
  }
}

/**
 * The write statements on ab_players: the INSERT on first contact, the
 * UPDATE ... WHERE uuid=? statements, and the UPDATE ... WHERE discord=?
 * that clears a Discord id before it is linked again.
 */
module PlayerUpdates {
  import opened Wrappers
  import opened Tables
  import opened PlayerQueries

  /** The SET clause of one UPDATE ab_players ... WHERE uuid=? statement. */
  datatype Assignment =
    | Username(name: string)
    | TimeZone(timeZone: Option<TimeZoneId>)
    | Options(options: int)
    | Discord(discord: int)
    | Reddit(reddit: Option<string>)
    | Bulk(lastSeen: Timestamp, options: int, timeZone: Option<TimeZoneId>, discord: int, reddit: Option<string>)

  /** A row after a SET clause. */
  function Apply(row: PlayerRow, a: Assignment): (r: PlayerRow)
    ensures r.id == row.id && r.firstSeen == row.firstSeen
    ensures !a.Username? ==> r.username == row.username
    ensures !a.Bulk? ==> r.lastSeen == row.lastSeen
  {
    match a
    case Username(n) => row.(username := n)
    case TimeZone(tz) => row.(timeZone := tz)
    case Options(o) => row.(options := o)
    case Discord(d) => row.(discord := d)
    case Reddit(rd) => row.(reddit := rd)
    case Bulk(seen, o, tz, d, rd) =>
      row.(lastSeen := Some(seen), options := o, timeZone := tz, discord := d, reddit := rd)
  }

  /** UPDATE ab_players SET ... WHERE uuid=u: only the row keyed u changes. */
  function UpdateByUuid(rows: PlayerRows, u: Uuid, a: Assignment): (r: PlayerRows)
    ensures r.Keys == rows.Keys
    ensures forall k :: k in rows && k != u ==> r[k] == rows[k]
    ensures u in rows ==> r[u] == Apply(rows[u], a)
  {
    if u in rows then rows[u := Apply(rows[u], a)] else rows
  }

  /**
   * UPDATE ab_players SET discord=0 WHERE discord=d: afterwards no row holds
   * d unless d is 0; rows holding another id are untouched, and only the
   * discord column of any row changes.
   */
  function ClearDiscord(rows: PlayerRows, d: int): (r: PlayerRows)
    ensures r.Keys == rows.Keys
    ensures d != 0 ==> forall k :: k in r ==> r[k].discord != d
    ensures forall k :: k in rows && rows[k].discord != d ==> r[k] == rows[k]
    ensures forall k :: k in rows ==> r[k] == rows[k].(discord := r[k].discord)
    ensures forall k :: k in rows ==> r[k].discord == rows[k].discord || r[k].discord == 0
  {
    map k | k in rows :: if rows[k].discord == d then rows[k].(discord := 0) else rows[k]
  }

  /**
   * setDiscord's two statements run to the end: clear d from every row, then
   * give it to u. Afterwards u holds d and no other row does; rows with
   * another Discord id are untouched and no other column changes.
   */
  function LinkDiscord(rows: PlayerRows, u: Uuid, d: int): (r: PlayerRows)
    ensures r.Keys == rows.Keys
    ensures u in rows ==> r[u].discord == d
    ensures d != 0 ==> forall k :: k in r && k != u ==> r[k].discord != d
    ensures forall k :: k in rows && k != u && rows[k].discord != d ==> r[k] == rows[k]
    ensures forall k :: k in rows && k != u && rows[k].discord == d ==> r[k].discord == 0
    ensures forall k :: k in rows ==> r[k] == rows[k].(discord := r[k].discord)
  {
    UpdateByUuid(ClearDiscord(rows, d), u, Discord(d))
  }

  /**
   * The value updatePlayer writes to the reddit column: the snapshot's value
   * without its first three characters, or NULL. None when `substring(3)`
   * throws on a value shorter than three characters, so that nothing is
   * written.
   */
  function RedditColumn(reddit: Option<string>): (c: Option<Option<string>>)
    ensures reddit.None? ==> c == Some(None)
    ensures reddit.Some? ==> (c.Some? <==> |reddit.value| >= 3)
    ensures reddit.Some? && c.Some? ==> c.value.Some? && reddit.value == reddit.value[..3] + c.value.value
  {
    match reddit
    case None => Some(None)
    case Some(s) => if |s| < 3 then None else Some(Some(s[3..]))
  }

  /** The row INSERT INTO ab_players(uuid, username) creates, given the auto-increment id. */
  function NewRow(id: int, name: string, defaults: ColumnDefaults): (row: PlayerRow)
    ensures row.id == id && row.username == name
    ensures row.firstSeen == defaults.firstSeen && row.lastSeen == defaults.lastSeen
    ensures row.timeZone == defaults.timeZone && row.discord == defaults.discord
    ensures row.reddit == defaults.reddit && row.options == defaults.options
  {
    PlayerRow(id, name, defaults.firstSeen, defaults.lastSeen, defaults.timeZone,
              defaults.discord, defaults.reddit, defaults.options)
  }

  /** Running the same SET clause twice leaves the row as running it once. */
  lemma UpdateIdempotent(rows: PlayerRows, u: Uuid, a: Assignment)
    ensures UpdateByUuid(UpdateByUuid(rows, u, a), u, a) == UpdateByUuid(rows, u, a)
  {
    if u in rows {
      assert Apply(Apply(rows[u], a), a) == Apply(rows[u], a);
    }
  }

  /**
   * setOption on an existing row: getOptions then answers the new value, the
   * fetched record differs only in its options, and no other row changes.
   */
  lemma OptionsReadBack(rows: PlayerRows, u: Uuid, o: int)
    ensures var after := UpdateByUuid(rows, u, Options(o));
      && GetOptions(after, u, false) == (if u in rows then o else 0)
      && (u in rows ==> FetchPlayerData(after, u, false) == Some(FetchPlayerData(rows, u, false).value.(options := o)))
      && forall k :: k != u ==> FetchPlayerData(after, k, false) == FetchPlayerData(rows, k, false)
  {
  }

  /** setTimeZone on an existing row: getTimeZone answers the new zone and nothing else changes. */
  lemma TimeZoneReadBack(rows: PlayerRows, u: Uuid, tz: TimeZoneId)
    ensures var after := UpdateByUuid(rows, u, TimeZone(Some(tz)));
      && GetTimeZone(after, u, false) == (if u in rows then Some(tz) else None)
      && (u in rows ==> FetchPlayerData(after, u, false) == Some(FetchPlayerData(rows, u, false).value.(timeZone := Some(tz))))
      && forall k :: k != u ==> FetchPlayerData(after, k, false) == FetchPlayerData(rows, k, false)
  {
  }

  /** setReddit on an existing row: getReddit answers the new handle and nothing else changes. */
  lemma RedditReadBack(rows: PlayerRows, u: Uuid, rd: Option<string>)
    ensures var after := UpdateByUuid(rows, u, Reddit(rd));
      && GetReddit(after, u, false) == (if u in rows then rd else None)
      && (u in rows ==> FetchPlayerData(after, u, false) == Some(FetchPlayerData(rows, u, false).value.(reddit := rd)))
      && forall k :: k != u ==> FetchPlayerData(after, k, false) == FetchPlayerData(rows, k, false)
  {
  }

  /**
   * updatePlayer on an existing row: lastseen becomes `now`, options,
   * timezone and discord are the snapshot's, reddit is the snapshot's without
   * its 3-character prefix; id, username and firstseen stay, and no other row
   * changes.
   */
  lemma BulkUpdateEffect(rows: PlayerRows, p: PlayerSnapshot, now: Timestamp, pre: string, handle: string)
    requires p.reddit == Some(pre + handle) && |pre| == 3
    ensures RedditColumn(p.reddit) == Some(Some(handle))
    ensures var after := UpdateByUuid(rows, p.uuid, Bulk(now, p.options, p.timeZone, p.discord, Some(handle)));
      && (p.uuid in rows ==>
            && FetchPlayerData(after, p.uuid, false) ==
               Some(FetchPlayerData(rows, p.uuid, false).value.(lastSeen := Some(now), options := p.options,
                                                                 timeZone := p.timeZone, discord := p.discord,
                                                                 reddit := Some(handle)))
            && GetReddit(after, p.uuid, false) == Some(handle)
            && GetLastSeen(after, p.uuid, false) == Some(now))
      && forall k :: k != p.uuid ==> FetchPlayerData(after, k, false) == FetchPlayerData(rows, k, false)
  {
    assert (pre + handle)[3..] == handle;
  }

  /** setDiscord keeps the table free of duplicate Discord ids. */
  lemma LinkDiscordKeepsUnique(rows: PlayerRows, u: Uuid, d: int)
    requires DiscordUnique(rows)
    ensures DiscordUnique(LinkDiscord(rows, u, d))
  {
    var r := LinkDiscord(rows, u, d);
    forall a, b | a in r && b in r && a != b && r[a].discord != 0
      ensures r[a].discord != r[b].discord
    {
      if a == u || b == u {
        var other := if a == u then b else a;
        assert r[other].discord != d || d == 0;
        assert r[other].discord == rows[other].discord || r[other].discord == 0;
      }
    }
  }

  /**
   * Linking Discord id d to A and then to B leaves A unlinked (getDiscord
   * answers 0) and B linked to d.
   */
  lemma RelinkMovesAccount(rows: PlayerRows, a: Uuid, b: Uuid, d: int)
    requires a in rows && b in rows && a != b && d != 0
    ensures var after := LinkDiscord(LinkDiscord(rows, a, d), b, d);
      GetDiscord(after, a, false) == Some(0) && GetDiscord(after, b, false) == Some(d)
  {
    var mid := LinkDiscord(rows, a, d);
    assert mid[a].discord == d;
    var after := LinkDiscord(mid, b, d);
    assert after[a].discord != d;
    assert after[a] == mid[a].(discord := after[a].discord);
  }

  /**
   * setDiscord interrupted after its first statement and then run again with
   * the same arguments ends where one complete run ends; so does running it
   * twice.
   */
  lemma LinkDiscordRetry(rows: PlayerRows, u: Uuid, d: int)
    ensures LinkDiscord(ClearDiscord(rows, d), u, d) == LinkDiscord(rows, u, d)
    ensures LinkDiscord(LinkDiscord(rows, u, d), u, d) == LinkDiscord(rows, u, d)
  {
    var once := ClearDiscord(rows, d);
    assert ClearDiscord(once, d) == once;
    var r := LinkDiscord(rows, u, d);
    var c := ClearDiscord(r, d);
    if u in rows {
      assert c == once[u := once[u].(discord := 0)];
      assert UpdateByUuid(c, u, Discord(d)) == r;
    } else {
      assert c == once;
    }
  }

  /**
   * updatePlayer writes the discord id of its snapshot without clearing
   * other holders: with a snapshot taken before the id moved to another row,
   * two rows end up holding it.
   */
  lemma BulkUpdateCanDuplicateDiscord()
    ensures var row := PlayerRow(1, "", None, None, None, 7, None, 0);
      var rows := map["a" := row, "b" := row.(id := 2, discord := 0)];
      var linked := LinkDiscord(rows, "b", 7);
      var after := UpdateByUuid(linked, "a", Bulk(0, 0, None, 7, None));
      DiscordUnique(linked) && !DiscordUnique(after)
  {
    var row := PlayerRow(1, "", None, None, None, 7, None, 0);
    var rows := map["a" := row, "b" := row.(id := 2, discord := 0)];
    var linked := LinkDiscord(rows, "b", 7);
    assert linked["a"].discord == 0 && linked["b"].discord == 7;
    assert linked.Keys == {"a", "b"};
    assert DiscordUnique(linked);
    var after := UpdateByUuid(linked, "a", Bulk(0, 0, None, 7, None));
    assert "a" != "b";
    assert after["a"].discord == 7 && after["b"].discord == 7;
  }
}

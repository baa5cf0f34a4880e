/**
 * The storage layer as a sequence of whole operations on the three tables.
 * Every write runs to completion before the next call; `fails` and `failing`
 * say which statements raise an SQLException, which the operation logs and
 * swallows. Reads are the functions of PlayerQueries and NewsTable applied to
 * the fields below.
 */
module Storage {
  import opened Wrappers
  import opened Tables
  import opened PlayerQueries
  import opened PlayerUpdates
  import opened NewsTable
  import opened ReportTable
  import Sets

  /** The news module's copy of an entry. */
  function EntryOf(row: NewsRow): NewsEntry {
    NewsEntry(row.author, row.timestamp, row.content)
  }

  /** Scanning one more row adds its name, and its Discord id unless that is 0. */
  lemma ScanStep(rows: PlayerRows, rest: set<Uuid>, u: Uuid)
    requires u in rest && u in rows
    ensures NameDirectory(rows - (rest - {u})) == NameDirectory(rows - rest)[u := rows[u].username]
    ensures rows[u].discord != 0 ==>
      DiscordDirectory(rows - (rest - {u})) == DiscordDirectory(rows - rest)[u := rows[u].discord]
    ensures rows[u].discord == 0 ==>
      DiscordDirectory(rows - (rest - {u})) == DiscordDirectory(rows - rest)
  {
    assert rows - (rest - {u}) == (rows - rest)[u := rows[u]];
  }

  /** Putting a key after a union is putting it into the map on the right. */
  lemma UnionPut<K, V>(a: map<K, V>, b: map<K, V>, k: K, v: V)
    ensures (a + b)[k := v] == a + b[k := v]
  {
  }

  /** What the finished scan leaves in the directories, stated per player. */
  lemma DirectoryFacts(rows: PlayerRows)
    ensures forall u :: u in rows ==> u in NameDirectory(rows) && NameDirectory(rows)[u] == rows[u].username
    ensures forall u :: u in DiscordDirectory(rows) <==> u in rows && rows[u].discord != 0
    ensures forall u :: u in DiscordDirectory(rows) ==> DiscordDirectory(rows)[u] == rows[u].discord
  {
  }

  /**
   * The in-memory directories the startup scan fills: the player module's
   * UUID→name map, the Discord module's UUID→Discord-id map and the news
   * module's latest entry.
   */
  class Caches {
    var names: map<Uuid, string>
    var discords: map<Uuid, int>
    var latest: Option<NewsEntry>

    constructor ()
      ensures names == map[] && discords == map[] && latest == None
    {
      names, discords, latest := map[], map[], None;
    }
  }

  class SQLDatabase {
    /** ab_players and its AUTO_INCREMENT counter. */
    var players: PlayerRows
    var nextPlayerId: int
    /** ab_news and its AUTO_INCREMENT counter. */
    var news: seq<NewsRow>
    var nextNewsId: int
    /** ab_reports. */
    var reports: map<int, ReportRow>

    ghost predicate Valid()
      reads this
    {
      PlayerIdsBelow(players, nextPlayerId) && IdsIncreasing(news) && IdsBelow(news, nextNewsId)
    }

    /** The data layer over the tables as they stand when the plugin starts. */
    constructor (players: PlayerRows, nextPlayerId: int, news: seq<NewsRow>, nextNewsId: int, reports: map<int, ReportRow>)
      requires PlayerIdsBelow(players, nextPlayerId) && IdsIncreasing(news) && IdsBelow(news, nextNewsId)
      ensures Valid()
      ensures this.players == players && this.nextPlayerId == nextPlayerId
      ensures this.news == news && this.nextNewsId == nextNewsId && this.reports == reports
    {
      this.players := players;
      this.nextPlayerId := nextPlayerId;
      this.news := news;
      this.nextNewsId := nextNewsId;
      this.reports := reports;
    }

    /**
     * The startup task: scan every player row into the name and Discord
     * directories (skipping Discord id 0), then read the latest news entry.
     * A failed scan stops both; an empty news table makes reading the missing
     * row throw, so the latest entry is left as it was.
     */
    method WarmCaches(c: Caches, failing: set<Statement>)
      requires Valid()
      modifies c
      ensures PlayerSelectAll in failing ==>
        c.names == old(c.names) && c.discords == old(c.discords) && c.latest == old(c.latest)
      ensures PlayerSelectAll !in failing ==>
        && c.names == old(c.names) + NameDirectory(players)
        && c.discords == old(c.discords) + DiscordDirectory(players)
      ensures PlayerSelectAll !in failing ==>
        c.latest == if NewsSelectLatest in failing || news == [] then old(c.latest)
                    else Some(EntryOf(news[|news| - 1]))
    {
      if PlayerSelectAll in failing {
        return;
      }
      var rest := players.Keys;
      while rest != {}
        invariant rest <= players.Keys
        invariant c.latest == old(c.latest)
        invariant c.names == old(c.names) + NameDirectory(players - rest)
        invariant c.discords == old(c.discords) + DiscordDirectory(players - rest)
        decreases rest
      {
        // a witness, so that the pick below is known to succeed
        ghost var some := Sets.Pick(rest);
        var u :| u in rest;
        var row := players[u];
        ScanStep(players, rest, u);
        UnionPut(old(c.names), NameDirectory(players - rest), u, row.username);
        c.names := c.names[u := row.username];
        if row.discord != 0 {
          UnionPut(old(c.discords), DiscordDirectory(players - rest), u, row.discord);
          c.discords := c.discords[u := row.discord];
        }
        rest := rest - {u};
      }
      assert players - rest == players;
      if NewsSelectLatest in failing {
        return;
      }
      match LatestNews(news)
      case None =>
      case Some(e) =>
        LatestIsLast(news);
        c.latest := Some(EntryOf(e));
    }

    /**
     * playerJoin: fetch the row; on no row (or a failed fetch, which reads as
     * no row) insert one and answer a fresh record with the latest id, -1 if
     * that select finds nothing, or null if a statement fails or the uuid is
     * already taken; on a row whose username differs from `name`, overwrite
     * the username. A fetched record is answered as fetched.
     */
    method PlayerJoin(u: Uuid, name: string, defaults: ColumnDefaults, failing: set<Statement>) returns (r: Option<ArcanePlayer>)
      requires Valid()
      modifies this`players, this`nextPlayerId
      ensures Valid()
      ensures var fetched := FetchPlayerData(old(players), u, PlayerSelectByUuid in failing);
        fetched.Some? ==>
          && r == fetched
          && nextPlayerId == old(nextPlayerId)
          && players == if fetched.value.oldName != name && PlayerUpdateUsername !in failing
                        then UpdateByUuid(old(players), u, Username(name))
                        else old(players)
      ensures var fetched := FetchPlayerData(old(players), u, PlayerSelectByUuid in failing);
        fetched.None? && (u in old(players) || PlayerInsert in failing) ==>
          r == None && players == old(players) && nextPlayerId == old(nextPlayerId)
      ensures var fetched := FetchPlayerData(old(players), u, PlayerSelectByUuid in failing);
        fetched.None? && u !in old(players) && PlayerInsert !in failing ==>
          && players == old(players)[u := NewRow(old(nextPlayerId), name, defaults)]
          && nextPlayerId == old(nextPlayerId) + 1
          && r == if PlayerSelectLatestId in failing then None else Some(Minted(u, old(nextPlayerId)))
      ensures r.Some? ==> u in old(players) || r.value.id == players[u].id
      ensures r.Some? && PlayerUpdateUsername !in failing ==> u in players && players[u].username == name
      ensures r.Some? ==> r.value.uuid == u
    {
      var fetched := FetchPlayerData(players, u, PlayerSelectByUuid in failing);
      if fetched.None? {
        if u in players || PlayerInsert in failing {
          // duplicate uuid or failed insert: the SQLException is logged
          r := None;
        } else {
          players := players[u := NewRow(nextPlayerId, name, defaults)];
          nextPlayerId := nextPlayerId + 1;
          if PlayerSelectLatestId in failing {
            r := None;
          } else {
            var latest := LatestPlayerId(players);
            assert latest == Some(nextPlayerId - 1) by {
              assert players[u].id == nextPlayerId - 1;
            }
            r := Some(Minted(u, if latest.Some? then latest.value else -1));
          }
        }
        return;
      }
      var player := fetched.value;
      if player.oldName != name && PlayerUpdateUsername !in failing {
        players := UpdateByUuid(players, u, Username(name));
      }
      r := fetched;
    }

    /** updatePlayer: the bulk write of lastseen, options, timezone, discord and reddit. */
    method UpdatePlayer(p: PlayerSnapshot, now: Timestamp, fails: bool)
      requires Valid()
      modifies this`players
      ensures Valid()
      ensures players == match RedditColumn(p.reddit)
        case None => old(players)
        case Some(col) =>
          if fails then old(players)
          else UpdateByUuid(old(players), p.uuid, Bulk(now, p.options, p.timeZone, p.discord, col))
    {
      var col := RedditColumn(p.reddit);
      if col.None? || fails {
        return;
      }
      players := UpdateByUuid(players, p.uuid, Bulk(now, p.options, p.timeZone, p.discord, col.value));
    }

    /** setTimeZone: write the zone's id into the row's timezone column. */
    method SetTimeZone(u: Uuid, tz: TimeZoneId, fails: bool)
      requires Valid()
      modifies this`players
      ensures Valid()
      ensures players == if fails then old(players) else UpdateByUuid(old(players), u, TimeZone(Some(tz)))
      ensures !fails ==> GetTimeZone(players, u, false) == if u in old(players) then Some(tz) else None
    {
      if !fails {
        players := UpdateByUuid(players, u, TimeZone(Some(tz)));
        TimeZoneReadBack(old(players), u, tz);
      }
    }

    /** setOption: write the options bitmask. */
    method SetOption(u: Uuid, options: int, fails: bool)
      requires Valid()
      modifies this`players
      ensures Valid()
      ensures players == if fails then old(players) else UpdateByUuid(old(players), u, Options(options))
      ensures !fails ==> GetOptions(players, u, false) == if u in old(players) then options else 0
    {
      if !fails {
        players := UpdateByUuid(players, u, Options(options));
      }
    }

    /** setReddit: write the reddit column, NULL included. */
    method SetReddit(u: Uuid, reddit: Option<string>, fails: bool)
      requires Valid()
      modifies this`players
      ensures Valid()
      ensures players == if fails then old(players) else UpdateByUuid(old(players), u, Reddit(reddit))
      ensures !fails ==> GetReddit(players, u, false) == if u in old(players) then reddit else None
    {
      if !fails {
        players := UpdateByUuid(players, u, Reddit(reddit));
      }
    }

    /**
     * setDiscord: clear `d` from every row, then give it to `u`, on one
     * connection; a failing first statement skips the second.
     */
    method SetDiscord(u: Uuid, d: int, failing: set<Statement>)
      requires Valid()
      modifies this`players
      ensures Valid()
      ensures players == if PlayerUpdateDiscordByDiscord in failing then old(players)
                         else if PlayerUpdateDiscordByUuid in failing then ClearDiscord(old(players), d)
                         else LinkDiscord(old(players), u, d)
      ensures PlayerUpdateDiscordByDiscord !in failing && d != 0 ==>
        forall k :: k in players && players[k].discord == d ==> k == u
      ensures failing !! {PlayerUpdateDiscordByDiscord, PlayerUpdateDiscordByUuid} ==>
        GetDiscord(players, u, false) == Some(if u in players then d else 0)
    {
      if PlayerUpdateDiscordByDiscord in failing {
        return;
      }
      players := ClearDiscord(players, d);
      if PlayerUpdateDiscordByUuid in failing {
        return;
      }
      players := UpdateByUuid(players, u, Discord(d));
    }

    /** addNews: append an entry; `stamp` is the timestamp the table's default gives it. */
    method AddNews(author: Option<Uuid>, content: string, stamp: Option<Timestamp>, fails: bool)
      requires Valid()
      modifies this`news, this`nextNewsId
      ensures Valid()
      ensures fails ==> news == old(news) && nextNewsId == old(nextNewsId)
      ensures !fails ==>
        && news == AppendNews(old(news), old(nextNewsId), content, stamp, author)
        && nextNewsId == old(nextNewsId) + 1
        && LatestNews(news) == Some(NewsRow(old(nextNewsId), content, stamp, author))
    {
      if fails {
        return;
      }
      AddedNewsIsLatest(news, nextNewsId, content, stamp, author);
      news := AppendNews(news, nextNewsId, content, stamp, author);
      nextNewsId := nextNewsId + 1;
    }

    /** reportUpdatePriority: set report `id`'s priority and stamp it with `now`. */
    method ReportUpdatePriority(id: int, priority: int, now: Timestamp, fails: bool)
      requires Valid()
      modifies this`reports
      ensures Valid()
      ensures reports == if fails then old(reports) else UpdatePriority(old(reports), id, priority, now)
    {
      if !fails {
        reports := UpdatePriority(reports, id, priority, now);
      }
    }
  }
}

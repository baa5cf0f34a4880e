/** ab_news: an append-only sequence of entries with auto-increment ids. */
module NewsTable {
  import opened Wrappers
  import opened Tables

  /** Ids grow along the table, as the auto-increment counter hands them out. */
  ghost predicate IdsIncreasing(news: seq<NewsRow>) {
    forall i, j :: 0 <= i < j < |news| ==> news[i].id < news[j].id
  }

  /** Every entry's id is below the next auto-increment value. */
  ghost predicate IdsBelow(news: seq<NewsRow>, next: int) {
    forall i :: 0 <= i < |news| ==> news[i].id < next
  }

  /**
   * SELECT timestamp,uuid,content FROM ab_news ORDER BY id DESC LIMIT 1: the
   * entry with the highest id, or no row on an empty table.
   */
  function LatestNews(news: seq<NewsRow>): (r: Option<NewsRow>)
    ensures r.None? <==> news == []
    ensures r.Some? ==> r.value in news
    ensures r.Some? ==> forall i :: 0 <= i < |news| ==> news[i].id <= r.value.id
  {
    if news == [] then None
    else match LatestNews(news[1..])
      case Some(e) => if e.id > news[0].id then Some(e) else Some(news[0])
      case None => Some(news[0])
  }

  /** INSERT INTO ab_news(content, uuid): the new entry gets the next id. */
  function AppendNews(news: seq<NewsRow>, next: int, content: string, stamp: Option<Timestamp>, author: Option<Uuid>): (r: seq<NewsRow>)
    ensures |r| == |news| + 1 && r[..|news|] == news
    ensures r[|news|] == NewsRow(next, content, stamp, author)
  {
    news + [NewsRow(next, content, stamp, author)]
  }

  /** On a table whose ids grow, the latest entry is the last one appended. */
  lemma LatestIsLast(news: seq<NewsRow>)
    requires IdsIncreasing(news) && news != []
    ensures LatestNews(news) == Some(news[|news| - 1])
  {
    var e := LatestNews(news).value;
    var j :| 0 <= j < |news| && news[j] == e;
    assert news[|news| - 1].id <= news[j].id;
  }

  /**
   * addNews followed by the startup read: the entry added last is the one
   * taken as latest, with the content and author given; the table's
   * invariants are kept.
   */
  lemma AddedNewsIsLatest(news: seq<NewsRow>, next: int, content: string, stamp: Option<Timestamp>, author: Option<Uuid>)
    requires IdsIncreasing(news) && IdsBelow(news, next)
    ensures var r := AppendNews(news, next, content, stamp, author);
      && LatestNews(r) == Some(NewsRow(next, content, stamp, author))
      && IdsIncreasing(r) && IdsBelow(r, next + 1)
  {
    var r := AppendNews(news, next, content, stamp, author);
    assert IdsIncreasing(r) by {
      forall i, j | 0 <= i < j < |r| ensures r[i].id < r[j].id {
        if j == |news| { assert r[i] == news[i]; } else { assert r[i] == news[i] && r[j] == news[j]; }
      }
    }
    LatestIsLast(r);
  }
}

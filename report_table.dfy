/** ab_reports: the priority/last update; report creation is not part of this model. */
module ReportTable {
  import opened Wrappers
  import opened Tables

  /**
   * UPDATE ab_reports SET last=?,priority=? WHERE id=?: only report `id`
   * changes, and only in its priority and last-touched columns.
   */
  function UpdatePriority(reports: map<int, ReportRow>, id: int, priority: int, now: Timestamp): (r: map<int, ReportRow>)
    ensures r.Keys == reports.Keys
    ensures forall k :: k in reports && k != id ==> r[k] == reports[k]
    ensures id in reports ==> r[id].priority == priority && r[id].last == Some(now)
    ensures id in reports ==> r[id] == reports[id].(priority := r[id].priority, last := r[id].last)
  {
    if id in reports then reports[id := reports[id].(priority := priority, last := Some(now))] else reports
  }
}

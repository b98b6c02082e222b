/**
 * The older theme-history panel: a month calendar over applied themes,
 * grouped by the day of `applied_at`, and an admin-only delete. The panel
 * keeps a tooltip state, but only ever clears it.
 */
module ThemeHistory {
  import opened Wrappers
  import Seqs
  import Calendar

  /** A legacy history record: applied themes with a preview snippet. */
  datatype AppliedEntry = AppliedEntry(id: string, themeName: string, appliedAt: string, previewSnippet: string)

  function AppliedAt(e: AppliedEntry): string {
    e.appliedAt
  }

  function IdOf(e: AppliedEntry): string {
    e.id
  }

  /** `byDate`, keyed by the day of `applied_at`: each entry sits in its own day's bucket and no other. */
  function ByDate(entries: seq<AppliedEntry>): (g: Calendar.Grouping<AppliedEntry>)
    ensures forall d :: d in g.buckets <==> exists i :: 0 <= i < |entries| && Calendar.DayKey(entries[i].appliedAt) == d
    ensures forall i :: 0 <= i < |entries| ==>
      Calendar.DayKey(entries[i].appliedAt) in g.buckets && entries[i] in g.buckets[Calendar.DayKey(entries[i].appliedAt)]
    ensures forall d :: d in g.buckets ==> forall x :: x in g.buckets[d] ==> Calendar.DayKey(x.appliedAt) == d
  {
    var g := Calendar.GroupByDay(entries, AppliedAt);
    assert forall d :: d in g.buckets ==> forall x :: x in g.buckets[d] ==> Calendar.DayKey(x.appliedAt) == d by {
      forall d | d in g.buckets
        ensures forall x :: x in g.buckets[d] ==> Calendar.DayKey(x.appliedAt) == d
      {
        Calendar.BucketIsDayFilter(entries, AppliedAt, d);
      }
    }
    assert forall i :: 0 <= i < |entries| ==> entries[i] in g.buckets[Calendar.DayKey(entries[i].appliedAt)] by {
      forall i | 0 <= i < |entries|
        ensures entries[i] in g.buckets[Calendar.DayKey(entries[i].appliedAt)]
      {
        var d := Calendar.DayKey(entries[i].appliedAt);
        Calendar.BucketIsDayFilter(entries, AppliedAt, d);
        assert Calendar.OnDay(AppliedAt, d)(entries[i]);
      }
    }
    g
  }

  /** A day click: toggles the selected day and hides the tooltip. */
  function ClickDay(s: Calendar.Selection<AppliedEntry>, dateKey: string): (r: Calendar.Selection<AppliedEntry>)
    ensures r.preview.None?
    ensures r.day == if s.day == Some(dateKey) then None else Some(dateKey)
  {
    Calendar.ClickDay(s, dateKey)
  }

  /** `deleteEntry`: a request failure or refusal leaves everything as it was. */
  function DeleteEntry(entries: seq<AppliedEntry>, tooltip: Option<AppliedEntry>, id: string,
                       password: Option<string>, serverAccepts: bool): (r: (seq<AppliedEntry>, Option<AppliedEntry>))
    ensures Calendar.DeleteOutcomeOf(password, serverAccepts) != Calendar.Accepted ==> r == (entries, tooltip)
    ensures Calendar.DeleteOutcomeOf(password, serverAccepts) == Calendar.Accepted ==>
      && (forall i :: 0 <= i < |r.0| ==> r.0[i].id != id)
      && (forall i :: 0 <= i < |entries| && entries[i].id != id ==> entries[i] in r.0)
      && |r.0| <= |entries|
      && r.0 == Seqs.Filter(entries, Calendar.WithoutId(IdOf, id))
      && r.1 == (if tooltip.Some? && tooltip.value.id == id then None else tooltip)
  {
    Calendar.DeleteFromView(entries, tooltip, IdOf, id, Calendar.DeleteOutcomeOf(password, serverAccepts))
  }
}

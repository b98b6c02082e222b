/**
 * The generation-history page: a month calendar over every logged generation,
 * grouped by the day of `generated_at`, with a per-month count of generated
 * and saved sites, today's date selected whenever the entry list changes
 * (on load and after each delete) while today has entries, and an admin-only
 * delete.
 */
module ThemeHistoryPage {
  import opened Wrappers
  import opened Text
  import Seqs
  import Calendar

  /** A record as the history endpoint returns it. */
  datatype HistoryEntry = HistoryEntry(id: string, themeName: string, generatedAt: string, saved: bool, code: string)

  function GeneratedAt(e: HistoryEntry): string {
    e.generatedAt
  }

  function IdOf(e: HistoryEntry): string {
    e.id
  }

  /** `byDate`, keyed by the day of `generated_at`. */
  function ByDate(entries: seq<HistoryEntry>): (g: Calendar.Grouping<HistoryEntry>)
    ensures forall d :: d in g.buckets <==> exists i :: 0 <= i < |entries| && Calendar.DayKey(entries[i].generatedAt) == d
    ensures forall d :: d in g.buckets <==> d in g.days
  {
    Calendar.GroupByDay(entries, GeneratedAt)
  }

  /** Each entry is in the bucket of its own day, and only there; the buckets together hold every entry once. */
  lemma EveryEntryInItsDay(entries: seq<HistoryEntry>, i: nat, d: string)
    requires i < |entries|
    ensures var g := ByDate(entries);
      && Calendar.DayKey(entries[i].generatedAt) in g.buckets
      && entries[i] in g.buckets[Calendar.DayKey(entries[i].generatedAt)]
      && (d in g.buckets ==> forall x :: x in g.buckets[d] ==> Calendar.DayKey(x.generatedAt) == d)
      && Calendar.SumSizes(g.days, g.buckets) == |entries|
  {
    var own := Calendar.DayKey(entries[i].generatedAt);
    Calendar.BucketIsDayFilter(entries, GeneratedAt, own);
    Calendar.BucketIsDayFilter(entries, GeneratedAt, d);
    assert Calendar.OnDay(GeneratedAt, own)(entries[i]);
    Calendar.BucketSizesSumToEntries(entries, GeneratedAt);
  }

  /** The "This month" panel: how many entries fall in the month on show, and how many of those were saved. */
  datatype Summary = Summary(generated: nat, saved: nat)

  function InMonth(view: Calendar.MonthView): HistoryEntry -> bool
    requires view.year >= 0 && Calendar.ValidMonth(view)
  {
    (e: HistoryEntry) => StartsWith(e.generatedAt, Calendar.MonthPrefix(view.year, view.month))
  }

  function IsSaved(e: HistoryEntry): bool {
    e.saved
  }

  /** The month summary: saved sites are counted among the generated ones. */
  function MonthSummary(entries: seq<HistoryEntry>, view: Calendar.MonthView): (r: Summary)
    requires view.year >= 0 && Calendar.ValidMonth(view)
    ensures r.generated == |Seqs.Filter(entries, InMonth(view))|
    ensures r.saved <= r.generated <= |entries|
    ensures r.saved == |Seqs.Filter(Seqs.Filter(entries, InMonth(view)), IsSaved)|
  {
    var monthEntries := Seqs.Filter(entries, InMonth(view));
    Summary(|monthEntries|, |Seqs.Filter(monthEntries, IsSaved)|)
  }

  /** An entry shown under a day cell of the month on show is counted in that month's summary. */
  lemma DayCellEntriesCountInMonth(entries: seq<HistoryEntry>, view: Calendar.MonthView, day: nat, e: HistoryEntry)
    requires 1000 <= view.year <= 9999 && Calendar.ValidMonth(view) && day <= 99
    requires var g := ByDate(entries);
      var key := Calendar.DateKey(view.year, view.month, day);
      key in g.buckets && e in g.buckets[key]
    ensures e in Seqs.Filter(entries, InMonth(view))
  {
    var key := Calendar.DateKey(view.year, view.month, day);
    Calendar.DateKeyReadsBack(view.year, view.month, day);
    Calendar.BucketIsDayFilter(entries, GeneratedAt, key);
    assert Calendar.DayKey(e.generatedAt) == key;
    DayIsInMonth(e.generatedAt, key, Calendar.MonthPrefix(view.year, view.month));
    assert InMonth(view)(e);
  }

  /** A timestamp on a day whose key begins with a month's prefix begins with it too. */
  lemma DayIsInMonth(stamp: string, key: string, prefix: string)
    requires |key| == 10 && |prefix| == 7 && key[..7] == prefix && Calendar.DayKey(stamp) == key
    ensures StartsWith(stamp, prefix)
  {
    assert stamp[..10] == key;
    assert stamp[..7] == key[..7];
  }

  /**
   * The effect that runs whenever the entry list changes (the fetch on load
   * and every successful delete): today is selected iff some entry was
   * generated today; otherwise the selection stays.
   */
  function AutoSelectToday(entries: seq<HistoryEntry>, selected: Option<string>, today: string): (r: Option<string>)
    ensures (exists i :: 0 <= i < |entries| && Calendar.DayKey(entries[i].generatedAt) == today) ==> r == Some(today)
    ensures !(exists i :: 0 <= i < |entries| && Calendar.DayKey(entries[i].generatedAt) == today) ==> r == selected
  {
    if |entries| == 0 then selected
    else if exists i :: 0 <= i < |entries| && Calendar.DayKey(entries[i].generatedAt) == today then Some(today)
    else selected
  }

  /** An auto-selected day always lists at least one entry. */
  lemma AutoSelectedDayIsNotEmpty(entries: seq<HistoryEntry>, selected: Option<string>, today: string)
    requires AutoSelectToday(entries, selected, today) != selected
    ensures Calendar.SelectedEntries(ByDate(entries), AutoSelectToday(entries, selected, today)) != []
  {
    Calendar.BucketIsDayFilter(entries, GeneratedAt, today);
  }

  /** `deleteEntry`: the list and the open preview after the prompt and the server's answer. */
  function DeleteEntry(entries: seq<HistoryEntry>, preview: Option<HistoryEntry>, id: string,
                       password: Option<string>, serverAccepts: bool): (r: (seq<HistoryEntry>, Option<HistoryEntry>))
    ensures Calendar.DeleteOutcomeOf(password, serverAccepts) != Calendar.Accepted ==> r == (entries, preview)
    ensures Calendar.DeleteOutcomeOf(password, serverAccepts) == Calendar.Accepted ==>
      && (forall i :: 0 <= i < |r.0| ==> r.0[i].id != id)
      && (forall i :: 0 <= i < |entries| && entries[i].id != id ==> entries[i] in r.0)
      && r.0 == Seqs.Filter(entries, Calendar.WithoutId(IdOf, id))
      && r.1 == (if preview.Some? && preview.value.id == id then None else preview)
  {
    Calendar.DeleteFromView(entries, preview, IdOf, id, Calendar.DeleteOutcomeOf(password, serverAccepts))
  }

  /** After a delete each day's bucket is the old bucket without the deleted entries. */
  lemma DeleteShrinksEachDay(entries: seq<HistoryEntry>, id: string, d: string)
    ensures var after := Calendar.DeleteFromView(entries, None, IdOf, id, Calendar.Accepted).0;
      var before := ByDate(entries);
      var now := ByDate(after);
      && (d in now.buckets ==> d in before.buckets)
      && (d in now.buckets ==> now.buckets[d] == Seqs.Filter(before.buckets[d], Calendar.WithoutId(IdOf, id)))
  {
    var notId := Calendar.WithoutId(IdOf, id);
    var onDay := Calendar.OnDay(GeneratedAt, d);
    var after := Seqs.Filter(entries, notId);
    Calendar.BucketIsDayFilter(entries, GeneratedAt, d);
    Calendar.BucketIsDayFilter(after, GeneratedAt, d);
    Seqs.FilterCommute(entries, notId, onDay);
    assert Seqs.Filter(after, onDay) == Seqs.Filter(Seqs.Filter(entries, onDay), notId);
    assert Seqs.Filter([], notId) == [];
  }

  /** What the page shows: the entries, the selected day and the open preview. */
  datatype PageState = PageState(entries: seq<HistoryEntry>, selected: Option<string>, preview: Option<HistoryEntry>)

  /**
   * A delete as the page lives through it: `deleteEntry`, and then, when the
   * server accepted, the auto-select effect, which the new entry list re-runs.
   */
  function DeleteThenReselect(s: PageState, id: string, password: Option<string>, serverAccepts: bool,
                              today: string): (r: PageState)
    ensures Calendar.DeleteOutcomeOf(password, serverAccepts) != Calendar.Accepted ==> r == s
    ensures Calendar.DeleteOutcomeOf(password, serverAccepts) == Calendar.Accepted ==>
      (r.entries, r.preview) == DeleteEntry(s.entries, s.preview, id, password, serverAccepts)
  {
    var (entries, preview) := DeleteEntry(s.entries, s.preview, id, password, serverAccepts);
    if Calendar.DeleteOutcomeOf(password, serverAccepts) != Calendar.Accepted then s
    else PageState(entries, AutoSelectToday(entries, s.selected, today), preview)
  }

  /** Some entry other than those with `id` was generated on `today`. */
  predicate TodayKeepsAnEntry(entries: seq<HistoryEntry>, id: string, today: string) {
    exists i :: 0 <= i < |entries| && entries[i].id != id && Calendar.DayKey(entries[i].generatedAt) == today
  }

  /**
   * After an accepted delete the selection jumps back to today while some other
   * entry of today remains; otherwise it stays, even on a day the delete emptied.
   */
  lemma DeleteReselectsToday(s: PageState, id: string, password: Option<string>, serverAccepts: bool, today: string)
    requires Calendar.DeleteOutcomeOf(password, serverAccepts) == Calendar.Accepted
    ensures var r := DeleteThenReselect(s, id, password, serverAccepts, today);
      r.selected == if TodayKeepsAnEntry(s.entries, id, today) then Some(today) else s.selected
  {
    var r := DeleteThenReselect(s, id, password, serverAccepts, today);
    var after := Seqs.Filter(s.entries, Calendar.WithoutId(IdOf, id));
    assert r.entries == after;
    if TodayKeepsAnEntry(s.entries, id, today) {
      var i :| 0 <= i < |s.entries| && s.entries[i].id != id && Calendar.DayKey(s.entries[i].generatedAt) == today;
      assert s.entries[i] in after;
      var j :| 0 <= j < |after| && after[j] == s.entries[i];
      assert Calendar.DayKey(after[j].generatedAt) == today;
    } else {
      forall j | 0 <= j < |after|
        ensures Calendar.DayKey(after[j].generatedAt) != today
      {
        assert after[j] in s.entries;
        var i :| 0 <= i < |s.entries| && s.entries[i] == after[j];
        assert s.entries[i].id != id;
      }
    }
  }
}

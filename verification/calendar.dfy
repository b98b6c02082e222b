/**
 * The calendar logic the two history views share: bucketing entries by the
 * `YYYY-MM-DD` prefix of a timestamp, month navigation with wrap-around, the
 * day keys the grid cells look up, toggling the selected day, and dropping
 * deleted entries. Each view supplies its entry type and which timestamp it
 * groups on; the day count of a month and the first weekday come from the
 * platform's date library and are not part of the model.
 */
module Calendar {
  import opened Wrappers
  import opened Text
  import Seqs

  /** `s.slice(0, 10)`: the day part of an ISO timestamp. */
  function DayKey(s: string): (r: string)
    ensures |r| == if |s| < 10 then |s| else 10
    ensures r == s[..|r|]
  {
    if |s| < 10 then s else s[..10]
  }

  /** Whether an entry's timestamp falls on day `d`. */
  function OnDay<T>(stamp: T -> string, d: string): T -> bool {
    e => DayKey(stamp(e)) == d
  }

  /** The `byDate` record: its keys in insertion order, and the entries under each key. */
  datatype Grouping<T> = Grouping(days: seq<string>, buckets: map<string, seq<T>>)

  predicate Distinct(days: seq<string>) {
    forall i, j :: 0 <= i < j < |days| ==> days[i] != days[j]
  }

  /**
   * The `byDate` loop: each entry is pushed onto the bucket of its day, which
   * is created on first use; the keys are exactly the days that occur, each
   * once, in order of first appearance.
   */
  function GroupByDay<T>(entries: seq<T>, stamp: T -> string): (g: Grouping<T>)
    ensures forall d :: d in g.buckets <==> d in g.days
    ensures Distinct(g.days)
    ensures forall d :: d in g.days <==> exists i :: 0 <= i < |entries| && DayKey(stamp(entries[i])) == d
    decreases |entries|
  {
    if entries == [] then Grouping([], map[])
    else
      var g := GroupByDay(entries[..|entries| - 1], stamp);
      var e := entries[|entries| - 1];
      var d := DayKey(stamp(e));
      assert forall i :: 0 <= i < |entries| - 1 ==> entries[..|entries| - 1][i] == entries[i];
      if d in g.buckets then Grouping(g.days, g.buckets[d := g.buckets[d] + [e]])
      else Grouping(g.days + [d], g.buckets[d := [e]])
  }

  /** A bucket holds exactly the entries of its day, in input order; a day with no bucket has no entries. */
  lemma {:induction false} BucketIsDayFilter<T>(entries: seq<T>, stamp: T -> string, d: string)
    ensures var g := GroupByDay(entries, stamp);
      && (d in g.buckets ==> g.buckets[d] == Seqs.Filter(entries, OnDay(stamp, d)) && g.buckets[d] != [])
      && (d !in g.buckets ==> Seqs.Filter(entries, OnDay(stamp, d)) == [])
    decreases |entries|
  {
    if entries != [] {
      var prefix, e := entries[..|entries| - 1], entries[|entries| - 1];
      assert entries == prefix + [e];
      var p := OnDay(stamp, d);
      BucketIsDayFilter(prefix, stamp, d);
      Seqs.FilterSnoc(prefix, e, p);
      assert p(e) == (DayKey(stamp(e)) == d);
      GroupStep(prefix, e, stamp, d);
    }
  }

  /** Grouping one more entry adds it to the end of its day's bucket and touches no other day. */
  lemma GroupStep<T>(prefix: seq<T>, e: T, stamp: T -> string, d: string)
    ensures var g, g0, hit := GroupByDay(prefix + [e], stamp), GroupByDay(prefix, stamp), DayKey(stamp(e)) == d;
      && (d in g.buckets <==> d in g0.buckets || hit)
      && (d in g.buckets ==>
        g.buckets[d] == (if d in g0.buckets then g0.buckets[d] else []) + (if hit then [e] else []))
  {
    var entries := prefix + [e];
    assert entries[..|entries| - 1] == prefix && entries[|entries| - 1] == e;
  }

  /** The total size of the buckets named in `days`. */
  function SumSizes<T>(days: seq<string>, buckets: map<string, seq<T>>): nat
    requires forall d :: d in days ==> d in buckets
  {
    if days == [] then 0
    else SumSizes(days[..|days| - 1], buckets) + |buckets[days[|days| - 1]]|
  }

  /** Every entry lands in exactly one bucket: the bucket sizes add up to the number of entries. */
  lemma {:induction false} BucketSizesSumToEntries<T>(entries: seq<T>, stamp: T -> string)
    ensures var g := GroupByDay(entries, stamp);
      SumSizes(g.days, g.buckets) == |entries|
    decreases |entries|
  {
    if entries != [] {
      var prefix := entries[..|entries| - 1];
      var e := entries[|entries| - 1];
      var g := GroupByDay(prefix, stamp);
      BucketSizesSumToEntries(prefix, stamp);
      var d := DayKey(stamp(e));
      if d in g.buckets {
        SumSizesGrow(g.days, g.buckets, d, e);
      } else {
        var m := g.buckets[d := [e]];
        SumSizesOther(g.days, g.buckets, d, [e]);
        assert (g.days + [d])[..|g.days|] == g.days;
      }
    }
  }

  /** Changing a bucket not named in `days` does not change their total. */
  lemma {:induction false} SumSizesOther<T>(days: seq<string>, buckets: map<string, seq<T>>, d: string, v: seq<T>)
    requires forall x :: x in days ==> x in buckets
    requires d !in days
    ensures SumSizes(days, buckets[d := v]) == SumSizes(days, buckets)
    decreases |days|
  {
    if days != [] {
      var init := days[..|days| - 1];
      assert forall x :: x in init ==> x in days;
      SumSizesOther(init, buckets, d, v);
    }
  }

  /** Appending an entry to a bucket named once in `days` raises their total by one. */
  lemma {:induction false} SumSizesGrow<T>(days: seq<string>, buckets: map<string, seq<T>>, d: string, e: T)
    requires forall x :: x in days ==> x in buckets
    requires Distinct(days) && d in days
    ensures SumSizes(days, buckets[d := buckets[d] + [e]]) == SumSizes(days, buckets) + 1
    decreases |days|
  {
    var init := days[..|days| - 1];
    var last := days[|days| - 1];
    assert forall x :: x in init ==> x in days;
    if last == d {
      assert forall i :: 0 <= i < |init| ==> init[i] != d by {
        forall i | 0 <= i < |init|
          ensures init[i] != d
        {
          assert init[i] == days[i];
        }
      }
      SumSizesOther(init, buckets, d, buckets[d] + [e]);
    } else {
      assert d in init by {
        var i :| 0 <= i < |days| && days[i] == d;
        assert i < |days| - 1;
        assert init[i] == d;
      }
      SumSizesGrow(init, buckets, d, e);
    }
  }

  /** `selected ? (byDate[selected] ?? []) : []`: the entries listed for the selected day. */
  function SelectedEntries<T>(g: Grouping<T>, selected: Option<string>): (r: seq<T>)
    ensures selected.None? ==> r == []
    ensures selected.Some? && selected.value in g.buckets ==> r == g.buckets[selected.value]
    ensures selected.Some? && selected.value !in g.buckets ==> r == []
  {
    match selected
    case None => []
    case Some(d) => if d in g.buckets then g.buckets[d] else []
  }

  /** The month on show: `month` counts from 0 as `Date.getMonth` does. */
  datatype MonthView = MonthView(year: int, month: int)

  predicate ValidMonth(v: MonthView) {
    0 <= v.month <= 11
  }

  /** A month's position on a single timeline. */
  function MonthIndex(v: MonthView): int {
    v.year * 12 + v.month
  }

  /** `prevMonth`: January steps back to December of the previous year. */
  function PrevMonth(v: MonthView): (r: MonthView)
    ensures MonthIndex(r) == MonthIndex(v) - 1
    ensures ValidMonth(v) ==> ValidMonth(r)
  {
    if v.month == 0 then MonthView(v.year - 1, 11) else MonthView(v.year, v.month - 1)
  }

  /** `nextMonth`: December steps on to January of the next year. */
  function NextMonth(v: MonthView): (r: MonthView)
    ensures MonthIndex(r) == MonthIndex(v) + 1
    ensures ValidMonth(v) ==> ValidMonth(r)
  {
    if v.month == 11 then MonthView(v.year + 1, 0) else MonthView(v.year, v.month + 1)
  }

  /** On valid months the two buttons undo each other. */
  lemma PrevNextInverse(v: MonthView)
    requires ValidMonth(v)
    ensures NextMonth(PrevMonth(v)) == v
    ensures PrevMonth(NextMonth(v)) == v
  {
  }

  /** `String(n).padStart(2, "0")`. */
  function Pad2(n: nat): (r: string)
    ensures n < 10 ==> r == ['0', Digit(n)]
    ensures n >= 10 ==> r == NatToDecimal(n)
    ensures forall i :: 0 <= i < |r| ==> '0' <= r[i] <= '9'
    ensures n < 100 ==> |r| == 2 && DecimalValue(r) == n
  {
    if n < 10 then
      DecimalRoundTrip(n);
      assert ['0', Digit(n)][..1] == ['0'];
      ['0', Digit(n)]
    else
      assert n < 100 ==> NatToDecimal(n) == NatToDecimal(n / 10) + [Digit(n % 10)];
      DecimalRoundTrip(n);
      NatToDecimal(n)
  }

  /** The key a grid cell looks up: `year-MM-DD`, with a 1-based month. */
  function DateKey(year: nat, month: nat, day: nat): string {
    NatToDecimal(year) + "-" + Pad2(month + 1) + "-" + Pad2(day)
  }

  /** The prefix the month summary looks for: `year-MM`. */
  function MonthPrefix(year: nat, month: nat): string {
    NatToDecimal(year) + "-" + Pad2(month + 1)
  }

  /** A four-digit year is written with four digits. */
  lemma FourDigitYear(year: nat)
    requires 1000 <= year <= 9999
    ensures |NatToDecimal(year)| == 4
  {
    assert |NatToDecimal(year / 1000)| == 1;
    assert |NatToDecimal(year / 100)| == 2 by { assert (year / 100) / 10 == year / 1000; }
    assert |NatToDecimal(year / 10)| == 3 by { assert (year / 10) / 10 == year / 100; }
  }

  /**
   * For four-digit years a date key is exactly ten characters, so it is its own
   * day prefix, and year, month and day can be read back from it.
   */
  lemma DateKeyReadsBack(year: nat, month: nat, day: nat)
    requires 1000 <= year <= 9999 && month <= 11 && day <= 99
    ensures var k := DateKey(year, month, day);
      && |k| == 10
      && DayKey(k) == k
      && k[..7] == MonthPrefix(year, month)
      && k[4] == '-' && k[7] == '-'
      && DecimalValue(k[..4]) == year
      && DecimalValue(k[5..7]) == month + 1
      && DecimalValue(k[8..]) == day
  {
    var k := DateKey(year, month, day);
    FourDigitYear(year);
    DecimalRoundTrip(year);
    var y := NatToDecimal(year);
    var mm := Pad2(month + 1);
    var dd := Pad2(day);
    assert k == y + "-" + mm + "-" + dd;
    assert k[..4] == y;
    assert k[5..7] == mm;
    assert k[8..] == dd;
    assert k[..7] == y + "-" + mm;
  }

  /** Distinct calendar cells of four-digit years have distinct keys. */
  lemma DateKeyInjective(y1: nat, m1: nat, d1: nat, y2: nat, m2: nat, d2: nat)
    requires 1000 <= y1 <= 9999 && m1 <= 11 && d1 <= 99
    requires 1000 <= y2 <= 9999 && m2 <= 11 && d2 <= 99
    requires DateKey(y1, m1, d1) == DateKey(y2, m2, d2)
    ensures y1 == y2 && m1 == m2 && d1 == d2
  {
    DateKeyReadsBack(y1, m1, d1);
    DateKeyReadsBack(y2, m2, d2);
  }

  /** The selection and the open preview of a history view. */
  datatype Selection<T> = Selection(day: Option<string>, preview: Option<T>)

  /** A click on a day cell: selects it, or deselects it when it was selected; the preview always closes. */
  function ClickDay<T>(s: Selection<T>, dateKey: string): (r: Selection<T>)
    ensures r.preview.None?
    ensures r.day == Some(dateKey) <==> s.day != Some(dateKey)
    ensures r.day.None? <==> s.day == Some(dateKey)
  {
    Selection(if s.day == Some(dateKey) then None else Some(dateKey), None)
  }

  /** Two clicks on the same cell give back the selection, when it was that cell or nothing. */
  lemma ClickTwiceRestores<T>(s: Selection<T>, dateKey: string)
    requires s.day.None? || s.day == Some(dateKey)
    ensures ClickDay(ClickDay(s, dateKey), dateKey).day == s.day
  {
  }

  /** Whether the server accepted a delete; a prompt answered with nothing sends no request. */
  datatype DeleteOutcome = PromptCancelled | Rejected | Accepted

  /** `password` is what `window.prompt` returned; `!password` holds for `null` and for "". */
  function DeleteOutcomeOf(password: Option<string>, serverAccepts: bool): (r: DeleteOutcome)
    ensures r == PromptCancelled <==> password.None? || password.value == ""
    ensures r == Accepted <==> password.Some? && password.value != "" && serverAccepts
  {
    if password.None? || password.value == "" then PromptCancelled
    else if serverAccepts then Accepted
    else Rejected
  }

  /** `e => e.id !== id`: what a successful delete keeps. */
  function WithoutId<T>(idOf: T -> string, id: string): T -> bool {
    e => idOf(e) != id
  }

  /**
   * `deleteEntry` on a view's list and open entry: when the server accepts, the
   * entries with that id go and the open entry closes iff it had that id;
   * otherwise nothing changes.
   */
  function DeleteFromView<T>(entries: seq<T>, open: Option<T>, idOf: T -> string, id: string, outcome: DeleteOutcome): (r: (seq<T>, Option<T>))
    ensures outcome != Accepted ==> r == (entries, open)
    ensures outcome == Accepted ==>
      && (forall i :: 0 <= i < |r.0| ==> idOf(r.0[i]) != id)
      && (forall i :: 0 <= i < |entries| && idOf(entries[i]) != id ==> entries[i] in r.0)
      && r.0 == Seqs.Filter(entries, WithoutId(idOf, id))
      && r.1 == (if open.Some? && idOf(open.value) == id then None else open)
  {
    if outcome != Accepted then (entries, open)
    else
      (Seqs.Filter(entries, WithoutId(idOf, id)), if open.Some? && idOf(open.value) == id then None else open)
  }
}

/**
 * The back end's theme-history list. The history file holds a JSON list of
 * records; older records may carry `applied_at` and `preview_snippet` instead
 * of `generated_at` and `code`. Reading normalises every record it can turn
 * into something previewable and skips the rest; appending, marking as saved
 * and deleting rewrite the raw list. The file itself and the clock are outside
 * the model: the loaded list and the two clock readings are inputs.
 */
module ThemeSave {
  import opened Wrappers
  import opened JsonValue
  import opened Text
  import Seqs

  /** A record as the history endpoint returns it. */
  datatype HistoryEntry = HistoryEntry(id: string, themeName: string, generatedAt: string, saved: bool, code: string)

  /** The two clock readings the code takes: an ISO timestamp and a compact `%Y%m%d_%H%M%S%f` stamp. */
  datatype Clock = Clock(isoNow: string, idStamp: string)

  /** A real clock never yields blank text. */
  predicate ValidClock(c: Clock) {
    !PyBlank(c.isoNow) && !PyBlank(c.idStamp)
  }

  const Untitled := "untitled"

  /** `isinstance(v, str) and v.strip()`: a string value with some non-space character. */
  predicate Usable(v: Option<Json>) {
    v.Some? && v.value.JStr? && !PyBlank(v.value.s)
  }

  /** `_load_history`: a missing or unreadable file is an empty list; `None` when the file holds something other than a list. */
  function LoadHistory(stored: Stored): (r: Option<seq<Json>>)
    ensures stored.Missing? || stored.Unparsable? ==> r == Some([])
    ensures r.Some? && stored.Parsed? ==> stored.value == JArr(r.value)
  {
    match stored
    case Missing => Some([])
    case Unparsable => Some([])
    case Parsed(JArr(items)) => Some(items)
    case Parsed(_) => None
  }

  /** The JSON record `_save_history` writes for an entry. */
  function ToJson(e: HistoryEntry): Json {
    JObj(map[
      "id" := JStr(e.id), "theme_name" := JStr(e.themeName), "generated_at" := JStr(e.generatedAt),
      "saved" := JBool(e.saved), "code" := JStr(e.code)])
  }

  /** `_normalize_history_entry`: reads a current or legacy record, or skips one with nothing to preview. */
  function NormalizeHistoryEntry(entry: map<string, Json>, clock: Clock): (r: Option<HistoryEntry>)
    ensures r.None? <==> !Usable(Get(entry, "code")) && !Usable(Get(entry, "preview_snippet"))
    ensures r.Some? ==>
      && !PyBlank(r.value.code)
      && r.value.code == (if Usable(Get(entry, "code")) then entry["code"] else entry["preview_snippet"]).s
    ensures r.Some? ==>
      r.value.generatedAt ==
        if Usable(Get(entry, "generated_at")) then entry["generated_at"].s
        else if Usable(Get(entry, "applied_at")) then entry["applied_at"].s
        else clock.isoNow
    ensures r.Some? ==>
      r.value.saved ==
        if "saved" in entry && entry["saved"].JBool? then entry["saved"].b
        else PyTruthy(Get(entry, "applied_at"))
    ensures r.Some? ==> r.value.themeName == if Usable(Get(entry, "theme_name")) then entry["theme_name"].s else Untitled
    ensures r.Some? ==> r.value.id == if Usable(Get(entry, "id")) then entry["id"].s else clock.idStamp
    ensures r.Some? && ValidClock(clock) ==>
      !PyBlank(r.value.id) && !PyBlank(r.value.themeName) && !PyBlank(r.value.generatedAt)
  {
    var code := Get(entry, "code");
    var snippet := Get(entry, "preview_snippet");
    if !Usable(code) && !Usable(snippet) then None
    else
      var body := if Usable(code) then code.value.s else snippet.value.s;
      var generatedAt := Get(entry, "generated_at");
      var appliedAt := Get(entry, "applied_at");
      var when :=
        if Usable(generatedAt) then generatedAt.value.s
        else if Usable(appliedAt) then appliedAt.value.s
        else clock.isoNow;
      var saved := Get(entry, "saved");
      var isSaved := if saved.Some? && saved.value.JBool? then saved.value.b else PyTruthy(appliedAt);
      var name := Get(entry, "theme_name");
      var themeName := if Usable(name) then name.value.s else Untitled;
      assert !PyBlank(Untitled) by { assert !IsPySpace(Untitled[0]); }
      var id := Get(entry, "id");
      var entryId := if Usable(id) then id.value.s else clock.idStamp;
      Some(HistoryEntry(entryId, themeName, when, isSaved, body))
  }

  /** The entry a well-formed current record normalises to, under any clock. */
  lemma NormalizeIsIdentityOnCurrentRecords(e: HistoryEntry, clock: Clock)
    requires !PyBlank(e.id) && !PyBlank(e.themeName) && !PyBlank(e.generatedAt) && !PyBlank(e.code)
    ensures NormalizeHistoryEntry(ToJson(e).fields, clock) == Some(e)
  {
  }

  /** Normalising twice changes nothing: what the endpoint returns is a fixed point. */
  lemma NormalizeIdempotent(entry: map<string, Json>, clock: Clock, later: Clock)
    requires ValidClock(clock)
    requires NormalizeHistoryEntry(entry, clock).Some?
    ensures var e := NormalizeHistoryEntry(entry, clock).value;
      NormalizeHistoryEntry(ToJson(e).fields, later) == Some(e)
  {
    NormalizeIsIdentityOnCurrentRecords(NormalizeHistoryEntry(entry, clock).value, later);
  }

  /** Whether `get_history` keeps a raw list element. */
  predicate Kept(e: Json, clock: Clock) {
    e.JObj? && NormalizeHistoryEntry(e.fields, clock).Some?
  }

  /** `get_history`: the normalised records, skipping non-objects and unpreviewable ones, in list order. */
  function GetHistory(entries: seq<Json>, clock: Clock): (r: seq<HistoryEntry>)
    ensures |r| <= |entries|
  {
    if entries == [] then []
    else
      var rest := GetHistory(entries[1..], clock);
      if Kept(entries[0], clock) then [NormalizeHistoryEntry(entries[0].fields, clock).value] + rest
      else rest
  }

  /** The history lists exactly as many records as the raw list has kept elements. */
  lemma {:induction false} GetHistoryCountsKept(entries: seq<Json>, clock: Clock)
    ensures |GetHistory(entries, clock)| == |Seqs.Filter(entries, e => Kept(e, clock))|
    decreases |entries|
  {
    if entries != [] {
      GetHistoryCountsKept(entries[1..], clock);
    }
  }

  /** Every listed record has some code to preview. */
  lemma {:induction false} ListedCodeIsNotBlank(entries: seq<Json>, clock: Clock)
    ensures forall h :: h in GetHistory(entries, clock) ==> !PyBlank(h.code)
    decreases |entries|
  {
    if entries != [] {
      ListedCodeIsNotBlank(entries[1..], clock);
    }
  }

  /** Reading a concatenated list reads each part in turn. */
  lemma {:induction false} GetHistoryConcat(a: seq<Json>, b: seq<Json>, clock: Clock)
    ensures GetHistory(a + b, clock) == GetHistory(a, clock) + GetHistory(b, clock)
    decreases |a|
  {
    if a == [] {
      assert a + b == b;
    } else {
      var h := if Kept(a[0], clock) then [NormalizeHistoryEntry(a[0].fields, clock).value] else [];
      assert (a + b)[0] == a[0];
      assert (a + b)[1..] == a[1..] + b;
      assert GetHistory(a + b, clock) == h + GetHistory(a[1..] + b, clock);
      GetHistoryConcat(a[1..], b, clock);
      assert h + (GetHistory(a[1..], clock) + GetHistory(b, clock)) == (h + GetHistory(a[1..], clock)) + GetHistory(b, clock);
    }
  }

  /** The three records of the legacy-compatibility scenario: a legacy one, a current one, one with blank code. */
  const LegacyRecord := JObj(map[
    "id" := JStr("legacy_1"), "theme_name" := JStr("old"),
    "applied_at" := JStr("2026-02-19T08:26:39.440968"),
    "preview_snippet" := JStr("<body>legacy</body>")])
  const CurrentRecord := JObj(map[
    "id" := JStr("new_1"), "theme_name" := JStr("new"),
    "generated_at" := JStr("2026-02-20T03:15:05.894088"),
    "saved" := JBool(false), "code" := JStr("<body>new</body>")])
  const BlankCodeRecord := JObj(map[
    "id" := JStr("bad_1"), "theme_name" := JStr("bad"),
    "generated_at" := JStr("2026-02-20T03:15:05.894088"),
    "saved" := JBool(false), "code" := JStr("   ")])

  /** A legacy record takes its code from the snippet, its date from `applied_at`, and counts as saved. */
  lemma LegacyRecordNormalizes(clock: Clock)
    ensures NormalizeHistoryEntry(LegacyRecord.fields, clock) ==
      Some(HistoryEntry("legacy_1", "old", "2026-02-19T08:26:39.440968", true, "<body>legacy</body>"))
  {
    var f := LegacyRecord.fields;
    assert !Usable(Get(f, "code")) && !Usable(Get(f, "generated_at")) && !("saved" in f);
    assert Usable(Get(f, "preview_snippet")) by { assert !IsPySpace(f["preview_snippet"].s[0]); }
    assert Usable(Get(f, "applied_at")) by { assert !IsPySpace(f["applied_at"].s[0]); }
    assert Usable(Get(f, "theme_name")) by { assert !IsPySpace(f["theme_name"].s[0]); }
    assert Usable(Get(f, "id")) by { assert !IsPySpace(f["id"].s[0]); }
    LegacyShapeNormalizes(f, clock);
  }

  /** A record in the legacy shape reads its code from the snippet and its date from `applied_at`, and counts as saved. */
  lemma LegacyShapeNormalizes(f: map<string, Json>, clock: Clock)
    requires !Usable(Get(f, "code")) && !Usable(Get(f, "generated_at")) && "saved" !in f
    requires Usable(Get(f, "preview_snippet")) && Usable(Get(f, "applied_at"))
    requires Usable(Get(f, "theme_name")) && Usable(Get(f, "id"))
    ensures NormalizeHistoryEntry(f, clock) ==
      Some(HistoryEntry(f["id"].s, f["theme_name"].s, f["applied_at"].s, true, f["preview_snippet"].s))
  {
  }

  /** A current record lists with its own id. */
  lemma CurrentRecordNormalizes(clock: Clock)
    ensures NormalizeHistoryEntry(CurrentRecord.fields, clock).Some?
    ensures NormalizeHistoryEntry(CurrentRecord.fields, clock).value.id == "new_1"
  {
    var f := CurrentRecord.fields;
    assert Usable(Get(f, "code")) by { assert !IsPySpace(f["code"].s[0]); }
    assert Usable(Get(f, "id")) by { assert !IsPySpace(f["id"].s[0]); }
  }

  /** A record whose code is only spaces, with no snippet, is skipped. */
  lemma BlankCodeRecordIsSkipped(clock: Clock)
    ensures !Kept(BlankCodeRecord, clock)
  {
    var f := BlankCodeRecord.fields;
    assert PyBlank(f["code"].s) by {
      assert forall i :: 0 <= i < |f["code"].s| ==> f["code"].s[i] == ' ';
    }
    assert !Usable(Get(f, "code")) && !Usable(Get(f, "preview_snippet"));
  }

  /** The legacy-compatibility scenario: the two previewable records list, in order, the legacy one as saved. */
  lemma LegacyEntriesAreTolerated(clock: Clock)
    ensures var r := GetHistory([LegacyRecord, CurrentRecord, BlankCodeRecord], clock);
      && |r| == 2 && r[0].id == "legacy_1" && r[1].id == "new_1"
      && r[0].generatedAt == "2026-02-19T08:26:39.440968"
      && r[0].saved
      && r[0].code == "<body>legacy</body>"
  {
    BlankCodeRecordIsSkipped(clock);
    CurrentRecordNormalizes(clock);
    LegacyRecordNormalizes(clock);
    ReadTwoOfThree(LegacyRecord, CurrentRecord, BlankCodeRecord, clock,
      HistoryEntry("legacy_1", "old", "2026-02-19T08:26:39.440968", true, "<body>legacy</body>"), "new_1");
  }

  /** Two kept records followed by a skipped one read as the two, in order. */
  lemma ReadTwoOfThree(a: Json, b: Json, c: Json, clock: Clock, first: HistoryEntry, secondId: string)
    requires a.JObj? && NormalizeHistoryEntry(a.fields, clock) == Some(first)
    requires Kept(b, clock) && NormalizeHistoryEntry(b.fields, clock).value.id == secondId
    requires !Kept(c, clock)
    ensures var r := GetHistory([a, b, c], clock);
      |r| == 2 && r[0] == first && r[1].id == secondId
  {
    var l := [a, b, c];
    assert l[1..] == [b, c];
    assert l[1..][1..] == [c];
    assert l[1..][1..][1..] == [];
    assert GetHistory(l[1..][1..], clock) == [];
    assert GetHistory(l[1..], clock) == [NormalizeHistoryEntry(b.fields, clock).value];
  }

  /** `_append_entry`: the list with one new record at the end, and the record's id. */
  function AppendEntry(entries: seq<Json>, themeName: string, code: string, saved: bool, clock: Clock): (r: (seq<Json>, string))
    ensures |r.0| == |entries| + 1
    ensures r.0[..|entries|] == entries
    ensures r.0[|entries|] == ToJson(HistoryEntry(r.1, themeName, clock.isoNow, saved, code))
    ensures r.1 == clock.idStamp
  {
    var id := clock.idStamp;
    (entries + [ToJson(HistoryEntry(id, themeName, clock.isoNow, saved, code))], id)
  }

  /** After an append the history lists one more record, at the end, exactly as given; earlier records read as before. */
  lemma AppendThenList(entries: seq<Json>, themeName: string, code: string, saved: bool, clock: Clock, later: Clock)
    requires ValidClock(clock)
    requires !PyBlank(themeName) && !PyBlank(code)
    ensures var (after, id) := AppendEntry(entries, themeName, code, saved, clock);
      GetHistory(after, later) ==
        GetHistory(entries, later) + [HistoryEntry(id, themeName, clock.isoNow, saved, code)]
  {
    var e := HistoryEntry(clock.idStamp, themeName, clock.isoNow, saved, code);
    var x := ToJson(e);
    assert [x][1..] == [];
    NormalizeIsIdentityOnCurrentRecords(e, later);
    assert GetHistory([x], later) == [e];
    GetHistoryConcat(entries, [x], later);
  }

  /** `e["id"]` succeeds: the element is an object with an `id` key. */
  predicate HasId(e: Json) {
    e.JObj? && "id" in e.fields
  }

  /** Whether a raw record carries the given id. */
  predicate IdIs(e: Json, id: string)
    requires HasId(e)
  {
    e.fields["id"] == JStr(id)
  }

  /** A record marked as saved; an absent theme name becomes "untitled", a present one stays. */
  function MarkOne(e: Json, id: string): (r: Json)
    requires HasId(e)
    ensures HasId(r) && r.fields["id"] == e.fields["id"]
    ensures IdIs(e, id) ==> "saved" in r.fields && r.fields["saved"] == JBool(true)
    ensures IdIs(e, id) ==> "theme_name" in r.fields
    ensures IdIs(e, id) && "theme_name" in e.fields ==> r.fields["theme_name"] == e.fields["theme_name"]
    ensures IdIs(e, id) && "theme_name" !in e.fields ==> r.fields["theme_name"] == JStr(Untitled)
    ensures IdIs(e, id) ==> r.fields.Keys == e.fields.Keys + {"saved", "theme_name"}
    ensures IdIs(e, id) ==> forall k :: k in e.fields && k != "saved" && k != "theme_name" ==> r.fields[k] == e.fields[k]
    ensures !IdIs(e, id) ==> r == e
  {
    if IdIs(e, id) then
      JObj(e.fields["saved" := JBool(true)]["theme_name" := Get(e.fields, "theme_name").GetOr(JStr(Untitled))])
    else e
  }

  /** `_mark_saved`: marks the records with the given id; `None` when some element has no id (the loop raises). */
  function MarkSaved(entries: seq<Json>, id: string): (r: Option<seq<Json>>)
    ensures r.Some? <==> forall i :: 0 <= i < |entries| ==> HasId(entries[i])
    ensures r.Some? ==> |r.value| == |entries|
    ensures r.Some? ==> forall i :: 0 <= i < |entries| ==>
      && (!IdIs(entries[i], id) ==> r.value[i] == entries[i])
      && (IdIs(entries[i], id) ==> r.value[i].JObj? && "saved" in r.value[i].fields && r.value[i].fields["saved"] == JBool(true))
    ensures r.Some? ==> forall i :: 0 <= i < |entries| ==> r.value[i] == MarkOne(entries[i], id)
  {
    if entries == [] then Some([])
    else if !HasId(entries[0]) then None
    else
      match MarkSaved(entries[1..], id)
      case None => None
      case Some(rest) => Some([MarkOne(entries[0], id)] + rest)
  }

  /** Marking a record as saved makes it list as saved and changes nothing else about how it lists. */
  lemma MarkedRecordListsAsSaved(e: Json, id: string, clock: Clock)
    requires HasId(e) && IdIs(e, id)
    ensures Kept(MarkOne(e, id), clock) == Kept(e, clock)
    ensures Kept(e, clock) ==>
      NormalizeHistoryEntry(MarkOne(e, id).fields, clock) ==
        Some(NormalizeHistoryEntry(e.fields, clock).value.(saved := true))
  {
    var f, g := e.fields, MarkOne(e, id).fields;
    assert g == f["saved" := JBool(true)]["theme_name" := Get(f, "theme_name").GetOr(JStr(Untitled))];
    assert Get(g, "code") == Get(f, "code") && Get(g, "preview_snippet") == Get(f, "preview_snippet");
    assert Get(g, "generated_at") == Get(f, "generated_at") && Get(g, "applied_at") == Get(f, "applied_at");
    assert Get(g, "id") == Get(f, "id") && Get(g, "saved") == Some(JBool(true));
    assert !PyBlank(Untitled) by { assert !IsPySpace(Untitled[0]); }
    NormalizeMarked(f, g, clock);
  }

  /** A record that differs only in `saved` being true and in an absent theme name spelled out normalises the same, but saved. */
  lemma NormalizeMarked(f: map<string, Json>, g: map<string, Json>, clock: Clock)
    requires Get(g, "code") == Get(f, "code") && Get(g, "preview_snippet") == Get(f, "preview_snippet")
    requires Get(g, "generated_at") == Get(f, "generated_at") && Get(g, "applied_at") == Get(f, "applied_at")
    requires Get(g, "id") == Get(f, "id") && Get(g, "saved") == Some(JBool(true))
    requires (if Usable(Get(g, "theme_name")) then g["theme_name"].s else Untitled) ==
      (if Usable(Get(f, "theme_name")) then f["theme_name"].s else Untitled)
    ensures NormalizeHistoryEntry(g, clock).Some? == NormalizeHistoryEntry(f, clock).Some?
    ensures NormalizeHistoryEntry(f, clock).Some? ==>
      NormalizeHistoryEntry(g, clock) == Some(NormalizeHistoryEntry(f, clock).value.(saved := true))
  {
  }

  /** `delete_history_entry`: drops the records with the given id; `None` when some element has no id. */
  function DeleteHistoryEntry(entries: seq<Json>, id: string): (r: Option<seq<Json>>)
    ensures r.Some? <==> forall i :: 0 <= i < |entries| ==> HasId(entries[i])
    ensures r.Some? ==> forall e :: e in r.value <==> e in entries && !IdIs(e, id)
    ensures r.Some? ==> |r.value| <= |entries|
  {
    if forall i :: 0 <= i < |entries| ==> HasId(entries[i]) then
      Some(Seqs.Filter(entries, e => HasId(e) && !IdIs(e, id)))
    else None
  }

  /** Deleting keeps the other records in their order, and deleting again changes nothing. */
  lemma DeleteKeepsOthersInOrder(a: seq<Json>, b: seq<Json>, id: string)
    requires forall i :: 0 <= i < |a| ==> HasId(a[i])
    requires forall i :: 0 <= i < |b| ==> HasId(b[i])
    ensures DeleteHistoryEntry(a, id).Some? && DeleteHistoryEntry(b, id).Some?
    ensures DeleteHistoryEntry(a + b, id).Some?
    ensures DeleteHistoryEntry(a + b, id).value ==
      DeleteHistoryEntry(a, id).value + DeleteHistoryEntry(b, id).value
    ensures DeleteHistoryEntry(DeleteHistoryEntry(a + b, id).value, id) == DeleteHistoryEntry(a + b, id)
  {
    assert forall i :: 0 <= i < |a + b| ==> HasId((a + b)[i]) by {
      forall i | 0 <= i < |a + b|
        ensures HasId((a + b)[i])
      {
        if i < |a| { assert (a + b)[i] == a[i]; } else { assert (a + b)[i] == b[i - |a|]; }
      }
    }
    var p := (e: Json) => HasId(e) && !IdIs(e, id);
    Seqs.FilterConcat(a, b, p);
    Seqs.FilterIdempotent(a + b, p);
  }

  /** After a delete, no listed record carries the deleted id (unless the clock invents it for an id-less record). */
  lemma DeletedIdIsNotListed(entries: seq<Json>, id: string, clock: Clock)
    requires DeleteHistoryEntry(entries, id).Some?
    requires clock.idStamp != id
    ensures forall h :: h in GetHistory(DeleteHistoryEntry(entries, id).value, clock) ==> h.id != id
  {
    var rest := DeleteHistoryEntry(entries, id).value;
    forall h | h in GetHistory(rest, clock)
      ensures h.id != id
    {
      var k :| k in rest && Kept(k, clock) && NormalizeHistoryEntry(k.fields, clock) == Some(h) by {
        ListedComesFromKept(rest, clock, h);
      }
      assert k in entries && HasId(k) && !IdIs(k, id);
      ListedIdDiffers(k, id, clock);
    }
  }

  /** A kept record whose own id differs from `id` lists with an id other than `id`, given a clock stamp other than `id`. */
  lemma ListedIdDiffers(k: Json, id: string, clock: Clock)
    requires Kept(k, clock) && HasId(k) && !IdIs(k, id)
    requires clock.idStamp != id
    ensures NormalizeHistoryEntry(k.fields, clock).value.id != id
  {
    var f := k.fields;
    if Usable(Get(f, "id")) {
      assert f["id"] == JStr(f["id"].s);
    }
  }

  /** Every listed record is the normalisation of a kept raw record. */
  lemma {:induction false} ListedComesFromKept(entries: seq<Json>, clock: Clock, h: HistoryEntry)
    requires h in GetHistory(entries, clock)
    ensures exists k :: k in entries && Kept(k, clock) && NormalizeHistoryEntry(k.fields, clock) == Some(h)
    decreases |entries|
  {
    if !(Kept(entries[0], clock) && h == NormalizeHistoryEntry(entries[0].fields, clock).value) {
      ListedComesFromKept(entries[1..], clock, h);
      var k :| k in entries[1..] && Kept(k, clock) && NormalizeHistoryEntry(k.fields, clock) == Some(h);
      assert k in entries;
    }
  }
}

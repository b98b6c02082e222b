/**
 * Splitting a multi-file Astro answer into files. The generator separates
 * files with markers `--- FILE: <path> ---`; the viewer splits the code on
 * the pattern `---\s*FILE:\s*(.+?)\s*---` and pairs each captured path with
 * the text up to the next marker. The pattern is modelled by an explicit
 * matcher that follows the regular-expression engine's backtracking order:
 * the white space after `FILE:` is taken greedily and given back one
 * character at a time, and the path is the shortest run without a line
 * terminator that a closing `---` can follow.
 */
module AstroFiles {
  import opened Wrappers
  import opened Text

  datatype AstroFile = AstroFile(path: string, content: string)

  /** One marker match, as offsets into the text it was matched against (which starts at the marker). */
  datatype Marker = Marker(capStart: nat, capEnd: nat, end: nat)

  const DefaultPath := "output.astro"

  /** The length of the longest run of white space starting at `i`. */
  function WsRun(t: string, i: nat): (n: nat)
    requires i <= |t|
    ensures i + n <= |t|
    ensures forall j {:trigger IsJsSpace(t[j])} :: i <= j < i + n ==> IsJsSpace(t[j])
    ensures i + n == |t| || !IsJsSpace(t[i + n])
    decreases |t| - i
  {
    if i == |t| || !IsJsSpace(t[i]) then 0 else 1 + WsRun(t, i + 1)
  }

  /** Three dashes at `j`. */
  predicate DashesAt(t: string, j: nat) {
    j + 3 <= |t| && t[j] == '-' && t[j + 1] == '-' && t[j + 2] == '-'
  }

  /**
   * `\s*---` from `j`: where the closing dashes end, if they follow. The
   * white space is skipped one character at a time; since `-` is not white
   * space, this finds the dashes exactly where the greedy run ends.
   */
  function CloseAt(t: string, j: nat): (r: Option<nat>)
    requires j <= |t|
    ensures r.Some? ==> j + 3 <= r.value <= |t|
    decreases |t| - j
  {
    if DashesAt(t, j) then Some(j + 3)
    else if j < |t| && IsJsSpace(t[j]) then CloseAt(t, j + 1)
    else None
  }

  /** The closing dashes are found where the longest white-space run from `j` ends, or not at all. */
  lemma {:induction false} CloseAtIsGreedy(t: string, j: nat)
    requires j <= |t|
    ensures CloseAt(t, j) == if DashesAt(t, j + WsRun(t, j)) then Some(j + WsRun(t, j) + 3) else None
    decreases |t| - j
  {
    if j < |t| && IsJsSpace(t[j]) {
      CloseAtIsGreedy(t, j + 1);
    }
  }

  /** `FILE:` at `j`. */
  predicate FileTagAt(t: string, j: nat) {
    j + 5 <= |t| && t[j] == 'F' && t[j + 1] == 'I' && t[j + 2] == 'L' && t[j + 3] == 'E' && t[j + 4] == ':'
  }

  /** `\s*FILE:` from `j`: where the tag ends, if it follows the longest white-space run from `j`. */
  function TagFrom(t: string, j: nat): (r: Option<nat>)
    requires j <= |t|
    ensures r.Some? <==> FileTagAt(t, j + WsRun(t, j))
    ensures r.Some? ==> r.value == j + WsRun(t, j) + 5 <= |t|
    decreases |t| - j
  {
    if FileTagAt(t, j) then Some(j + 5)
    else if j < |t| && IsJsSpace(t[j]) then TagFrom(t, j + 1)
    else None
  }

  /** No line terminator in `t[st..e]`: what `.` accepts. */
  predicate NoLineBreak(t: string, st: nat, e: nat)
    requires st <= e <= |t|
  {
    forall i {:trigger IsJsLineTerminator(t[i])} :: st <= i < e ==> !IsJsLineTerminator(t[i])
  }

  /** `(.+?)\s*---` can match with the capture `t[st..e]`. */
  predicate ValidCapture(t: string, st: nat, e: nat) {
    st < e <= |t| && NoLineBreak(t, st, e) && CloseAt(t, e).Some?
  }

  /** `---\s*FILE:`: where the capture's leading white space starts, if the text opens with it. */
  function HeaderEnd(t: string): (r: Option<nat>)
    ensures r.Some? ==> 8 <= r.value <= |t| && DashesAt(t, 0)
  {
    if DashesAt(t, 0) then TagFrom(t, 3) else None
  }

  /** The lazy capture from `st`: tries lengths `len`, `len + 1`, ... until a close follows or a line ends. */
  function LazyCapture(t: string, st: nat, len: nat): (r: Option<(nat, nat)>)
    requires 1 <= len && st + len <= |t| + 1
    requires NoLineBreak(t, st, st + len - 1)
    ensures r.Some? ==> ValidCapture(t, st, r.value.0) && st + len <= r.value.0
    ensures r.Some? ==> CloseAt(t, r.value.0) == Some(r.value.1)
    ensures r.Some? ==> forall e :: st + len <= e < r.value.0 ==> !ValidCapture(t, st, e)
    ensures r.None? ==> forall e :: st + len <= e ==> !ValidCapture(t, st, e)
    decreases |t| + 1 - (st + len)
  {
    if st + len > |t| then None
    else if IsJsLineTerminator(t[st + len - 1]) then
      assert forall e :: st + len <= e ==> !ValidCapture(t, st, e) by {
        forall e | st + len <= e && st < e <= |t|
          ensures !NoLineBreak(t, st, e)
        {
          assert IsJsLineTerminator(t[st + len - 1]);
        }
      }
      None
    else
      match CloseAt(t, st + len)
      case Some(end) => Some((st + len, end))
      case None => LazyCapture(t, st, len + 1)
  }

  /** Gives back the leading white space one character at a time: the capture starts at `c0 + k`, `c0 + k - 1`, ... */
  function TryFrom(t: string, c0: nat, k: nat): (r: Option<Marker>)
    requires c0 + k <= |t|
    ensures r.Some? ==> c0 <= r.value.capStart <= c0 + k
    ensures r.Some? ==> ValidCapture(t, r.value.capStart, r.value.capEnd)
    ensures r.Some? ==> CloseAt(t, r.value.capEnd) == Some(r.value.end)
    ensures r.Some? ==> forall e :: r.value.capStart < e < r.value.capEnd ==> !ValidCapture(t, r.value.capStart, e)
    decreases k
  {
    match LazyCapture(t, c0 + k, 1)
    case Some((capEnd, end)) => Some(Marker(c0 + k, capEnd, end))
    case None =>
      if k == 0 then None
      else TryFrom(t, c0, k - 1)
  }

  /** `TryFrom` takes the first start, counting down from `c0 + k`, at which some capture exists. */
  lemma {:induction false} TryFromSkipped(t: string, c0: nat, k: nat)
    requires c0 + k <= |t|
    ensures var r := TryFrom(t, c0, k);
      r.Some? ==> forall st, e :: r.value.capStart < st <= c0 + k ==> !ValidCapture(t, st, e)
    ensures TryFrom(t, c0, k).None? ==> forall st, e :: c0 <= st <= c0 + k ==> !ValidCapture(t, st, e)
    decreases k
  {
    var r := TryFrom(t, c0, k);
    if LazyCapture(t, c0 + k, 1).None? {
      NoCaptureAt(t, c0 + k);
      if k > 0 {
        TryFromSkipped(t, c0, k - 1);
        assert r == TryFrom(t, c0, k - 1);
        forall st, e | c0 <= st <= c0 + k && (r.None? || r.value.capStart < st)
          ensures !ValidCapture(t, st, e)
        {
          if st == c0 + k {
            assert !ValidCapture(t, c0 + k, e);
          }
        }
      }
    }
  }

  /** When the lazy capture from `st` fails, no capture of any length starts there. */
  lemma NoCaptureAt(t: string, st: nat)
    requires st <= |t| && LazyCapture(t, st, 1).None?
    ensures forall e :: !ValidCapture(t, st, e)
  {
  }

  /**
   * The marker the pattern matches at the start of `t`, if any. The match the
   * engine picks keeps as much white space after `FILE:` as it can, and then
   * takes the shortest path.
   */
  function MatchMarker(t: string): (r: Option<Marker>)
    ensures HeaderEnd(t).None? ==> r.None?
    ensures r.Some? ==>
      var c0 := HeaderEnd(t).value;
      && c0 <= r.value.capStart <= c0 + WsRun(t, c0)
      && ValidCapture(t, r.value.capStart, r.value.capEnd)
      && CloseAt(t, r.value.capEnd) == Some(r.value.end)
      && (forall e :: r.value.capStart < e < r.value.capEnd ==> !ValidCapture(t, r.value.capStart, e))
      && (forall st, e :: r.value.capStart < st <= c0 + WsRun(t, c0) ==> !ValidCapture(t, st, e))
    ensures HeaderEnd(t).Some? && r.None? ==>
      var c0 := HeaderEnd(t).value;
      forall st, e :: c0 <= st <= c0 + WsRun(t, c0) ==> !ValidCapture(t, st, e)
  {
    match HeaderEnd(t)
    case None => None
    case Some(c0) => TryFromSkipped(t, c0, WsRun(t, c0)); TryFrom(t, c0, WsRun(t, c0))
  }

  /**
   * What `code.split(pattern)` yields, grouped: the text before the first
   * marker, then for each marker its captured path and the text up to the next
   * marker (or the end). The flat list the source indexes is `head` followed by
   * each section's path and text; `matched` is the marker text the split drops.
   */
  datatype Section = Section(matched: string, capture: string, text: string)
  datatype Pieces = Pieces(head: string, sections: seq<Section>)

  /** The split of `t`, the text from the last cut on, searching for the next marker from offset `q`. */
  function SplitFrom(t: string, q: nat): (r: Pieces)
    requires q <= |t|
    ensures forall i :: 0 <= i < |r.sections| ==> r.sections[i].capture != []
    decreases |t| - q, 1
  {
    if q == |t| then Pieces(t, [])
    else if MatchMarker(t[q..]).Some? then Pieces(t[..q], SectionsAt(t[q..]))
    else SplitFrom(t, q + 1)
  }

  /** The sections of text that starts with a marker. */
  function SectionsAt(u: string): (r: seq<Section>)
    requires MatchMarker(u).Some?
    ensures forall i :: 0 <= i < |r| ==> r[i].capture != []
    decreases |u|, 0
  {
    var m := MatchMarker(u).value;
    var rest := SplitFrom(u[m.end..], 0);
    [Section(u[..m.end], u[m.capStart..m.capEnd], rest.head)] + rest.sections
  }

  function Split(s: string): Pieces {
    SplitFrom(s, 0)
  }

  /** The text of the sections put back together: each marker followed by the text after it. */
  function JoinSections(ss: seq<Section>): string
    decreases |ss|
  {
    if ss == [] then [] else ss[0].matched + ss[0].text + JoinSections(ss[1..])
  }

  /** No marker match starts in the first `n` positions of `s` (which runs on to the end of the input). */
  predicate MarkerFree(s: string, n: nat)
    requires n <= |s|
  {
    forall j :: 0 <= j < n ==> MatchMarker(s[j..]).None?
  }

  /**
   * `s` is what the split makes of the start of `from`: `from` opens with a
   * marker match, `s` holds that match and its capture, and `s.text` runs from
   * the match's end for as long as no further marker starts.
   */
  predicate SectionOf(s: Section, from: string) {
    && MatchMarker(from).Some?
    && var m := MatchMarker(from).value;
    && m.end + |s.text| <= |from|
    && s.matched == from[..m.end]
    && s.capture == from[m.capStart..m.capEnd]
    && MarkerFree(from[m.end..], |s.text|)
  }

  /** Every section is what the split makes of the text from its own marker on. */
  predicate SectionsSound(ss: seq<Section>)
    decreases |ss|
  {
    ss != [] ==> SectionOf(ss[0], JoinSections(ss)) && SectionsSound(ss[1..])
  }

  /**
   * The split loses nothing and cuts only at markers: the head and the
   * sections put back together give the text, no marker starts inside the
   * head, and each section starts at a marker and stops before the next.
   */
  lemma {:induction false} SplitFromSound(t: string, q: nat)
    requires q <= |t|
    ensures var p := SplitFrom(t, q);
      && p.head + JoinSections(p.sections) == t
      && q <= |p.head|
      && (forall j :: q <= j < |p.head| ==> MatchMarker(t[j..]).None?)
      && SectionsSound(p.sections)
    decreases |t| - q, 1
  {
    if q == |t| {
      assert t + [] == t;
    } else if MatchMarker(t[q..]).Some? {
      Rejoin(t, q);
      SectionsAtSound(t[q..]);
    } else {
      SplitFromSound(t, q + 1);
    }
  }

  lemma Rejoin(t: string, q: nat)
    requires q <= |t|
    ensures t[..q] + t[q..] == t
  {
  }

  /** The sections of text that opens with a marker put back together give that text, and each is sound. */
  lemma {:induction false} SectionsAtSound(u: string)
    requires MatchMarker(u).Some?
    ensures JoinSections(SectionsAt(u)) == u
    ensures SectionsSound(SectionsAt(u))
    decreases |u|, 0
  {
    var m := MatchMarker(u).value;
    var tail := u[m.end..];
    var rest := SplitFrom(tail, 0);
    SplitFromSound(tail, 0);
    var s0 := Section(u[..m.end], u[m.capStart..m.capEnd], rest.head);
    var ss := SectionsAt(u);
    assert ss == [s0] + rest.sections;
    assert ss[1..] == rest.sections;
    calc {
      JoinSections(ss);
      s0.matched + s0.text + JoinSections(rest.sections);
      u[..m.end] + (rest.head + JoinSections(rest.sections));
      u[..m.end] + tail;
      { Rejoin(u, m.end); }
      u;
    }
    assert MarkerFree(tail, |rest.head|);
    assert SectionOf(s0, JoinSections(ss));
  }

  /**
   * The split of the whole text, read back: the head is marker-free and the
   * head then each marker and its section's text give back the text.
   */
  lemma SplitIsSound(t: string)
    ensures Split(t).head + JoinSections(Split(t).sections) == t
    ensures MarkerFree(t, |Split(t).head|)
    ensures SectionsSound(Split(t).sections)
  {
    SplitFromSound(t, 0);
  }

  /** `parseAstroFiles`: one file per marker, or the whole code as `output.astro` when there is none. */
  function ParseAstroFiles(code: string): (r: seq<AstroFile>)
    ensures |r| >= 1
    ensures Split(code).sections == [] ==> r == [AstroFile(DefaultPath, JsTrim(code))]
    ensures Split(code).sections != [] ==>
      && |r| == |Split(code).sections|
      && forall i :: 0 <= i < |r| ==>
        r[i] == AstroFile(JsTrim(Split(code).sections[i].capture), JsTrim(Split(code).sections[i].text))
  {
    var pieces := Split(code);
    if pieces.sections == [] then [AstroFile(DefaultPath, JsTrim(code))]
    else
      seq(|pieces.sections|, i requires 0 <= i < |pieces.sections| =>
        AstroFile(JsTrim(pieces.sections[i].capture), JsTrim(pieces.sections[i].text)))
  }

  /** Code with no marker anywhere is shown as one file, `output.astro`, holding the trimmed code. */
  lemma {:induction false} NoMarkerMeansOneFile(code: string)
    requires forall q :: 0 <= q < |code| ==> MatchMarker(code[q..]).None?
    ensures ParseAstroFiles(code) == [AstroFile(DefaultPath, JsTrim(code))]
  {
    NoMarkerFrom(code, 0);
  }

  /** With no marker starting from `q` on, the split from `q` makes no cut. */
  lemma {:induction false} NoMarkerFrom(s: string, q: nat)
    requires q <= |s|
    requires forall j :: q <= j < |s| ==> MatchMarker(s[j..]).None?
    ensures SplitFrom(s, q) == Pieces(s, [])
    decreases |s| - q
  {
    if q < |s| {
      NoMarkerFrom(s, q + 1);
    }
  }

  /** A preamble in which no marker starts is dropped: the files are those of the text from the first marker on. */
  lemma PreambleIsDiscarded(pre: string, rest: string)
    requires forall q :: 0 <= q < |pre| ==> MatchMarker((pre + rest)[q..]).None?
    requires MatchMarker(rest).Some?
    ensures ParseAstroFiles(pre + rest) == ParseAstroFiles(rest)
  {
    var s := pre + rest;
    SkipToFirstMarker(s, |pre|, 0);
    assert s[|pre|..] == rest;
    SameSectionsFromMarker(s, |pre|, rest);
  }

  /** From a marker on, the sections depend only on the text that follows. */
  lemma SameSectionsFromMarker(t: string, q: nat, u: string)
    requires q < |t| && t[q..] == u
    requires MatchMarker(u).Some?
    ensures SplitFrom(t, q).sections == SplitFrom(u, 0).sections
  {
    assert u[0..] == u;
  }

  /** Positions with no marker are skipped without cutting. */
  lemma {:induction false} SkipToFirstMarker(s: string, k: nat, q: nat)
    requires q <= k < |s|
    requires forall j :: q <= j < k ==> MatchMarker(s[j..]).None?
    ensures SplitFrom(s, q) == SplitFrom(s, k)
    decreases k - q
  {
    if q < k {
      SkipToFirstMarker(s, k, q + 1);
    }
  }

  /** `files[selectedIndex] || files[0]`: an index outside the list shows the first file. */
  function SelectedFile(files: seq<AstroFile>, selectedIndex: int): (r: AstroFile)
    requires |files| >= 1
    ensures r in files
    ensures 0 <= selectedIndex < |files| ==> r == files[selectedIndex]
    ensures !(0 <= selectedIndex < |files|) ==> r == files[0]
  {
    if 0 <= selectedIndex < |files| then files[selectedIndex] else files[0]
  }

  /** The marker at the start of the example: path `a` at offsets 10..11, closing dashes ending at 15. */
  lemma ExampleMarker()
    ensures MatchMarker("--- FILE: a ---\nx") == Some(Marker(10, 11, 15))
  {
    var t := "--- FILE: a ---\nx";
    assert TagFrom(t, 3) == Some(9) by { assert FileTagAt(t, 4); }
    assert HeaderEnd(t) == Some(9);
    assert WsRun(t, 9) == 1 by { assert WsRun(t, 10) == 0; }
    assert CloseAt(t, 11) == Some(15) by { assert DashesAt(t, 12); }
    assert LazyCapture(t, 10, 1) == Some((11, 15));
  }

  /** The text after the example's marker holds no further marker. */
  lemma ExampleTail()
    ensures SplitFrom("\nx", 0) == Pieces("\nx", [])
  {
    var tail := "\nx";
    assert tail[0..] == tail && tail[1..] == "x";
    assert MatchMarker(tail).None? && MatchMarker(tail[1..]).None?;
    assert SplitFrom(tail, 2) == Pieces(tail, []);
  }

  lemma ExampleContentTrim()
    ensures JsTrim("\nx") == "x"
  {
    var tail := "\nx";
    assert IsJsSpace(tail[0]) && tail[1..] == "x";
    assert !IsJsSpace('x');
    assert "x"[0] == 'x';
    assert TrimStart("x") == "x";
    assert TrimStart(tail) == "x";
    assert TrimEnd("x") == "x";
  }

  lemma ExampleSectionsAt(t: string)
    requires t == "--- FILE: a ---\nx"
    ensures MatchMarker(t).Some?
    ensures SectionsAt(t) == [Section("--- FILE: a ---", "a", "\nx")]
  {
    assert t[10..11] == "a";
    assert t[..15] == "--- FILE: a ---";
    assert t[15..] == "\nx";
    ExampleMarker();
    ExampleTail();
    LastSection(t, Marker(10, 11, 15), "\nx");
  }

  /** Text that starts with a marker and has none after it is one section. */
  lemma LastSection(u: string, m: Marker, rest: string)
    requires MatchMarker(u) == Some(m)
    requires SplitFrom(u[m.end..], 0) == Pieces(rest, [])
    ensures SectionsAt(u) == [Section(u[..m.end], u[m.capStart..m.capEnd], rest)]
  {
  }

  /** The example's single section: path `a`, then the rest of the text. */
  lemma ExampleSections()
    ensures Split("--- FILE: a ---\nx").sections == [Section("--- FILE: a ---", "a", "\nx")]
  {
    var t := "--- FILE: a ---\nx";
    ExampleSectionsAt(t);
    assert t[0..] == t;
  }

  lemma PathTrim()
    ensures JsTrim("a") == "a"
  {
    assert !IsJsSpace('a') && "a"[0] == 'a';
    TrimUnpadded("a");
  }

  /** Code split into the example's one section parses to file `a` holding `x`. */
  lemma OneSectionParse(code: string, matched: string)
    requires Split(code).sections == [Section(matched, "a", "\nx")]
    ensures ParseAstroFiles(code) == [AstroFile("a", "x")]
  {
    PathTrim();
    ExampleContentTrim();
    var r := ParseAstroFiles(code);
    assert r[0] == AstroFile("a", "x");
  }

  /** A marker, then a line: one file, `a`, holding `x`; the content's leading line break is trimmed. */
  lemma OneMarkerExample()
    ensures ParseAstroFiles("--- FILE: a ---\nx") == [AstroFile("a", "x")]
  {
    ExampleSections();
    OneSectionParse("--- FILE: a ---\nx", "--- FILE: a ---");
  }
}

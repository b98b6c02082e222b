/**
 * The insertion rule shared by `injectHashNavFix` and `injectExternalLinkTargets`:
 * a script goes immediately before the first `</body>` of the page, or at the
 * end of the text when there is no `</body>`.
 */
module ScriptInjection {
  import opened Wrappers
  import opened Text

  const BodyClose := "</body>"
  const ScriptClose := "</script>"

  /**
   * The shape of both injected scripts: `<script>`…`</script>` with no other `/`
   * and no `$` (so `replace` inserts it literally).
   */
  predicate WellFormedScript(script: string) {
    && |script| > |ScriptClose|
    && script[0] == '<'
    && script[|script| - |ScriptClose|..] == ScriptClose
    && '/' !in script[..|script| - |ScriptClose|]
    && '$' !in script
  }

  /** Text with neither `/` nor `$`: the part of a script before its closing tag. */
  predicate Plain(s: string) {
    '/' !in s && '$' !in s
  }

  /** A plain `<`-led body followed by `</script>` is a well-formed script. */
  lemma ClosedScriptWellFormed(body: string)
    requires |body| > 0 && body[0] == '<' && Plain(body)
    ensures WellFormedScript(body + ScriptClose)
  {
    assert (body + ScriptClose)[..|body|] == body;
  }

  /** Where the script goes: the first `</body>`, or the end of the text. */
  function InsertionPoint(html: string): (p: nat)
    ensures p <= |html|
    ensures Contains(html, BodyClose) ==> OccursAt(html, BodyClose, p)
    ensures forall j :: 0 <= j < p ==> !OccursAt(html, BodyClose, j)
    ensures !Contains(html, BodyClose) ==> p == |html|
  {
    match IndexOf(html, BodyClose)
    case Some(i) => i
    case None => |html|
  }

  /** `html.includes("</body>") ? html.replace("</body>", script + "</body>") : html + script`. */
  function InjectBeforeBodyClose(html: string, script: string): (r: string)
    requires '$' !in script
    ensures r == html[..InsertionPoint(html)] + script + html[InsertionPoint(html)..]
  {
    if Contains(html, BodyClose) then
      var i := IndexOf(html, BodyClose).value;
      assert '$' !in script + BodyClose;
      ExpandLiteral(script + BodyClose, BodyClose, html[..i], html[i + |BodyClose|..]);
      assert html[i..] == BodyClose + html[i + |BodyClose|..];
      ReplaceFirst(html, BodyClose, script + BodyClose)
    else
      html + script
  }

  /** Cutting the script back out of an injection gives the original text. */
  lemma RemovingScriptRestores(html: string, script: string)
    requires '$' !in script
    ensures var r, p := InjectBeforeBodyClose(html, script), InsertionPoint(html);
      r[p..p + |script|] == script && r[..p] + r[p + |script|..] == html
  {
    var r, p := InjectBeforeBodyClose(html, script), InsertionPoint(html);
    assert r[..p] == html[..p];
    assert r[p + |script|..] == html[p..];
  }

  /** A page ending in `</body></html>` still ends that way after an injection. */
  lemma KeepsDocumentEnd(html: string, script: string)
    requires '$' !in script
    requires EndsWith(html, "</body></html>")
    ensures EndsWith(InjectBeforeBodyClose(html, script), "</body></html>")
  {
    var n := |html| - 14;
    assert html[n..n + 7] == BodyClose by {
      assert html[n..] == "</body></html>";
      assert html[n..n + 7] == html[n..][..7];
    }
    FirstOccurrenceBefore(html, BodyClose, n);
    var p := InsertionPoint(html);
    var r := InjectBeforeBodyClose(html, script);
    assert p <= n;
    assert r[|r| - 14..] == html[p..][|html| - p - 14..];
  }

  /** The first `</body>` of the result is the original one, right after the script. */
  lemma ScriptPrecedesBodyClose(html: string, script: string)
    requires WellFormedScript(script)
    requires Contains(html, BodyClose)
    ensures IndexOf(InjectBeforeBodyClose(html, script), BodyClose) == Some(InsertionPoint(html) + |script|)
  {
    var p := InsertionPoint(html);
    var r := InjectBeforeBodyClose(html, script);
    var q := p + |script|;
    assert r[q..] == html[p..];
    assert r[q..q + 7] == html[p..][..7] == html[p..p + 7];
    NoBodyCloseUpToScriptEnd(html, script);
    IndexOfIs(r, BodyClose, p + |script|);
  }

  lemma NoBodyCloseUpToScriptEnd(html: string, script: string)
    requires WellFormedScript(script)
    ensures forall j: nat :: j < InsertionPoint(html) + |script| ==> !OccursAt(InjectBeforeBodyClose(html, script), BodyClose, j)
  {
    var p := InsertionPoint(html);
    var r := InjectBeforeBodyClose(html, script);
    var a, b := html[..p], html[p..];
    assert r == a + script + b;
    forall j: nat | j < p + |script|
      ensures !OccursAt(r, BodyClose, j)
    {
      if j + 7 <= p {
        assert r[j..j + 7] == a[j..j + 7] == html[j..j + 7];
        assert !OccursAt(html, BodyClose, j);
      } else {
        NoBodyCloseAcross(a, script, b, j);
      }
    }
  }

  /** No `</body>` can start in the script, nor straddle its start. */
  lemma NoBodyCloseAcross(a: string, script: string, b: string, j: nat)
    requires WellFormedScript(script)
    requires |a| < j + 7 && j < |a| + |script|
    ensures !OccursAt(a + script + b, BodyClose, j)
  {
    var r := a + script + b;
    var n := |script|;
    var m := n - |ScriptClose|;
    if j + 7 <= |r| {
      var w := r[j..j + 7];
      if j < |a| {
        // The script's leading `<` would have to be a later character of `</body>`.
        assert w[|a| - j] == script[0] == '<';
      } else if j + 1 - |a| < m {
        // The `/` of `</body>` would lie before the script's closing tag.
        var k := j + 1 - |a|;
        assert w[1] == script[k] == script[..m][k];
        assert w[1] != '/';
      } else if j + 1 - |a| < n {
        // The only `/` of the closing tag is followed by `s`, not `b`.
        var k := j + 1 - |a|;
        assert w[1] == script[k] == ScriptClose[k - m];
        assert k - m != 1 ==> w[1] != '/';
        assert k - m == 1 ==> w[2] == script[k + 1] == 's';
      } else {
        assert w[0] == script[n - 1] == '>';
      }
      assert w != BodyClose;
    }
  }
}

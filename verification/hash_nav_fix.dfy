/**
 * `injectHashNavFix`: adds a click handler that scrolls to in-page `#anchor`
 * targets, because in an `srcdoc` frame following such a link would navigate
 * the frame instead. The handler is inserted before the first `</body>`, or
 * appended when the page has none.
 */
module HashNavFix {
  import opened Wrappers
  import opened Text
  import opened ScriptInjection

  /** The handler script, cut into short pieces so that the verifier can inspect each. */
  const HashNavPart1 := "<script>document.a" + "ddEventListener('c" + "lick',function(e){"
  const HashNavPart2 := "var a=e.target.clo" + "sest('a');if(!a)re" + "turn;var h=a.getAt"
  const HashNavPart3 := "tribute('href');if" + "(h&&h.charAt(0)===" + "'#'){e.preventDefa"
  const HashNavPart4 := "ult();var t=docume" + "nt.querySelector(h" + ");if(t)t.scrollInt"
  const HashNavPart5 := "oView({behavior:'s" + "mooth'});}});"
  const HashNavScript := HashNavPart1 + HashNavPart2 + HashNavPart3 + HashNavPart4 + HashNavPart5 + ScriptClose

  lemma HashNavPart1Plain()
    ensures Plain(HashNavPart1)
  {
  }

  lemma HashNavPart2Plain()
    ensures Plain(HashNavPart2)
  {
  }

  lemma HashNavPart3Plain()
    ensures Plain(HashNavPart3)
  {
  }

  lemma HashNavPart4Plain()
    ensures Plain(HashNavPart4)
  {
  }

  lemma HashNavPart5Plain()
    ensures Plain(HashNavPart5)
  {
  }

  lemma HashNavScriptWellFormed()
    ensures WellFormedScript(HashNavScript)
  {
    HashNavPart1Plain();
    HashNavPart2Plain();
    HashNavPart3Plain();
    HashNavPart4Plain();
    HashNavPart5Plain();
    ClosedScriptWellFormed(HashNavPart1 + HashNavPart2 + HashNavPart3 + HashNavPart4 + HashNavPart5);
  }

  /** The page with the handler spliced in at its insertion point; nothing else changes. */
  function InjectHashNavFix(html: string): (r: string)
    ensures r == html[..InsertionPoint(html)] + HashNavScript + html[InsertionPoint(html)..]
    ensures !Contains(html, BodyClose) ==> r == html + HashNavScript
    ensures |r| == |html| + |HashNavScript|
    ensures html == "" ==> r == HashNavScript
  {
    HashNavScriptWellFormed();
    InjectBeforeBodyClose(html, HashNavScript)
  }

  /** Cutting the inserted script back out gives the original page. */
  lemma RemovingScriptRestoresPage(html: string)
    ensures var r, p := InjectHashNavFix(html), InsertionPoint(html);
      r[p..p + |HashNavScript|] == HashNavScript && r[..p] + r[p + |HashNavScript|..] == html
  {
    HashNavScriptWellFormed();
    RemovingScriptRestores(html, HashNavScript);
  }

  /** With a `</body>` present, the script sits before it: the first `</body>` of the result follows the script. */
  lemma ScriptBeforeBodyClose(html: string)
    requires Contains(html, BodyClose)
    ensures IndexOf(InjectHashNavFix(html), BodyClose) == Some(InsertionPoint(html) + |HashNavScript|)
  {
    HashNavScriptWellFormed();
    ScriptPrecedesBodyClose(html, HashNavScript);
  }

  /**
   * No deduplication: a second application inserts a second copy, and a page
   * ending in `</body></html>` keeps that ending both times.
   */
  lemma SecondApplicationAddsSecondScript(html: string)
    ensures |InjectHashNavFix(InjectHashNavFix(html))| == |html| + 2 * |HashNavScript|
    ensures InjectHashNavFix(InjectHashNavFix(html)) != InjectHashNavFix(html)
    ensures EndsWith(html, "</body></html>") ==> EndsWith(InjectHashNavFix(InjectHashNavFix(html)), "</body></html>")
  {
    if EndsWith(html, "</body></html>") {
      HashNavScriptWellFormed();
      KeepsDocumentEnd(html, HashNavScript);
      KeepsDocumentEnd(InjectHashNavFix(html), HashNavScript);
    }
  }
}

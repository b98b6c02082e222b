/**
 * The preview pane: which code it shows, the script that makes its links
 * open in a new tab, and the rule that posts each completed generation to
 * the theme log once. `extractHtml` is not part of this model: it is a
 * parameter.
 */
module PreviewPane {
  import opened Wrappers
  import opened Text
  import opened ScriptInjection
  import opened Commits
  import opened Orchestrator

  /** The link script, cut into short pieces so that the verifier can inspect each. */
  const ExternalLinksPart1 := "<script>\ndocument." + "addEventListener('" + "DOMContentLoaded',"
  const ExternalLinksPart2 := " function() {\n  do" + "cument.querySelect" + "orAll('a[href]').f"
  const ExternalLinksPart3 := "orEach(function(a)" + " {\n    var href = " + "a.getAttribute('hr"
  const ExternalLinksPart4 := "ef');\n    if (href" + " && !href.startsWi" + "th('#')) {\n      a"
  const ExternalLinksPart5 := ".setAttribute('tar" + "get', '_blank');\n " + "     a.setAttribut"
  const ExternalLinksPart6 := "e('rel', 'noopener" + " noreferrer');\n   " + " }\n  });\n});\n"
  const ExternalLinksScript := ExternalLinksPart1 + ExternalLinksPart2 + ExternalLinksPart3 + ExternalLinksPart4 + ExternalLinksPart5 + ExternalLinksPart6 + ScriptClose

  lemma ExternalLinksPart1Plain()
    ensures Plain(ExternalLinksPart1)
  {
  }

  lemma ExternalLinksPart2Plain()
    ensures Plain(ExternalLinksPart2)
  {
  }

  lemma ExternalLinksPart3Plain()
    ensures Plain(ExternalLinksPart3)
  {
  }

  lemma ExternalLinksPart4Plain()
    ensures Plain(ExternalLinksPart4)
  {
  }

  lemma ExternalLinksPart5Plain()
    ensures Plain(ExternalLinksPart5)
  {
  }

  lemma ExternalLinksPart6Plain()
    ensures Plain(ExternalLinksPart6)
  {
  }

  lemma ExternalLinksScriptWellFormed()
    ensures WellFormedScript(ExternalLinksScript)
  {
    ExternalLinksPart1Plain();
    ExternalLinksPart2Plain();
    ExternalLinksPart3Plain();
    ExternalLinksPart4Plain();
    ExternalLinksPart5Plain();
    ExternalLinksPart6Plain();
    ClosedScriptWellFormed(ExternalLinksPart1 + ExternalLinksPart2 + ExternalLinksPart3 + ExternalLinksPart4 + ExternalLinksPart5 + ExternalLinksPart6);
  }

  /** `injectExternalLinkTargets`: the link script spliced in at the insertion point; nothing else changes. */
  function InjectExternalLinkTargets(code: string): (r: string)
    ensures r == code[..InsertionPoint(code)] + ExternalLinksScript + code[InsertionPoint(code)..]
    ensures !Contains(code, BodyClose) ==> r == code + ExternalLinksScript
    ensures |r| == |code| + |ExternalLinksScript|
  {
    ExternalLinksScriptWellFormed();
    InjectBeforeBodyClose(code, ExternalLinksScript)
  }

  /** Cutting the link script back out gives the original code. */
  lemma RemovingLinkScriptRestoresCode(code: string)
    ensures var r, p := InjectExternalLinkTargets(code), InsertionPoint(code);
      r[p..p + |ExternalLinksScript|] == ExternalLinksScript && r[..p] + r[p + |ExternalLinksScript|..] == code
  {
    ExternalLinksScriptWellFormed();
    RemovingScriptRestores(code, ExternalLinksScript);
  }

  /** With a `</body>` present, the link script lands before it. */
  lemma LinkScriptBeforeBodyClose(code: string)
    requires Contains(code, BodyClose)
    ensures IndexOf(InjectExternalLinkTargets(code), BodyClose) == Some(InsertionPoint(code) + |ExternalLinksScript|)
  {
    ExternalLinksScriptWellFormed();
    ScriptPrecedesBodyClose(code, ExternalLinksScript);
  }

  /**
   * The code of the selected variant of the head version; `""` when the head
   * is unset, empty or names no stored version. `None` stands for the
   * failure when the selected index names no variant.
   */
  function CurrentCode(s: Store): (r: Option<string>)
    ensures !(s.head.Some? && s.head.value != "" && s.head.value in s.commits) ==> r == Some("")
    ensures s.head.Some? && s.head.value != "" && s.head.value in s.commits ==>
      var c := s.commits[s.head.value];
      && (0 <= c.selectedVariantIndex < |c.variants| ==> r == Some(c.variants[c.selectedVariantIndex].code))
      && (!(0 <= c.selectedVariantIndex < |c.variants|) ==> r.None?)
  {
    if s.head.Some? && s.head.value != "" && s.head.value in s.commits then
      var c := s.commits[s.head.value];
      if 0 <= c.selectedVariantIndex < |c.variants| then Some(c.variants[c.selectedVariantIndex].code) else None
    else Some("")
  }

  /** A generation that has just started shows empty code: its first variant is selected and still empty. */
  lemma StartedGenerationShowsEmptyCode(app: App, env: Env, params: Params)
    requires !Blocked(app, env)
    ensures CurrentCode(DoGenerateCode(app, env, params).app.store) == Some("")
  {
  }

  /** After a reset there is nothing to show. */
  lemma ResetShowsEmptyCode(app: App)
    ensures CurrentCode(Reset(app).store) == Some("")
  {
  }

  /** What the pane renders: `extractHtml` is applied only to a video version while it is generating. */
  function PreviewCode(current: string, mode: InputMode, state: AppState, extractHtml: string -> string): (r: string)
    ensures mode == VideoInput && state == Coding ==> r == InjectExternalLinkTargets(extractHtml(current))
    ensures !(mode == VideoInput && state == Coding) ==> r == InjectExternalLinkTargets(current)
  {
    InjectExternalLinkTargets(if mode == VideoInput && state == Coding then extractHtml(current) else current)
  }

  /** Whatever the code, the preview contains the link script, so it is never empty. */
  lemma PreviewIsNeverEmpty(current: string, mode: InputMode, state: AppState, extractHtml: string -> string)
    ensures |PreviewCode(current, mode, state, extractHtml)| >= |ExternalLinksScript| > 0
  {
    ExternalLinksScriptWellFormed();
  }

  /** One run of the logging effect: the new last-logged code and the code posted, if any. */
  datatype LogResult = LogResult(lastLogged: string, posted: Option<string>)

  /**
   * The logging effect as written: it posts when the screen is CODE_READY,
   * the preview is non-empty and differs from the last code it posted.
   */
  function LogStep(isReady: bool, previewCode: string, lastLogged: string): (r: LogResult)
    ensures r.posted.Some? <==> isReady && previewCode != "" && previewCode != lastLogged
    ensures r.posted.Some? ==> r == LogResult(previewCode, Some(previewCode))
    ensures r.posted.None? ==> r.lastLogged == lastLogged
  {
    if !isReady || previewCode == "" || previewCode == lastLogged then LogResult(lastLogged, None)
    else LogResult(previewCode, Some(previewCode))
  }

  /** The same code is never posted twice in a row. */
  lemma NoRepeatedPost(isReady: bool, previewCode: string, lastLogged: string)
    ensures LogStep(isReady, previewCode, LogStep(isReady, previewCode, lastLogged).lastLogged).posted.None?
  {
  }

  /**
   * The emptiness guard as written never fires: a ready version whose code is
   * empty is posted as the bare link script.
   */
  lemma EmptyGenerationIsPosted(extractHtml: string -> string)
    ensures LogStep(true, PreviewCode("", ImageInput, CodeReady, extractHtml), "").posted == Some(ExternalLinksScript)
  {
    PreviewIsNeverEmpty("", ImageInput, CodeReady, extractHtml);
    assert InjectExternalLinkTargets("") == ExternalLinksScript;
  }

  /**
   * The logging rule with the emptiness test on the generated code, before
   * the link script is added.
   */
  function LogCompletedGeneration(isReady: bool, currentCode: string, previewCode: string, lastLogged: string): (r: LogResult)
    ensures r.posted.Some? <==> isReady && currentCode != "" && previewCode != lastLogged
    ensures r.posted.Some? ==> r == LogResult(previewCode, Some(previewCode))
    ensures r.posted.None? ==> r.lastLogged == lastLogged
  {
    if !isReady || currentCode == "" || previewCode == lastLogged then LogResult(lastLogged, None)
    else LogResult(previewCode, Some(previewCode))
  }

  /**
   * The corrected rule never posts an empty generation, never posts the same
   * preview twice in a row, and agrees with the rule as written whenever
   * there is code.
   */
  lemma CorrectedLoggingSkipsEmptyCode(isReady: bool, current: string, mode: InputMode, state: AppState,
                                       extractHtml: string -> string, lastLogged: string)
    ensures var p := PreviewCode(current, mode, state, extractHtml);
      && (current == "" ==> LogCompletedGeneration(isReady, current, p, lastLogged).posted.None?)
      && LogCompletedGeneration(isReady, current, p, LogCompletedGeneration(isReady, current, p, lastLogged).lastLogged).posted.None?
      && (current != "" ==> LogCompletedGeneration(isReady, current, p, lastLogged) == LogStep(isReady, p, lastLogged))
  {
    PreviewIsNeverEmpty(current, mode, state, extractHtml);
  }
}

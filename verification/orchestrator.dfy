/**
 * The generation lifecycle of the app shell: a screen moves from INITIAL to
 * CODING when a generation starts and to CODE_READY when it completes, over
 * the version store of `Commits`. Cancelling or failing a first version
 * wipes everything; cancelling a later one drops it and returns to its
 * parent. On the hosted build a user's own OpenAI key is rationed per day.
 *
 * The generator's event stream, the hash a new commit receives and the
 * history the store extracts are not computed here: they arrive as inputs.
 */
module Orchestrator {
  import opened Wrappers
  import opened Text
  import opened JsonValue
  import opened Commits
  import ApiKeyCounter

  datatype AppState = Initial | Coding | CodeReady

  datatype InputMode = ImageInput | VideoInput | TextInput

  datatype GenerationType = Create | Update

  /** The parts of the app and project stores the orchestrator reads or writes, plus the stored key counter. */
  datatype App = App(
    appState: AppState,
    isPortfolioFullscreen: bool,
    showClippyAssistant: bool,
    updateInstruction: string,
    updateImages: seq<string>,
    inSelectAndEdit: bool,
    consoles: seq<string>,
    store: Store,
    inputMode: InputMode,
    referenceImages: seq<string>,
    isImportedFromCode: bool,
    initialPrompt: string,
    keyCounter: Stored)

  /**
   * What the surroundings decide: whether this is the hosted build, the
   * user's OpenAI key, today's date, the daily key limit and the hash the
   * next commit will get.
   */
  datatype Env = Env(onCloud: bool, openAiApiKey: Option<string>, today: string, limit: real, freshHash: Hash)

  /** The request handed to the generator; the fields the source leaves `undefined` are `None`. */
  datatype Params = Params(
    generationType: GenerationType,
    inputMode: InputMode,
    prompt: PromptContent,
    history: Option<seq<PromptContent>>,
    isImportedFromCode: Option<bool>)

  datatype Request = Request(params: Params, commitHash: Hash)

  datatype Failure = NoHead | HeadMissing | InvalidHistory | ParentNotFound

  /** An action either finishes, possibly starting a generation, or throws, leaving the state it had reached. */
  datatype Step = Done(app: App, started: Option<Request>) | Raised(app: App, error: Failure)

  const VariantCount := 4
  const ElementSuffix := " referring to this element specifically: "

  /** The key quota is checked only on the hosted build and only when the user's key is set. */
  predicate QuotaApplies(env: Env) {
    env.onCloud && env.openAiApiKey.Some? && env.openAiApiKey.value != ""
  }

  /** The quota refuses today's next generation. */
  predicate Blocked(app: App, env: Env) {
    QuotaApplies(env) && !ApiKeyCounter.TryConsume(app.keyCounter, env.today, env.limit).ok
  }

  /** `reset`: back to the start screen with no versions; the initial prompt and the key counter survive. */
  function Reset(app: App): (r: App)
    ensures r.appState == Initial && r.store == EmptyStore
    ensures r.inputMode == ImageInput && r.referenceImages == [] && !r.isImportedFromCode
    ensures r.isPortfolioFullscreen && r.showClippyAssistant && !r.inSelectAndEdit
    ensures r.updateInstruction == "" && r.updateImages == [] && r.consoles == []
    ensures r.initialPrompt == app.initialPrompt && r.keyCounter == app.keyCounter
  {
    App(Initial, true, true, "", [], false, [], EmptyStore, ImageInput, [], false, app.initialPrompt, app.keyCounter)
  }

  /** The commit a generation starts: four empty variants, the first one selected. */
  function NewCommit(head: Option<Hash>, params: Params, hash: Hash): (c: Commit)
    ensures c.hash == hash && |c.variants| == VariantCount && c.selectedVariantIndex == 0
    ensures forall i :: 0 <= i < |c.variants| ==> c.variants[i].code == ""
    ensures params.generationType == Create ==>
      c.kind == AiCreate && c.parentHash.None? && c.inputs == Some(params.prompt)
    ensures params.generationType == Update ==> c.kind == AiEdit && c.parentHash == head
    ensures params.generationType == Update && params.history.None? ==> c.inputs == Some(PromptContent("", []))
    ensures params.generationType == Update && params.history.Some? ==>
      c.inputs == (if params.history.value == [] then None else Some(params.history.value[|params.history.value| - 1]))
  {
    var variants := seq(VariantCount, _ => Variant(""));
    match params.generationType
    case Create => Commit(hash, AiCreate, None, Some(params.prompt), variants, 0)
    case Update =>
      var inputs :=
        match params.history
        case None => Some(PromptContent("", []))
        case Some(h) => if h == [] then None else Some(h[|h| - 1]);
      Commit(hash, AiEdit, head, inputs, variants, 0)
  }

  /**
   * `doGenerateCode`: when the quota refuses, nothing changes and nothing
   * starts; otherwise the quota is charged, the consoles cleared, a new
   * commit becomes head and the screen shows CODING.
   */
  function DoGenerateCode(app: App, env: Env, params: Params): (r: Step)
    ensures r.Done?
    ensures Blocked(app, env) ==> r == Done(app, None)
    ensures !Blocked(app, env) ==>
      && r.started == Some(Request(params, env.freshHash))
      && r.app.appState == Coding
      && r.app.consoles == []
      && r.app.store == SetHead(AddCommit(app.store, NewCommit(app.store.head, params, env.freshHash)), env.freshHash)
      && r.app.keyCounter == (if QuotaApplies(env) then ApiKeyCounter.After(app.keyCounter, env.today, env.limit) else app.keyCounter)
      && r.app.(appState := app.appState, consoles := app.consoles, store := app.store, keyCounter := app.keyCounter) == app
  {
    if Blocked(app, env) then Done(app, None)
    else
      var counter := if QuotaApplies(env) then ApiKeyCounter.After(app.keyCounter, env.today, env.limit) else app.keyCounter;
      var c := NewCommit(app.store.head, params, env.freshHash);
      var store := SetHead(AddCommit(app.store, c), c.hash);
      Done(app.(consoles := [], appState := Coding, store := store, keyCounter := counter), Some(Request(params, c.hash)))
  }

  /** `onComplete`: the generation finished; the screen shows CODE_READY and nothing else changes. */
  function OnComplete(app: App): (r: App)
    ensures r.appState == CodeReady && r.(appState := app.appState) == app
  {
    app.(appState := CodeReady)
  }

  /**
   * `cancelCodeGenerationAndReset`: a first version resets everything; a
   * later one is removed and the head goes back to its parent, which must
   * be a non-empty hash or the call throws after the removal.
   */
  function CancelCodeGenerationAndReset(app: App, commit: Commit): (r: Step)
    ensures commit.kind == AiCreate ==> r == Done(Reset(app), None)
    ensures commit.kind == AiEdit ==> r.app.store.commits == RemoveCommit(app.store, commit.hash).commits
    ensures commit.kind == AiEdit && commit.parentHash.Some? && commit.parentHash.value != "" ==>
      r == Done(app.(store := Store(r.app.store.commits, commit.parentHash), appState := CodeReady), None)
    ensures commit.kind == AiEdit && !(commit.parentHash.Some? && commit.parentHash.value != "") ==>
      r == Raised(app.(store := RemoveCommit(app.store, commit.hash)), ParentNotFound)
  {
    if commit.kind == AiCreate then Done(Reset(app), None)
    else
      var removed := app.(store := RemoveCommit(app.store, commit.hash));
      if commit.parentHash.Some? && commit.parentHash.value != "" then
        Done(removed.(store := SetHead(removed.store, commit.parentHash.value), appState := CodeReady), None)
      else
        Raised(removed, ParentNotFound)
  }

  /** The prompt of a first version: a video sends only its first frame source. */
  function CreatePrompt(images: seq<string>, mode: InputMode, textPrompt: string): (p: PromptContent)
    requires |images| > 0
    ensures p.text == textPrompt
    ensures mode == VideoInput ==> p.images == [images[0]]
    ensures mode != VideoInput ==> p.images == images
  {
    PromptContent(textPrompt, if mode == VideoInput then [images[0]] else images)
  }

  /**
   * `doCreate`: always resets first and records the inputs; without images
   * nothing is generated.
   */
  function DoCreate(app: App, env: Env, images: seq<string>, mode: InputMode, textPrompt: string): (r: Step)
    requires mode != TextInput
    ensures r.Done?
    ensures var base := Reset(app).(referenceImages := images, inputMode := mode);
      && (images == [] ==> r == Done(base, None))
      && (images != [] ==>
            r == DoGenerateCode(base, env, Params(Create, mode, CreatePrompt(images, mode, textPrompt), None, None)))
  {
    var base := Reset(app).(referenceImages := images, inputMode := mode);
    if |images| > 0 then
      DoGenerateCode(base, env, Params(Create, mode, CreatePrompt(images, mode, textPrompt), None, None))
    else
      Done(base, None)
  }

  /** `doCreateFromText`: resets, switches to text mode, remembers the prompt and generates from it. */
  function DoCreateFromText(app: App, env: Env, text: string): (r: Step)
    ensures var base := Reset(app).(inputMode := TextInput, initialPrompt := text);
      r == DoGenerateCode(base, env, Params(Create, TextInput, PromptContent(text, []), None, None))
  {
    var base := Reset(app).(inputMode := TextInput, initialPrompt := text);
    DoGenerateCode(base, env, Params(Create, TextInput, PromptContent(text, []), None, None))
  }

  /**
   * `regenerate`: throws without a head (or when the head names no commit,
   * where the source fails reading its type); only a first version can be
   * regenerated, by re-running its creation from the stored inputs.
   */
  function Regenerate(app: App, env: Env): (r: Step)
    ensures app.store.head.None? ==> r == Raised(app, NoHead)
    ensures app.store.head.Some? && app.store.head.value !in app.store.commits ==> r == Raised(app, HeadMissing)
    ensures app.store.head.Some? && app.store.head.value in app.store.commits ==>
      var current := app.store.commits[app.store.head.value];
      && (current.kind == AiEdit ==> r == Done(app, None))
      && (current.kind == AiCreate && app.inputMode != TextInput ==>
            r == DoCreate(app, env, app.referenceImages, app.inputMode, ""))
      && (current.kind == AiCreate && app.inputMode == TextInput ==>
            r == DoCreateFromText(app, env, app.initialPrompt))
  {
    match app.store.head
    case None => Raised(app, NoHead)
    case Some(h) =>
      if h !in app.store.commits then Raised(app, HeadMissing)
      else if app.store.commits[h].kind != AiCreate then Done(app, None)
      else if app.inputMode != TextInput then DoCreate(app, env, app.referenceImages, app.inputMode, "")
      else DoCreateFromText(app, env, app.initialPrompt)
  }

  /** The new history turn: the instruction, naming the selected element's markup when there is one. */
  function UpdateText(instruction: string, selectedElement: Option<string>): (t: string)
    ensures selectedElement.None? ==> t == instruction
    ensures selectedElement.Some? ==>
      && |t| >= |instruction|
      && t[..|instruction|] == instruction
      && t[|instruction|..] == ElementSuffix + selectedElement.value
  {
    if selectedElement.Some? then
      var tail := ElementSuffix + selectedElement.value;
      assert instruction + ElementSuffix + selectedElement.value == instruction + tail;
      assert (instruction + tail)[..|instruction|] == instruction && (instruction + tail)[|instruction|..] == tail;
      instruction + tail
    else instruction
  }

  /** The base prompt of an edit: the initial text in text mode, else the first reference image. */
  function UpdatePrompt(app: App): (p: PromptContent)
    ensures app.inputMode == TextInput ==> p == PromptContent(app.initialPrompt, [])
    ensures app.inputMode != TextInput ==> p.text == "" && p.images == app.referenceImages[..if |app.referenceImages| > 0 then 1 else 0]
  {
    if app.inputMode == TextInput then PromptContent(app.initialPrompt, [])
    else PromptContent("", if |app.referenceImages| > 0 then [app.referenceImages[0]] else [])
  }

  /**
   * `doUpdate`: a blank instruction changes nothing; without a head, or when
   * the store's history cannot be extracted (`history == None`), it throws.
   * Otherwise the generator gets the extracted history plus one new turn,
   * and the instruction box is cleared even when the quota refused.
   */
  function DoUpdate(app: App, env: Env, instruction: string, selectedElement: Option<string>,
                    history: Option<seq<PromptContent>>): (r: Step)
    ensures JsBlank(instruction) ==> r == Done(app, None)
    ensures !JsBlank(instruction) && app.store.head.None? ==> r == Raised(app, NoHead)
    ensures !JsBlank(instruction) && app.store.head.Some? && history.None? ==> r == Raised(app, InvalidHistory)
    ensures !JsBlank(instruction) && app.store.head.Some? && history.Some? ==>
      var sent := history.value + [PromptContent(UpdateText(instruction, selectedElement), app.updateImages)];
      var g := DoGenerateCode(app, env, Params(Update, app.inputMode, UpdatePrompt(app), Some(sent), Some(app.isImportedFromCode)));
      r == Done(g.app.(updateInstruction := "", updateImages := []), g.started)
  {
    if JsTrim(instruction) == "" then Done(app, None)
    else if app.store.head.None? then Raised(app, NoHead)
    else if history.None? then Raised(app, InvalidHistory)
    else
      var sent := history.value + [PromptContent(UpdateText(instruction, selectedElement), app.updateImages)];
      var g := DoGenerateCode(app, env, Params(Update, app.inputMode, UpdatePrompt(app), Some(sent), Some(app.isImportedFromCode)));
      Done(g.app.(updateInstruction := "", updateImages := []), g.started)
  }

  /** A state every action of the shell keeps: a well-formed store, and a reference image whenever an image or video version exists. */
  predicate Consistent(app: App) {
    && WellFormed(app.store)
    && (app.store.head.Some? && app.inputMode != TextInput ==> |app.referenceImages| > 0)
  }

  /** When the quota refuses, a creation still resets the screen but starts no generation and records no version. */
  lemma BlockedCreateStartsNothing(app: App, env: Env, images: seq<string>, mode: InputMode, textPrompt: string)
    requires mode != TextInput
    requires Blocked(app, env)
    ensures var r := DoCreate(app, env, images, mode, textPrompt);
      r.started.None? && r.app.store == EmptyStore && r.app.appState == Initial && r.app.keyCounter == app.keyCounter
  {
    assert Blocked(Reset(app).(referenceImages := images, inputMode := mode), env);
  }

  /** A started creation leaves exactly one version, the new first version, as head. */
  lemma CreateLeavesOneRoot(app: App, env: Env, images: seq<string>, mode: InputMode, textPrompt: string)
    requires mode != TextInput && images != []
    requires !Blocked(app, env)
    ensures var r := DoCreate(app, env, images, mode, textPrompt);
      && r.started.Some? && r.app.appState == Coding
      && r.app.store.head == Some(env.freshHash)
      && r.app.store.commits.Keys == {env.freshHash}
      && r.app.store.commits[env.freshHash].kind == AiCreate
      && r.app.store.commits[env.freshHash].parentHash.None?
      && r.app.store.commits[env.freshHash].inputs == Some(CreatePrompt(images, mode, textPrompt))
  {
    var base := Reset(app).(referenceImages := images, inputMode := mode);
    assert !Blocked(base, env);
  }

  /** Cancelling a started creation lands on the start screen, as a reset of the state before it would. */
  lemma CreateThenCancelResets(app: App, env: Env, images: seq<string>, mode: InputMode, textPrompt: string)
    requires mode != TextInput && images != []
    requires !Blocked(app, env)
    ensures var r := DoCreate(app, env, images, mode, textPrompt);
      && env.freshHash in r.app.store.commits
      && CancelCodeGenerationAndReset(r.app, r.app.store.commits[env.freshHash])
         == Done(Reset(app).(keyCounter := r.app.keyCounter), None)
  {
    CreateLeavesOneRoot(app, env, images, mode, textPrompt);
  }

  /** The same for a creation from text, except that the prompt typed is kept. */
  lemma CreateFromTextThenCancelResets(app: App, env: Env, text: string)
    requires !Blocked(app, env)
    ensures var r := DoCreateFromText(app, env, text);
      && env.freshHash in r.app.store.commits
      && CancelCodeGenerationAndReset(r.app, r.app.store.commits[env.freshHash])
         == Done(Reset(app).(initialPrompt := text, keyCounter := r.app.keyCounter), None)
  {
    assert !Blocked(Reset(app).(inputMode := TextInput, initialPrompt := text), env);
  }

  /**
   * Cancelling a started edit restores the version store exactly as it was
   * before the edit, with the old head, and shows CODE_READY.
   */
  lemma UpdateThenCancelRestores(app: App, env: Env, instruction: string, selectedElement: Option<string>,
                                 history: seq<PromptContent>)
    requires WellFormed(app.store) && env.freshHash !in app.store.commits
    requires app.store.head.Some? && app.store.head.value != ""
    requires !JsBlank(instruction) && !Blocked(app, env)
    ensures var r := DoUpdate(app, env, instruction, selectedElement, Some(history));
      && r.started.Some?
      && env.freshHash in r.app.store.commits
      && var c := CancelCodeGenerationAndReset(r.app, r.app.store.commits[env.freshHash]);
         c.Done? && c.started.None? && c.app.store == app.store && c.app.appState == CodeReady
  {
    var r := DoUpdate(app, env, instruction, selectedElement, Some(history));
    var sent := history + [PromptContent(UpdateText(instruction, selectedElement), app.updateImages)];
    var c := NewCommit(app.store.head, Params(Update, app.inputMode, UpdatePrompt(app), Some(sent), Some(app.isImportedFromCode)), env.freshHash);
    assert r.app.store.commits[env.freshHash] == c;
    RemoveUndoesAdd(app.store, c);
  }

  /** The consistency invariant survives every action that finishes. */
  lemma ResetIsConsistent(app: App)
    ensures Consistent(Reset(app))
  {
  }

  lemma GenerateKeepsConsistent(app: App, env: Env, params: Params)
    requires Consistent(app)
    requires params.inputMode == app.inputMode
    requires app.inputMode != TextInput ==> |app.referenceImages| > 0
    ensures Consistent(DoGenerateCode(app, env, params).app)
  {
    AddAsHeadKeepsWellFormed(app.store, NewCommit(app.store.head, params, env.freshHash));
  }

  lemma CreateKeepsConsistent(app: App, env: Env, images: seq<string>, mode: InputMode, textPrompt: string)
    requires mode != TextInput
    ensures Consistent(DoCreate(app, env, images, mode, textPrompt).app)
  {
    var base := Reset(app).(referenceImages := images, inputMode := mode);
    if images != [] {
      GenerateKeepsConsistent(base, env, Params(Create, mode, CreatePrompt(images, mode, textPrompt), None, None));
    }
  }

  lemma CreateFromTextKeepsConsistent(app: App, env: Env, text: string)
    ensures Consistent(DoCreateFromText(app, env, text).app)
  {
    var base := Reset(app).(inputMode := TextInput, initialPrompt := text);
    GenerateKeepsConsistent(base, env, Params(Create, TextInput, PromptContent(text, []), None, None));
  }

  lemma UpdateKeepsConsistent(app: App, env: Env, instruction: string, selectedElement: Option<string>,
                              history: Option<seq<PromptContent>>)
    requires Consistent(app)
    ensures Consistent(DoUpdate(app, env, instruction, selectedElement, history).app)
  {
    if !JsBlank(instruction) && app.store.head.Some? && history.Some? {
      var sent := history.value + [PromptContent(UpdateText(instruction, selectedElement), app.updateImages)];
      GenerateKeepsConsistent(app, env, Params(Update, app.inputMode, UpdatePrompt(app), Some(sent), Some(app.isImportedFromCode)));
    }
  }

  lemma RegenerateKeepsConsistent(app: App, env: Env)
    requires Consistent(app)
    ensures Consistent(Regenerate(app, env).app)
  {
    if app.store.head.Some? && app.store.head.value in app.store.commits && app.store.commits[app.store.head.value].kind == AiCreate {
      if app.inputMode != TextInput {
        CreateKeepsConsistent(app, env, app.referenceImages, app.inputMode, "");
      } else {
        CreateFromTextKeepsConsistent(app, env, app.initialPrompt);
      }
    }
  }

  /**
   * Cancelling an edit whose parent is another stored version keeps the
   * invariant. (With an empty parent hash the call throws after removing the
   * commit, which can leave the head naming a removed version.)
   */
  lemma CancelKeepsConsistent(app: App, commit: Commit)
    requires Consistent(app) && app.store.head.Some?
    requires commit.kind == AiEdit && commit.parentHash.Some? && commit.parentHash.value != ""
    requires commit.parentHash.value in app.store.commits && commit.parentHash.value != commit.hash
    ensures Consistent(CancelCodeGenerationAndReset(app, commit).app)
  {
    RemoveToParentKeepsWellFormed(app.store, commit.hash, commit.parentHash.value);
  }

  /** In a consistent state an edit of an image or video version always sends that version's first reference image. */
  lemma UpdateSendsFirstReferenceImage(app: App)
    requires Consistent(app) && app.store.head.Some? && app.inputMode != TextInput
    ensures UpdatePrompt(app) == PromptContent("", [app.referenceImages[0]])
  {
  }
}

/**
 * The sidebar's theme-reference form: a screenshot (dropped or picked) or a
 * text description, and the Generate button that hands either one to the
 * generator. Reading a file into a data URL (RFC 2397) and creating object
 * URLs are browser services: their results are inputs here.
 */
module SidebarUpload {
  import opened Wrappers
  import opened Text

  datatype Mode = ImageMode | TextMode

  datatype UploadState = UploadState(previewUrl: Option<string>, dataUrl: Option<string>, textPrompt: string, mode: Mode)

  /** What the Generate button does: start from text, start from the screenshot, or show an error toast. */
  datatype Dispatch =
    | CreateFromText(text: string)
    | CreateFromImages(images: seq<string>, inputMode: string, textPrompt: string)
    | ShowError

  /** A dropped file: its declared MIME type and the data URL the reader produced, or `None` when reading failed. */
  datatype DroppedFile = DroppedFile(mime: string, read: Option<string>)

  const OctetStreamPrefix := "data:application/octet-stream"
  const DataScheme := "data:"

  /** A JavaScript string is truthy when it is not empty. */
  predicate Truthy(s: Option<string>) {
    s.Some? && s.value != ""
  }

  /**
   * The MIME fix in `fileToDataURL`: a data URL the reader labelled as an
   * octet stream gets the file's own type, when the file has one.
   */
  function FixDataUrlMime(result: string, fileType: string): (r: string)
    ensures !StartsWith(result, OctetStreamPrefix) || fileType == "" ==> r == result
    ensures StartsWith(result, OctetStreamPrefix) && fileType != "" && '$' !in fileType ==>
      r == DataScheme + fileType + result[|OctetStreamPrefix|..]
  {
    if StartsWith(result, OctetStreamPrefix) && fileType != "" then
      var r := ReplaceFirst(result, OctetStreamPrefix, DataScheme + fileType);
      assert IndexOf(result, OctetStreamPrefix) == Some(0) by {
        IndexOfIs(result, OctetStreamPrefix, 0);
      }
      assert '$' !in fileType ==> '$' !in DataScheme + fileType by {
        assert forall i :: 0 <= i < |DataScheme| ==> DataScheme[i] != '$';
      }
      if '$' !in DataScheme + fileType then
        ExpandLiteral(DataScheme + fileType, OctetStreamPrefix, [], result[|OctetStreamPrefix|..]);
        r
      else r
    else result
  }

  /** The rewrite keeps the payload: only the media type before it changes, and the result is still a data URL. */
  lemma MimeFixKeepsPayload(result: string, fileType: string)
    requires '$' !in fileType
    ensures var r := FixDataUrlMime(result, fileType);
      && |r| >= |result| - |OctetStreamPrefix|
      && (StartsWith(result, DataScheme) ==> StartsWith(r, DataScheme))
      && (StartsWith(result, OctetStreamPrefix) ==>
            r[|r| - (|result| - |OctetStreamPrefix|)..] == result[|OctetStreamPrefix|..])
  {
    var r := FixDataUrlMime(result, fileType);
    if StartsWith(result, OctetStreamPrefix) && fileType != "" {
      assert r == DataScheme + fileType + result[|OctetStreamPrefix|..];
      assert r[..|DataScheme|] == DataScheme;
    }
  }

  /** `handleDrop`: no file changes nothing; a read file becomes the screenshot and forces screenshot mode. */
  function HandleDrop(s: UploadState, accepted: seq<DroppedFile>, objectUrl: string): (r: UploadState)
    ensures accepted == [] ==> r == s
    ensures accepted != [] && accepted[0].read.None? ==> r == s
    ensures accepted != [] && accepted[0].read.Some? ==>
      r == UploadState(Some(objectUrl), Some(FixDataUrlMime(accepted[0].read.value, accepted[0].mime)), s.textPrompt, ImageMode)
  {
    if accepted == [] then s
    else
      var file := accepted[0];
      match file.read
      case None => s
      case Some(raw) => s.(previewUrl := Some(objectUrl), dataUrl := Some(FixDataUrlMime(raw, file.mime)), mode := ImageMode)
  }

  /** `handleClear`: forgets the screenshot and keeps the text and the mode. */
  function HandleClear(s: UploadState): (r: UploadState)
    ensures r.previewUrl.None? && r.dataUrl.None?
    ensures r.textPrompt == s.textPrompt && r.mode == s.mode
  {
    s.(previewUrl := None, dataUrl := None)
  }

  /** `handleGenerate`: text mode with a non-blank prompt wins; otherwise the screenshot, with the prompt as extra instructions. */
  function HandleGenerate(s: UploadState): (r: Dispatch)
    ensures r.CreateFromText? <==> s.mode == TextMode && !JsBlank(s.textPrompt)
    ensures r.CreateFromText? ==> r.text == s.textPrompt
    ensures r.CreateFromImages? <==> !(s.mode == TextMode && !JsBlank(s.textPrompt)) && Truthy(s.dataUrl)
    ensures r.CreateFromImages? ==> r == CreateFromImages([s.dataUrl.value], "image", s.textPrompt)
    ensures r.ShowError? <==> !(s.mode == TextMode && !JsBlank(s.textPrompt)) && !Truthy(s.dataUrl)
  {
    if s.mode == TextMode && JsTrim(s.textPrompt) != "" then CreateFromText(s.textPrompt)
    else if Truthy(s.dataUrl) then CreateFromImages([s.dataUrl.value], "image", s.textPrompt)
    else ShowError
  }

  /** After Clear, Generate can only start from text: in screenshot mode it reports an error. */
  lemma ClearThenGenerateNeedsText(s: UploadState)
    ensures HandleGenerate(HandleClear(s)).CreateFromText? || HandleGenerate(HandleClear(s)).ShowError?
    ensures s.mode == ImageMode ==> HandleGenerate(HandleClear(s)) == ShowError
  {
  }

  /** A successful drop makes Generate start from the new screenshot, whatever mode the form was in. */
  lemma DropThenGenerateUsesScreenshot(s: UploadState, file: DroppedFile, objectUrl: string)
    requires file.read.Some? && file.read.value != ""
    ensures HandleGenerate(HandleDrop(s, [file], objectUrl)) ==
      CreateFromImages([FixDataUrlMime(file.read.value, file.mime)], "image", s.textPrompt)
  {
    var raw := file.read.value;
    if StartsWith(raw, OctetStreamPrefix) && file.mime != "" {
      assert |ReplaceFirst(raw, OctetStreamPrefix, DataScheme + file.mime)| > 0 by {
        IndexOfIs(raw, OctetStreamPrefix, 0);
      }
    }
  }
}

/**
 * Picking the image out of a paste event. A clipboard transfer carries a list
 * of files and a list of items; an item has a MIME type and may or may not
 * yield a file. The files are searched first, and the items only when no file
 * is an image.
 */
module Clipboard {
  import opened Wrappers
  import opened Text

  datatype FileRef = FileRef(name: string, mime: string)

  /** A transfer item: its declared type, and what `getAsFile()` returns. */
  datatype ClipItem = ClipItem(mime: string, asFile: Option<FileRef>)

  datatype ClipboardData = ClipboardData(files: seq<FileRef>, items: seq<ClipItem>)

  const ImagePrefix := "image/"

  predicate IsImage(mime: string) {
    StartsWith(mime, ImagePrefix)
  }

  /** An item the fallback accepts: image-typed, with a file behind it. */
  predicate UsableItem(it: ClipItem) {
    IsImage(it.mime) && it.asFile.Some?
  }

  /** `k` is the first image among the files. */
  predicate FirstImageFileAt(files: seq<FileRef>, k: nat) {
    k < |files| && IsImage(files[k].mime) && forall j :: 0 <= j < k ==> !IsImage(files[j].mime)
  }

  /** `k` is the first usable item. */
  predicate FirstUsableItemAt(items: seq<ClipItem>, k: nat) {
    k < |items| && UsableItem(items[k]) && forall j :: 0 <= j < k ==> !UsableItem(items[j])
  }

  /** `extractImageFileFromClipboardData`: the first image file, else the first usable image item's file, else nothing. */
  method ExtractImageFile(data: Option<ClipboardData>) returns (r: Option<FileRef>)
    ensures data.None? ==> r.None?
    ensures data.Some? && (exists k: nat :: FirstImageFileAt(data.value.files, k)) ==>
      exists k: nat :: FirstImageFileAt(data.value.files, k) && r == Some(data.value.files[k])
    ensures data.Some? && (forall j :: 0 <= j < |data.value.files| ==> !IsImage(data.value.files[j].mime)) ==>
      ((exists k: nat :: FirstUsableItemAt(data.value.items, k) && r == data.value.items[k].asFile) ||
       ((forall j :: 0 <= j < |data.value.items| ==> !UsableItem(data.value.items[j])) && r.None?))
    ensures r.Some? ==>
      (exists j :: 0 <= j < |data.value.files| && data.value.files[j] == r.value && IsImage(data.value.files[j].mime)) ||
      (exists j :: 0 <= j < |data.value.items| && data.value.items[j].asFile == r && IsImage(data.value.items[j].mime))
  {
    if data.None? {
      return None;
    }
    var files := data.value.files;
    var i := 0;
    while i < |files|
      invariant 0 <= i <= |files|
      invariant forall j :: 0 <= j < i ==> !IsImage(files[j].mime)
    {
      if IsImage(files[i].mime) {
        assert FirstImageFileAt(files, i);
        return Some(files[i]);
      }
      i := i + 1;
    }
    var items := data.value.items;
    i := 0;
    while i < |items|
      invariant 0 <= i <= |items|
      invariant forall j :: 0 <= j < i ==> !UsableItem(items[j])
    {
      if IsImage(items[i].mime) {
        var file := items[i].asFile;
        if file.Some? {
          assert FirstUsableItemAt(items, i);
          return file;
        }
      }
      i := i + 1;
    }
    return None;
  }

  /** An image in the files wins over any item, whatever the items hold. */
  method FilesArePreferred(file: FileRef, items: seq<ClipItem>) returns (r: Option<FileRef>)
    requires IsImage(file.mime)
    ensures r == Some(file)
  {
    r := ExtractImageFile(Some(ClipboardData([file], items)));
    assert FirstImageFileAt([file], 0);
  }

  /** An image-typed item without a file behind it yields nothing. */
  method FilelessItemIsSkipped(mime: string) returns (r: Option<FileRef>)
    ensures r.None?
  {
    r := ExtractImageFile(Some(ClipboardData([], [ClipItem(mime, None)])));
  }
}

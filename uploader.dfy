/** The upload panel: which of the chosen or dropped files are kept, and the
    panel's state (the kept files and the dragging highlight). */
module Uploader {
  import opened Types
  import opened JsStrings

  /** At most this many files are kept from one selection. */
  const MAX_FILES: nat := 20

  /** `file.type.startsWith('image/')`. */
  predicate IsImage(f: File) {
    StartsWith(f.mimeType, "image/")
  }

  /** `.filter(file => file.type.startsWith('image/'))`: the image files, in
      their original order. */
  function FilterImages(fs: seq<File>): (images: seq<File>)
    ensures |images| <= |fs|
    ensures forall k :: 0 <= k < |images| ==> IsImage(images[k])
    decreases |fs|
  {
    if fs == [] then []
    else
      var last := fs[|fs| - 1];
      FilterImages(fs[..|fs| - 1]) + (if IsImage(last) then [last] else [])
  }

  /** The positions of the image files, in increasing order: an independent
      statement of which files the filter keeps. */
  function ImagePositions(fs: seq<File>): (ps: seq<nat>)
    ensures forall k :: 0 <= k < |ps| ==> ps[k] < |fs| && IsImage(fs[ps[k]])
    ensures forall k, m :: 0 <= k < m < |ps| ==> ps[k] < ps[m]
    ensures forall p :: 0 <= p < |fs| && IsImage(fs[p]) ==> p in ps
    decreases |fs|
  {
    if fs == [] then []
    else
      var init := fs[..|fs| - 1];
      var ps := ImagePositions(init);
      assert forall p :: 0 <= p < |init| ==> init[p] == fs[p];
      ps + (if IsImage(fs[|fs| - 1]) then [|fs| - 1] else [])
  }

  /** The filter keeps exactly the files at the image positions, in that
      order: nothing else, nothing twice, and no image is dropped. */
  lemma {:induction false} FilterImagesAtPositions(fs: seq<File>)
    ensures |FilterImages(fs)| == |ImagePositions(fs)|
    ensures forall k :: 0 <= k < |FilterImages(fs)| ==> FilterImages(fs)[k] == fs[ImagePositions(fs)[k]]
    decreases |fs|
  {
    if fs != [] {
      var init := fs[..|fs| - 1];
      FilterImagesAtPositions(init);
      assert forall p :: 0 <= p < |init| ==> init[p] == fs[p];
    }
  }

  function Min(a: nat, b: nat): nat {
    if a <= b then a else b
  }

  /** `.filter(...).slice(0, MAX_FILES)`: the image files, cut after the
      first MAX_FILES. */
  function SelectFiles(fs: seq<File>): (selected: seq<File>)
    ensures |selected| == Min(MAX_FILES, |FilterImages(fs)|)
    ensures selected == FilterImages(fs)[..|selected|]
  {
    var images := FilterImages(fs);
    if |images| <= MAX_FILES then images else images[..MAX_FILES]
  }

  /** The selection is exactly the first min(MAX_FILES, number of images)
      image files, in their original order; all of them are images, and
      there are never more than MAX_FILES. */
  lemma SelectionIsFirstImages(fs: seq<File>)
    ensures var selected := SelectFiles(fs);
            && |selected| <= MAX_FILES
            && (forall k :: 0 <= k < |selected| ==> IsImage(selected[k]))
            && |selected| == Min(MAX_FILES, |ImagePositions(fs)|)
            && forall k :: 0 <= k < |selected| ==> selected[k] == fs[ImagePositions(fs)[k]]
  {
    FilterImagesAtPositions(fs);
  }

  /** A selection with no image file in it leaves nothing selected. */
  lemma {:induction false} NoImagesSelectsNothing(fs: seq<File>)
    requires forall k :: 0 <= k < |fs| ==> !IsImage(fs[k])
    ensures SelectFiles(fs) == []
    decreases |fs|
  {
    if fs != [] {
      NoImagesSelectsNothing(fs[..|fs| - 1]);
    }
  }

  /** The panel's state. */
  class ImageUploader {
    var files: seq<File>
    var isDragging: bool

    /** What every handler keeps: only image files, at most MAX_FILES. */
    ghost predicate Valid()
      reads this
    {
      && |files| <= MAX_FILES
      && forall k :: 0 <= k < |files| ==> IsImage(files[k])
    }

    constructor ()
      ensures Valid() && files == [] && !isDragging
    {
      files := [];
      isDragging := false;
    }

    /** `handleFileChange`: when the input has a file list (even an empty
        one) the selection is replaced by what SelectFiles keeps of it; with
        no list nothing changes. */
    method FileChange(chosen: Option<seq<File>>)
      requires Valid()
      modifies this
      ensures Valid()
      ensures files == if chosen.Some? then SelectFiles(chosen.value) else old(files)
      ensures isDragging == old(isDragging)
    {
      if chosen.Some? {
        var selectedFiles := SelectFiles(chosen.value);
        SelectionIsFirstImages(chosen.value);
        files := selectedFiles;
      }
    }

    /** `handleDrop`: the highlight goes off; a non-empty dropped list
        replaces the selection by what SelectFiles keeps of it, and an
        absent or empty one leaves the selection as it was. */
    method Drop(dropped: Option<seq<File>>)
      requires Valid()
      modifies this
      ensures Valid() && !isDragging
      ensures files == if dropped.Some? && |dropped.value| > 0 then SelectFiles(dropped.value) else old(files)
    {
      isDragging := false;
      if dropped.Some? && |dropped.value| > 0 {
        var selectedFiles := SelectFiles(dropped.value);
        SelectionIsFirstImages(dropped.value);
        files := selectedFiles;
      }
    }

    /** `handleDragEvents`: "dragenter" and "dragover" turn the highlight
        on, "dragleave" turns it off, any other event type leaves it; the
        selection never changes. */
    method DragEvent(eventType: string)
      modifies this
      ensures files == old(files)
      ensures eventType == "dragenter" || eventType == "dragover" ==> isDragging
      ensures eventType == "dragleave" ==> !isDragging
      ensures eventType != "dragenter" && eventType != "dragover" && eventType != "dragleave" ==>
                isDragging == old(isDragging)
    {
      if eventType == "dragenter" || eventType == "dragover" {
        isDragging := true;
      } else if eventType == "dragleave" {
        isDragging := false;
      }
    }

    /** `clearFiles`: nothing is selected any more. */
    method Clear()
      modifies this
      ensures Valid() && files == [] && isDragging == old(isDragging)
    {
      files := [];
    }

    /** `handleProcessClick`: the current selection, as it is, is what the
        batch handler receives; so it holds only images and at most
        MAX_FILES of them. */
    method ProcessClick() returns (batch: seq<File>)
      requires Valid()
      ensures batch == files
      ensures |batch| <= MAX_FILES && forall k :: 0 <= k < |batch| ==> IsImage(batch[k])
    {
      batch := files;
    }
  }
}

/**
 * The `change` handler of the image file input: it empties the preview area,
 * rejects a selection of more than five files by clearing the input, and
 * otherwise starts a preview for every selected file whose MIME type starts
 * with "image/". A preview is tagged with the file's index in the selection.
 */
module FileUpload {

  const MAX_FILES := 5
  const IMAGE_PREFIX := "image/"

  /** A selected file, reduced to what the handler reads of it. */
  datatype File = File(name: string, mimeType: string)

  /** `file.type.startsWith('image/')`. */
  predicate IsImage(f: File)
  {
    |f.mimeType| >= |IMAGE_PREFIX| && f.mimeType[..|IMAGE_PREFIX|] == IMAGE_PREFIX
  }

  /** The indices of the image files of a selection, in selection order. */
  function ImageIndices(files: seq<File>): (r: seq<nat>)
    ensures |r| <= |files|
    ensures forall i :: i in r ==> i < |files|
    ensures forall i :: 0 <= i < |files| ==> (i in r <==> IsImage(files[i]))
    ensures forall a, b :: 0 <= a < b < |r| ==> r[a] < r[b]
  {
    if files == [] then []
    else
      var n := |files| - 1;
      var init := ImageIndices(files[..n]);
      assert forall a :: 0 <= a < |init| ==> init[a] in init;
      init + (if IsImage(files[n]) then [n] else [])
  }

  /** The number of image files in a selection. */
  function ImageCount(files: seq<File>): nat
  {
    if files == [] then 0
    else ImageCount(files[..|files| - 1]) + (if IsImage(files[|files| - 1]) then 1 else 0)
  }

  /** One preview per image file: as many previews as there are image files. */
  lemma {:induction false} PreviewCountIsImageCount(files: seq<File>)
    ensures |ImageIndices(files)| == ImageCount(files)
  {
    if files != [] {
      PreviewCountIsImageCount(files[..|files| - 1]);
    }
  }

  /** A selection made only of images gets one preview per file. */
  lemma {:induction false} AllImagesAllPreviewed(files: seq<File>)
    requires forall i :: 0 <= i < |files| ==> IsImage(files[i])
    ensures ImageIndices(files) == seq(|files|, i => i)
  {
    if files != [] {
      var n := |files| - 1;
      AllImagesAllPreviewed(files[..n]);
    }
  }

  class FileInput {
    /** `fileInput.files`: the current selection. */
    var files: seq<File>
    /**
     * The indices of the files whose preview the handler has requested since
     * the preview area was last emptied.
     */
    var previews: seq<nat>

    /** The change handler; `rejected` is true when it alerts and clears the input. */
    method OnChange() returns (rejected: bool)
      modifies this
      ensures rejected <==> |old(files)| > MAX_FILES
      ensures rejected ==> files == [] && previews == []
      ensures !rejected ==> files == old(files) && previews == ImageIndices(files)
      ensures |previews| <= MAX_FILES
    {
      previews := [];
      if |files| > MAX_FILES {
        files := [];
        return true;
      }
      for index := 0 to |files|
        modifies this`previews
        invariant previews == ImageIndices(files[..index])
      {
        assert files[..index + 1][..index] == files[..index];
        if |files[index].mimeType| >= |IMAGE_PREFIX| && files[index].mimeType[..|IMAGE_PREFIX|] == IMAGE_PREFIX {
          previews := previews + [index];
        }
      }
      assert files[..|files|] == files;
      return false;
    }
  }
}

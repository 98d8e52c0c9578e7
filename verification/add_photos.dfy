/** The "Add Photos" dialog of src/components/AddPhotosModal.tsx: a list of
    picked photos with one preview address per photo, an all-or-nothing
    check when more photos are picked, removal by position, and the rules
    for submitting and closing. `URL.createObjectURL` is a parameter. */
module AddPhotos {
  import opened Strings
  import opened ImageUpload

  datatype PhotosState = PhotosState(category: string, files: seq<File>, previews: seq<string>,
                                     error: string, uploading: bool)

  /** One preview per selected photo, at the same position. */
  predicate Consistent(st: PhotosState) {
    |st.files| == |st.previews|
  }

  /** `URL.createObjectURL`. */
  type PreviewOf = File -> string

  /** `categories[0]?.id || ""`. */
  function FirstCategory(categoryIds: seq<string>): (r: string)
    ensures categoryIds == [] ==> r == ""
    ensures categoryIds != [] ==> r == categoryIds[0]
  {
    if categoryIds == [] then "" else categoryIds[0]
  }

  /** The dialog as it opens and as closing it leaves it. */
  function Initial(categoryIds: seq<string>): (r: PhotosState)
    ensures Consistent(r) && r.files == [] && r.error == "" && !r.uploading
  {
    PhotosState(FirstCategory(categoryIds), [], [], "", false)
  }

  // ---------------------------------------------------------------------------
  // handleFileChange

  predicate PhotoType(f: File) {
    f.mime == "image/png" || f.mime == "image/jpeg" || f.mime == "image/jpg"
  }

  const MaxPhotoBytes: nat := 5 * 1024 * 1024

  const TypeMessage: string := "Only PNG and JPG files are allowed"
  const SizeMessage: string := "Each file must be less than 5MB"

  /** `files.filter(isValid)`, of which only the length is compared. */
  function PhotoTypeFiles(files: seq<File>): (r: seq<File>)
    ensures |r| <= |files|
    ensures |r| == |files| <==> forall k :: 0 <= k < |files| ==> PhotoType(files[k])
    decreases |files|
  {
    if files == [] then []
    else
      var rest := PhotoTypeFiles(files[1..]);
      assert forall k :: 1 <= k < |files| ==> files[k] == files[1..][k - 1];
      if PhotoType(files[0]) then [files[0]] + rest else rest
  }

  function Previews(files: seq<File>, previewOf: PreviewOf): (r: seq<string>)
    ensures |r| == |files|
    ensures forall k :: 0 <= k < |files| ==> r[k] == previewOf(files[k])
  {
    seq(|files|, k requires 0 <= k < |files| => previewOf(files[k]))
  }

  /** Picking photos: if any has the wrong type, or else if any is larger
      than 5 MiB, only the error changes; otherwise all of them are appended
      in order, each with its preview, and the error is cleared. */
  function Pick(st: PhotosState, picked: seq<File>, previewOf: PreviewOf): (r: PhotosState)
    ensures (exists k :: 0 <= k < |picked| && !PhotoType(picked[k])) ==> r == st.(error := TypeMessage)
    ensures (forall k :: 0 <= k < |picked| ==> PhotoType(picked[k]))
         && (exists k :: 0 <= k < |picked| && picked[k].size > MaxPhotoBytes)
         ==> r == st.(error := SizeMessage)
    ensures (forall k :: 0 <= k < |picked| ==> PhotoType(picked[k]) && picked[k].size <= MaxPhotoBytes)
         ==> r == st.(files := st.files + picked, previews := st.previews + Previews(picked, previewOf), error := "")
  {
    if |PhotoTypeFiles(picked)| != |picked| then st.(error := TypeMessage)
    else if exists k :: 0 <= k < |picked| && picked[k].size > MaxPhotoBytes then st.(error := SizeMessage)
    else st.(files := st.files + picked, previews := st.previews + Previews(picked, previewOf), error := "")
  }

  /** Picking keeps every preview next to its photo. */
  lemma PickKeepsPreviewsAligned(st: PhotosState, picked: seq<File>, previewOf: PreviewOf)
    requires Consistent(st)
    ensures Consistent(Pick(st, picked, previewOf))
    ensures Pick(st, picked, previewOf).files[..|st.files|] == st.files
  {
  }

  // ---------------------------------------------------------------------------
  // handleRemoveFile

  /** `xs.filter((_, i) => i !== index)`. */
  function Without<T>(xs: seq<T>, index: int): (r: seq<T>)
    ensures 0 <= index < |xs| ==> r == xs[..index] + xs[index + 1..]
    ensures index < 0 || index >= |xs| ==> r == xs
    decreases |xs|
  {
    if xs == [] then []
    else (if index == 0 then [] else [xs[0]]) + Without(xs[1..], index - 1)
  }

  function Remove(st: PhotosState, index: int): (r: PhotosState)
    ensures r.category == st.category && r.error == st.error && r.uploading == st.uploading
  {
    st.(files := Without(st.files, index), previews := Without(st.previews, index))
  }

  /** Removing drops the same position from both lists, keeps the others in
      order, and so keeps previews next to their photos. */
  lemma RemoveKeepsPreviewsAligned(st: PhotosState, index: int)
    requires Consistent(st)
    ensures Consistent(Remove(st, index))
    ensures 0 <= index < |st.files| ==> |Remove(st, index).files| == |st.files| - 1
    ensures forall k :: 0 <= k < |Remove(st, index).files| ==>
      Remove(st, index).files[k] == st.files[if 0 <= index <= k then k + 1 else k]
      && Remove(st, index).previews[k] == st.previews[if 0 <= index <= k then k + 1 else k]
  {
  }

  /** Removing the photo just picked undoes the pick. */
  lemma RemoveUndoesPick(st: PhotosState, f: File, previewOf: PreviewOf)
    requires PhotoType(f) && f.size <= MaxPhotoBytes
    requires st.error == ""
    ensures Remove(Pick(st, [f], previewOf), |st.files|).files == st.files
    ensures Consistent(st) ==> Remove(Pick(st, [f], previewOf), |st.files|) == st
  {
    var p := Pick(st, [f], previewOf);
    assert p.files[..|st.files|] + p.files[|st.files| + 1..] == st.files;
    if Consistent(st) {
      assert p.previews[..|st.files|] + p.previews[|st.files| + 1..] == st.previews;
    }
  }

  // ---------------------------------------------------------------------------
  // handleSubmit and handleClose

  /** `handleClose`: ignored during an upload, otherwise back to the first
      category with nothing selected and no error. */
  function Close(st: PhotosState, categoryIds: seq<string>): (r: PhotosState)
    ensures st.uploading ==> r == st
    ensures !st.uploading ==> r == Initial(categoryIds)
  {
    if st.uploading then st else PhotosState(FirstCategory(categoryIds), [], [], "", false)
  }

  datatype PhotosSubmit =
    | Refused(state: PhotosState)
    | Sent(category: string, files: seq<File>, state: PhotosState)

  /** `handleSubmit`: a category and at least one photo are required; the
      selection is handed to the owner's `onSubmit`. When that promise
      resolves the dialog resets through `handleClose`; when it rejects, the
      error is only logged and the selection kept. */
  function Submit(st: PhotosState, categoryIds: seq<string>, onSubmitRejects: bool): (r: PhotosSubmit)
    ensures r.Refused? <==> st.category == "" || st.files == []
    ensures st.category == "" ==> r == Refused(st.(error := "Please select a category"))
    ensures st.category != "" && st.files == [] ==> r == Refused(st.(error := "Please select at least one photo"))
    ensures r.Sent? ==> r.category == st.category && r.files == st.files
    ensures r.Sent? && !onSubmitRejects ==> r.state == Initial(categoryIds)
    ensures r.Sent? && onSubmitRejects ==> r.state == st.(uploading := false)
  {
    if st.category == "" then Refused(st.(error := "Please select a category"))
    else if st.files == [] then Refused(st.(error := "Please select at least one photo"))
    else
      var sending := st.(uploading := true);
      // the close after `onSubmit` resolves runs with the state of the
      // render that started the submission, in which nothing was uploading
      var after := if onSubmitRejects then sending else Close(st.(uploading := false), categoryIds);
      Sent(st.category, st.files, after.(uploading := false))
  }
}

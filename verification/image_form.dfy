/** The picture picker shared by the two profile dialogs,
    src/components/WaifuModal.tsx and src/components/AddUserModal.tsx: a
    picked file is checked for size first and PNG/JPEG type second; a
    rejected file only sets the error, an accepted one replaces the picture
    and clears the error. The two dialogs differ only in their size limit and
    its message. Reading the file into a data URL is a parameter. */
module ImageForm {
  import opened Strings
  import opened ImageUpload

  /** The dialog's fields: name, role, the picked picture, its preview, the error line. */
  datatype FormState = FormState(name: string, role: string, imageFile: Option<File>,
                                 preview: string, error: string)

  /** `FileReader.readAsDataURL`, reduced to the preview it eventually yields. */
  type PreviewOf = File -> string

  /** A dialog's size limit in bytes and the message shown past it. */
  datatype SizeLimit = SizeLimit(maxBytes: nat, message: string)

  const TypeMessage: string := "Only PNG and JPG files are allowed"

  predicate PngOrJpeg(f: File) {
    f.mime in ["image/png", "image/jpeg", "image/jpg"]
  }

  predicate Accepts(f: File, limit: SizeLimit) {
    f.size <= limit.maxBytes && PngOrJpeg(f)
  }

  /** `handleImageChange`. With no file picked nothing happens. */
  function PickImage(st: FormState, picked: Option<File>, limit: SizeLimit, previewOf: PreviewOf): (r: FormState)
    ensures picked.None? ==> r == st
    ensures picked.Some? && picked.value.size > limit.maxBytes ==> r == st.(error := limit.message)
    ensures picked.Some? && picked.value.size <= limit.maxBytes && !PngOrJpeg(picked.value) ==>
              r == st.(error := TypeMessage)
    ensures picked.Some? && Accepts(picked.value, limit) ==>
              r == st.(imageFile := picked, preview := previewOf(picked.value), error := "")
    ensures r.name == st.name && r.role == st.role
    ensures r.imageFile != st.imageFile ==> r.imageFile == picked && Accepts(picked.value, limit)
  {
    match picked
    case None => st
    case Some(f) =>
      if f.size > limit.maxBytes then st.(error := limit.message)
      else if !PngOrJpeg(f) then st.(error := TypeMessage)
      else st.(imageFile := picked, preview := previewOf(f), error := "")
  }

  /** Picking the same file twice is the same as picking it once. */
  lemma PickIdempotent(st: FormState, picked: Option<File>, limit: SizeLimit, previewOf: PreviewOf)
    ensures PickImage(PickImage(st, picked, limit, previewOf), picked, limit, previewOf)
         == PickImage(st, picked, limit, previewOf)
  {
  }

  /** An accepted file wipes out every trace of the picks before it: the
      result is the same as picking it straight away. */
  lemma AcceptedPickOverrides(st: FormState, earlier: Option<File>, f: File, limit: SizeLimit, previewOf: PreviewOf)
    requires Accepts(f, limit)
    ensures PickImage(PickImage(st, earlier, limit, previewOf), Some(f), limit, previewOf)
         == PickImage(st, Some(f), limit, previewOf)
  {
  }

  /** A rejected file leaves the picture and its preview as they were. */
  lemma RejectedPickKeepsPicture(st: FormState, f: File, limit: SizeLimit, previewOf: PreviewOf)
    requires !Accepts(f, limit)
    ensures PickImage(st, Some(f), limit, previewOf).imageFile == st.imageFile
    ensures PickImage(st, Some(f), limit, previewOf).preview == st.preview
    ensures PickImage(st, Some(f), limit, previewOf).error in {limit.message, TypeMessage}
  {
  }

  /** A dialog with a larger limit accepts everything one with a smaller limit does. */
  lemma LargerLimitAcceptsMore(f: File, small: SizeLimit, large: SizeLimit)
    requires small.maxBytes <= large.maxBytes
    ensures Accepts(f, small) ==> Accepts(f, large)
    ensures Accepts(f, large) && !Accepts(f, small) <==> PngOrJpeg(f) && small.maxBytes < f.size <= large.maxBytes
  {
  }
}

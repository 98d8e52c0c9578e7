/** The add/edit dialog of src/components/WaifuModal.tsx: a 500 KB picture
    limit and a submit that needs a name, a role and, outside edit mode, a
    picture. The dialog hands the entry to its owner only when a picture was
    picked, and asks to close whenever the checks pass. */
module WaifuModal {
  import opened Strings
  import opened ImageUpload
  import opened ImageForm

  const Limit: SizeLimit := SizeLimit(512000, "File size must be less than 500KB")

  const FillMessage: string := "Please fill in all fields"
  const ImageMessage: string := "Please upload an image"

  /** What the owner may pass in to start from. */
  datatype InitialData = InitialData(name: string, role: string, image: Option<string>)

  /** The state right after mounting: `initialData?.x || ""` for each text field. */
  function Initial(data: Option<InitialData>): (r: FormState)
    ensures r.imageFile.None? && r.error == ""
    ensures data.None? ==> r.name == "" && r.role == "" && r.preview == ""
    ensures data.Some? ==> r.name == data.value.name && r.role == data.value.role
    ensures data.Some? && data.value.image.Some? ==> r.preview == data.value.image.value
  {
    match data
    case None => FormState("", "", None, "", "")
    case Some(d) => FormState(d.name, d.role, None, if d.image.Some? then d.image.value else "", "")
  }

  /** `handleImageChange` with the 500 KB limit. */
  function PickImage(st: FormState, picked: Option<File>, previewOf: PreviewOf): (r: FormState)
    ensures picked.Some? && picked.value.size > 512000 ==>
              r == st.(error := "File size must be less than 500KB")
    ensures r.imageFile == (if picked.Some? && Accepts(picked.value, Limit) then picked else st.imageFile)
  {
    ImageForm.PickImage(st, picked, Limit, previewOf)
  }

  /** The entry handed to `onSubmit`; it always carries a picture. */
  datatype Entry = Entry(name: string, role: string, image: File)

  /** `handleSubmit`: the new state, the entry handed over, and whether `onClose` ran. */
  datatype Outcome = Outcome(state: FormState, submitted: Option<Entry>, closed: bool)

  function Submit(st: FormState, editMode: bool): (r: Outcome)
    ensures r.closed <==> st.name != "" && st.role != "" && (st.imageFile.Some? || editMode)
    ensures r.submitted.Some? <==> r.closed && st.imageFile.Some?
    ensures r.submitted.Some? ==> r.submitted.value == Entry(st.name, st.role, st.imageFile.value)
    ensures st.name == "" || st.role == "" ==> r.state == st.(error := FillMessage)
    ensures st.name != "" && st.role != "" && st.imageFile.None? && !editMode ==>
              r.state == st.(error := ImageMessage)
    ensures r.closed ==> r.state == st
  {
    if st.name == "" || st.role == "" then Outcome(st.(error := FillMessage), None, false)
    else if st.imageFile.None? && !editMode then Outcome(st.(error := ImageMessage), None, false)
    else if st.imageFile.Some? then Outcome(st, Some(Entry(st.name, st.role, st.imageFile.value)), true)
    else Outcome(st, None, true)
  }

  /** In edit mode a filled-in dialog with no new picture closes without
      handing anything over: the edited name and role are dropped. */
  lemma EditWithoutPictureDropsEdits(st: FormState)
    requires st.name != "" && st.role != "" && st.imageFile.None?
    ensures Submit(st, true).closed && Submit(st, true).submitted == None
  {
  }

  /** A picture the picker accepted is the one handed over on submit. */
  lemma PickThenSubmit(st: FormState, f: File, previewOf: PreviewOf, editMode: bool)
    requires st.name != "" && st.role != ""
    requires Accepts(f, Limit)
    ensures Submit(PickImage(st, Some(f), previewOf), editMode).submitted == Some(Entry(st.name, st.role, f))
  {
  }

  /** A picture the picker rejected never reaches the owner: adding with
      only that picture stops at the missing-picture error. */
  lemma RejectedPictureNotSubmitted(st: FormState, f: File, previewOf: PreviewOf)
    requires st.name != "" && st.role != "" && st.imageFile.None?
    requires !Accepts(f, Limit)
    ensures Submit(PickImage(st, Some(f), previewOf), false).submitted == None
    ensures Submit(PickImage(st, Some(f), previewOf), false).state.error == ImageMessage
  {
  }
}

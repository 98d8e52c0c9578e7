/** The add/edit member dialog of src/components/AddUserModal.tsx: a 1 MB
    picture limit, a submit that needs a name, a role and a picture unless the
    dialog edits or already shows one, and a close that empties every field.
    Unlike the waifu dialog, a successful submit always hands the entry over,
    with or without a new picture. */
module AddUserModal {
  import opened Strings
  import opened ImageUpload
  import opened ImageForm
  import WaifuModal

  const Limit: SizeLimit := SizeLimit(1048576, "File size must be less than 1MB")

  const FillMessage: string := "Please fill in all required fields"
  const PictureMessage: string := "Please upload a profile picture"

  const Cleared: FormState := FormState("", "", None, "", "")

  /** What the owner may pass in to start from; the avatar URL may be null. */
  datatype InitialData = InitialData(name: string, role: string, avatarUrl: Option<string>)

  /** The state right after mounting: `initialData?.x || ""` for each text field. */
  function Initial(data: Option<InitialData>): (r: FormState)
    ensures r.imageFile.None? && r.error == ""
    ensures data.None? ==> r == Cleared
    ensures data.Some? ==> r.name == data.value.name && r.role == data.value.role
    ensures r.preview != "" ==> data.Some? && data.value.avatarUrl == Some(r.preview)
  {
    match data
    case None => Cleared
    case Some(d) => FormState(d.name, d.role, None, if d.avatarUrl.Some? then d.avatarUrl.value else "", "")
  }

  /** `handleImageChange` with the 1 MB limit. */
  function PickImage(st: FormState, picked: Option<File>, previewOf: PreviewOf): (r: FormState)
    ensures picked.Some? && picked.value.size > 1048576 ==>
              r == st.(error := "File size must be less than 1MB")
    ensures r.imageFile == (if picked.Some? && Accepts(picked.value, Limit) then picked else st.imageFile)
  {
    ImageForm.PickImage(st, picked, Limit, previewOf)
  }

  /** `handleClose`: every field is emptied, whatever was typed or picked. */
  function Close(st: FormState): (r: FormState)
    ensures r.name == "" && r.role == "" && r.imageFile.None? && r.preview == "" && r.error == ""
  {
    Cleared
  }

  /** Closing forgets the dialog's history: any two states close to the same one. */
  lemma CloseForgets(a: FormState, b: FormState)
    ensures Close(a) == Close(b)
    ensures Close(Close(a)) == Close(a)
  {
  }

  /** The entry handed to `onSubmit`; the picture is null when none was picked. */
  datatype Entry = Entry(name: string, role: string, image: Option<File>)

  /** `handleSubmit`: the new state and the entry handed over, if any. A
      successful submit also closes, through `handleClose`. */
  datatype Outcome = Outcome(state: FormState, submitted: Option<Entry>)

  function Submit(st: FormState, editMode: bool): (r: Outcome)
    ensures r.submitted.Some? <==>
              st.name != "" && st.role != "" && (st.imageFile.Some? || editMode || st.preview != "")
    ensures r.submitted.Some? ==> r.submitted.value == Entry(st.name, st.role, st.imageFile) && r.state == Close(st)
    ensures st.name == "" || st.role == "" ==> r.state == st.(error := FillMessage)
    ensures st.name != "" && st.role != "" && r.submitted.None? ==> r.state == st.(error := PictureMessage)
  {
    if st.name == "" || st.role == "" then Outcome(st.(error := FillMessage), None)
    else if st.imageFile.None? && !editMode && st.preview == "" then Outcome(st.(error := PictureMessage), None)
    else Outcome(Close(st), Some(Entry(st.name, st.role, st.imageFile)))
  }

  /** A dialog opened on a member that already has an avatar submits without
      a new picture, in add mode too, and hands over a null picture. */
  lemma ExistingAvatarStandsIn(d: InitialData, url: string)
    requires d.name != "" && d.role != "" && d.avatarUrl == Some(url) && url != ""
    ensures Submit(Initial(Some(d)), false).submitted == Some(Entry(d.name, d.role, None))
  {
  }

  /** A fresh dialog in add mode cannot be submitted until a picture is accepted. */
  lemma FreshAddNeedsPicture(name: string, role: string)
    ensures Submit(Cleared.(name := name, role := role), false).submitted == None
  {
  }

  /** Every picture the waifu dialog's 500 KB limit accepts, this dialog accepts. */
  lemma AcceptsWhatWaifuDialogAccepts(f: File)
    ensures Accepts(f, WaifuModal.Limit) ==> Accepts(f, Limit)
  {
    LargerLimitAcceptsMore(f, WaifuModal.Limit, Limit);
  }
}

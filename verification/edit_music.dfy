/** The "Edit Music" dialog of src/components/EditMusicModal.tsx: loading the
    current title and artist, validating an update, and deleting a piece of
    music together with its uploaded audio file. The `music` table is a map
    from music id to record; the storage bucket is left to the parameters. */
module EditMusic {
  import opened Strings
  import AddMusic

  datatype InitialData = InitialData(title: string, artist: string, sourceType: string)

  datatype EditForm = EditForm(title: string, artist: string, showDeleteConfirm: bool)

  /** Opening (or new initial data while open) loads the current title and
      artist and hides the delete confirmation. */
  function Open(f: EditForm, data: InitialData): (r: EditForm)
    ensures r.title == data.title && r.artist == data.artist && !r.showDeleteConfirm
  {
    EditForm(data.title, data.artist, false)
  }

  /** `handleClose`. */
  function Close(f: EditForm): (r: EditForm)
    ensures r.title == "" && r.artist == "" && !r.showDeleteConfirm
  {
    EditForm("", "", false)
  }

  /** Reopening after any edits shows the stored values again. */
  lemma ReopenDiscardsEdits(f: EditForm, g: EditForm, data: InitialData)
    ensures Open(Close(f), data) == Open(g, data)
  {
  }

  type MusicTable = map<string, AddMusic.MusicRecord>

  datatype UpdateResult = Refused(message: string) | Updated(table: MusicTable)

  /** `handleUpdate`: both fields must be non-blank; the trimmed values are
      written to the row with that id, if there is one, and nowhere else. */
  function Update(f: EditForm, musicId: string, table: MusicTable): (r: UpdateResult)
    ensures r.Refused? <==> AddMusic.Blank(f.title) || AddMusic.Blank(f.artist)
    ensures r.Updated? ==> r.table.Keys == table.Keys
    ensures r.Updated? ==> forall id :: id in table && id != musicId ==> r.table[id] == table[id]
    ensures r.Updated? && musicId in table ==>
      r.table[musicId] == table[musicId].(title := Trim(f.title), artist := Trim(f.artist))
  {
    if AddMusic.Blank(f.title) || AddMusic.Blank(f.artist) then Refused("Please fill in all fields")
    else if musicId in table then
      Updated(table[musicId := table[musicId].(title := Trim(f.title), artist := Trim(f.artist))])
    else Updated(table)
  }

  /** An update never leaves a blank title or artist in the table, nor
      white space around them. */
  lemma UpdateStoresTrimmed(f: EditForm, musicId: string, table: MusicTable)
    requires Update(f, musicId, table).Updated? && musicId in table
    ensures var rec := Update(f, musicId, table).table[musicId];
      rec.title != [] && rec.artist != [] && Trim(rec.title) == rec.title && Trim(rec.artist) == rec.artist
  {
    TrimIdempotent(f.title);
    TrimIdempotent(f.artist);
  }

  lemma TrimIdempotent(s: string)
    ensures Trim(Trim(s)) == Trim(s)
  {
    TrimShape(s);
    var t := Trim(s);
    if t != [] {
      assert TrimStart(t) == t;
      assert TrimEnd(t) == t;
    }
  }

  // ---------------------------------------------------------------------------
  // handleDelete

  /** The object `handleDelete` removes from the bucket: only for an uploaded
      file with a non-empty URL, named by the current user's id and the last
      `/`-segment of the URL. */
  function StoragePath(userId: string, rec: AddMusic.MusicRecord): (r: Option<string>)
    ensures r.Some? <==> rec.sourceType == "file" && rec.audioUrl.Some? && rec.audioUrl.value != ""
    ensures r.Some? ==> StartsWith(r.value, userId + "/") && '/' !in r.value[|userId| + 1..]
  {
    if rec.sourceType == "file" && rec.audioUrl.Some? && rec.audioUrl.value != "" then
      var p := userId + "/" + LastSegment(rec.audioUrl.value, '/');
      assert p[..|userId| + 1] == userId + "/";
      assert p[|userId| + 1..] == LastSegment(rec.audioUrl.value, '/');
      Some(p)
    else None
  }

  datatype DeleteResult =
    | NoUser                                          // "Please select a user first"
    | NotFound                                        // the row could not be fetched
    | Deleted(removedFile: Option<string>, table: MusicTable)

  /** `handleDelete`: the storage removal, when there is one, is attempted
      and its failure only logged, so the outcome does not depend on it and
      the model has no input for it: the row is deleted either way. */
  function Delete(userId: Option<string>, musicId: string, table: MusicTable): (r: DeleteResult)
    ensures userId.None? <==> r == NoUser
    ensures userId.Some? && musicId !in table <==> r == NotFound
    ensures r.Deleted? ==>
      && r.table == table - {musicId}
      && r.removedFile == StoragePath(userId.value, table[musicId])
  {
    if userId.None? then NoUser
    else if musicId !in table then NotFound
    else Deleted(StoragePath(userId.value, table[musicId]), table - {musicId})
  }

  /** A file the add dialog stored as `userId/name` (see
      `AddMusic.AudioPathParts`), with the public URL `base/userId/name`, is
      the object `userId`'s delete removes; any other user's delete names a
      different object. */
  lemma StoragePathRoundTrip(base: string, userId: string, deleter: string, name: string,
                             rec: AddMusic.MusicRecord)
    requires '/' !in name
    requires rec.sourceType == "file" && rec.audioUrl == Some(base + "/" + userId + "/" + name)
    ensures StoragePath(deleter, rec) == Some(deleter + "/" + name)
    ensures StoragePath(deleter, rec) == Some(userId + "/" + name) <==> deleter == userId
  {
    LastSegmentAfter(base + "/" + userId, '/', name);
    SuffixCancels(deleter + "/", userId + "/", name);
    SuffixCancels(deleter, userId, "/");
  }

  lemma SuffixCancels(a: string, b: string, t: string)
    ensures a + t == b + t <==> a == b
  {
    if a + t == b + t {
      assert a == (a + t)[..|a|];
    }
  }
}

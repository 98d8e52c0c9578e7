/** Avatar upload helpers of src/lib/imageUpload.ts: the size and type check
    with its supporter tier, the GIF pass-through of compression, and the
    storage path of an uploaded avatar. The compression library and the
    storage service are parameters. */
module ImageUpload {
  import opened Strings

  /** The parts of a browser `File` the code reads. */
  datatype File = File(name: string, mime: string, size: nat)

  datatype Validation = Validation(valid: bool, error: Option<string>)

  const MaxFileSizeMb: nat := 2
  const MaxFileSizeBytes: nat := MaxFileSizeMb * 1024 * 1024

  const MemberTypes: seq<string> := ["image/jpeg", "image/png"]
  const SupporterTypes: seq<string> := ["image/jpeg", "image/png", "image/gif"]

  function SizeError(): string {
    "File size must be less than " + NatToString(MaxFileSizeMb) + "MB"
  }

  function AllowedTypes(isSupporter: bool): seq<string> {
    if isSupporter then SupporterTypes else MemberTypes
  }

  function TypeError(isSupporter: bool): string {
    if isSupporter then "Only JPG, PNG, and GIF files are allowed"
    else "Only JPG and PNG files are allowed. GIF is available for supporters."
  }

  /** `validateFile`: size first, then type against the tier's list. */
  function ValidateFile(file: File, isSupporter: bool): (r: Validation)
    ensures file.size > MaxFileSizeBytes ==> r == Validation(false, Some(SizeError()))
    ensures r.valid <==> file.size <= MaxFileSizeBytes && file.mime in AllowedTypes(isSupporter)
    ensures r.valid <==> r.error.None?
    ensures file.size <= MaxFileSizeBytes && !r.valid ==> r.error == Some(TypeError(isSupporter))
  {
    if file.size > MaxFileSizeBytes then Validation(false, Some(SizeError()))
    else if file.mime !in AllowedTypes(isSupporter) then Validation(false, Some(TypeError(isSupporter)))
    else Validation(true, None)
  }

  /** For a regular member a file passes iff it is at most 2 MiB and a JPEG or PNG. */
  lemma MemberRule(file: File)
    ensures ValidateFile(file, false).valid
      <==> file.size <= 2 * 1024 * 1024 && (file.mime == "image/jpeg" || file.mime == "image/png")
  {
  }

  /** Supporters may upload exactly what members may, plus GIFs. */
  lemma SupporterTier(file: File)
    ensures ValidateFile(file, false).valid ==> ValidateFile(file, true).valid
    ensures ValidateFile(file, true).valid <==>
      ValidateFile(file, false).valid || (file.size <= MaxFileSizeBytes && file.mime == "image/gif")
  {
  }

  /** The type message depends on nothing but the tier. */
  lemma TypeErrorOnlyByTier(f: File, g: File, isSupporter: bool)
    requires f.size <= MaxFileSizeBytes && g.size <= MaxFileSizeBytes
    requires !ValidateFile(f, isSupporter).valid && !ValidateFile(g, isSupporter).valid
    ensures ValidateFile(f, isSupporter) == ValidateFile(g, isSupporter)
  {
  }

  /** `browser-image-compression`: the compressed file, or `None` when it throws. */
  type Compressor = File -> Option<File>

  /** `compressImage`: GIFs are returned untouched (compression would drop the
      animation), and a failed compression falls back to the original. */
  function CompressImage(file: File, compress: Compressor): (r: File)
    ensures file.mime == "image/gif" ==> r == file
    ensures compress(file).None? ==> r == file
    ensures r == file || (file.mime != "image/gif" && compress(file) == Some(r))
  {
    if file.mime == "image/gif" then file
    else match compress(file)
      case Some(c) => c
      case None => file
  }

  /** The object name `uploadAvatar` stores under: `userId-timestamp.ext`,
      directly in the bucket, where `ext` is the text after the name's last
      dot. `now` stands for `Date.now()`. */
  function AvatarPath(userId: string, fileName: string, now: nat): (path: string)
    ensures StartsWith(path, userId + "-" + NatToString(now) + ".")
    ensures path[|userId + "-" + NatToString(now) + "."|..] == LastSegment(fileName, '.')
    ensures '/' in path ==> '/' in userId || '/' in fileName
  {
    var ext := LastSegment(fileName, '.');
    var path := userId + "-" + NatToString(now) + "." + ext;
    assert path[..|userId + "-" + NatToString(now) + "."|] == userId + "-" + NatToString(now) + ".";
    assert forall ch :: ch in ext ==> ch in fileName;
    path
  }

  /** The stored object keeps the extension of the uploaded file. */
  lemma AvatarPathKeepsExtension(userId: string, fileName: string, now: nat)
    ensures LastSegment(AvatarPath(userId, fileName, now), '.') == LastSegment(fileName, '.')
  {
    var ext := LastSegment(fileName, '.');
    LastSegmentAfter(userId + "-" + NatToString(now), '.', ext);
  }

  datatype AvatarUpload = AvatarUpload(url: string, error: Option<string>)

  /** `uploadAvatar`: `upload` stands for the storage call and returns its
      error, if any; `publicUrl` for the bucket's public address of a path. */
  function UploadAvatar(userId: string, file: File, now: nat,
                        upload: string -> Option<string>, publicUrl: string -> string): (r: AvatarUpload)
    ensures r.error.Some? <==> upload(AvatarPath(userId, file.name, now)).Some?
    ensures r.error.Some? ==> r.url == ""
    ensures r.error.None? ==> r.url == publicUrl(AvatarPath(userId, file.name, now))
  {
    var path := AvatarPath(userId, file.name, now);
    match upload(path)
    case Some(e) => AvatarUpload("", Some(e))
    case None => AvatarUpload(publicUrl(path), None)
  }
}

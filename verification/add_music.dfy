/** The "Add New Music" form of src/components/AddMusicModal.tsx: classifying
    a pasted link by the service it points to, rewriting it into the
    service's embed address, checking a picked audio file, and deciding what
    a submission inserts. Storage, the database, `Date.now()`, `Math.random()`
    and audio metadata are parameters. */
module AddMusic {
  import opened Strings
  import opened Patterns
  import opened ImageUpload
  import Sanitize

  // ---------------------------------------------------------------------------
  // detectSourceType

  /** The `source_type` values a music record can hold. */
  datatype SourceType = YouTube | Spotify | SoundCloud | Link | FileSource

  function SourceName(t: SourceType): string {
    match t
    case YouTube => "youtube"
    case Spotify => "spotify"
    case SoundCloud => "soundcloud"
    case Link => "link"
    case FileSource => "file"
  }

  predicate MentionsYouTube(url: string) {
    Includes(url, "youtube.com") || Includes(url, "youtu.be")
  }

  /** `detectSourceType`: the first service, in the order YouTube, Spotify,
      SoundCloud, whose host name the link mentions anywhere. */
  function DetectSourceType(url: string): (r: SourceType)
    ensures r != FileSource
    ensures r == YouTube <==> MentionsYouTube(url)
    ensures r == Spotify <==> !MentionsYouTube(url) && Includes(url, "spotify.com")
    ensures r == SoundCloud <==>
      !MentionsYouTube(url) && !Includes(url, "spotify.com") && Includes(url, "soundcloud.com")
    ensures r == Link <==>
      !MentionsYouTube(url) && !Includes(url, "spotify.com") && !Includes(url, "soundcloud.com")
  {
    if MentionsYouTube(url) then YouTube
    else if Includes(url, "spotify.com") then Spotify
    else if Includes(url, "soundcloud.com") then SoundCloud
    else Link
  }

  /** Each marker of the sanitising library begins with a host name. */
  lemma MarkerHosts()
    ensures Sanitize.WatchMarker == "youtube.com" + "/watch?v="
    ensures Sanitize.ShortMarker == "youtu.be" + "/"
    ensures Sanitize.EmbedMarker == "youtube.com" + "/embed/"
    ensures Sanitize.TrackMarker == "spotify.com" + "/track/"
    ensures Sanitize.SoundCloudMarker == "soundcloud.com" + "/"
  {
  }

  /** Every link the strict YouTube parser of the sanitising library accepts
      is classified as YouTube. */
  lemma DetectAgreesWithYouTubeParser(url: string, isValidUrl: Sanitize.UrlCheck)
    ensures Sanitize.ExtractYouTubeId(url, isValidUrl).Some? ==> DetectSourceType(url) == YouTube
  {
    var y := Sanitize.ExtractYouTubeId(url, isValidUrl);
    if y.Some? {
      MarkerHosts();
      if Includes(url, Sanitize.WatchMarker + y.value) {
        IncludesPrefixOf(url, Sanitize.WatchMarker, y.value);
        IncludesPrefixOf(url, "youtube.com", "/watch?v=");
      } else if Includes(url, Sanitize.ShortMarker + y.value) {
        IncludesPrefixOf(url, Sanitize.ShortMarker, y.value);
        IncludesPrefixOf(url, "youtu.be", "/");
      } else {
        IncludesPrefixOf(url, Sanitize.EmbedMarker, y.value);
        IncludesPrefixOf(url, "youtube.com", "/embed/");
      }
    }
  }

  /** A link the strict Spotify parser accepts is classified as Spotify,
      unless it also mentions YouTube, which is checked first. */
  lemma DetectAgreesWithSpotifyParser(url: string, isValidUrl: Sanitize.UrlCheck)
    ensures Sanitize.ExtractSpotifyId(url, isValidUrl).Some? ==>
      DetectSourceType(url) == (if MentionsYouTube(url) then YouTube else Spotify)
  {
    var s := Sanitize.ExtractSpotifyId(url, isValidUrl);
    if s.Some? {
      MarkerHosts();
      IncludesPrefixOf(url, Sanitize.TrackMarker, s.value);
      IncludesPrefixOf(url, "spotify.com", "/track/");
    }
  }

  /** A valid SoundCloud URL is never classified as a plain link. */
  lemma DetectAgreesWithSoundCloudCheck(url: string, isValidUrl: Sanitize.UrlCheck)
    ensures Sanitize.IsValidSoundCloudUrl(url, isValidUrl) ==> DetectSourceType(url) != Link
  {
    if Sanitize.IsValidSoundCloudUrl(url, isValidUrl) {
      MarkerHosts();
      IncludesPrefixOf(url, "soundcloud.com", "/");
    }
  }

  // ---------------------------------------------------------------------------
  // extractEmbedUrl

  const YouTubeEmbedBase: string := "https://www.youtube.com/embed/"
  const SpotifyEmbedBase: string := "https://open.spotify.com/embed/track/"

  /** `/(?:youtube\.com\/watch\?v=|youtu\.be\/)([^&\s]+)/` */
  const YouTubeLinkPattern: seq<Alternative> := [
    Alternative("youtube.com/watch?v=", NotAmpOrSpace, OneOrMore),
    Alternative("youtu.be/", NotAmpOrSpace, OneOrMore)
  ]

  /** `/track\/([a-zA-Z0-9]+)/` */
  const SpotifyLinkPattern: seq<Alternative> := [Alternative("track/", Alphanumerics, OneOrMore)]

  /** `extractEmbedUrl`: a YouTube or Spotify link whose pattern matches
      becomes the service's embed address for the captured id; every other
      link is kept as typed. */
  function ExtractEmbedUrl(url: string, t: SourceType): (r: string)
    ensures t != YouTube && t != Spotify ==> r == url
    ensures t == YouTube && r != url ==> exists id ::
      |id| >= 1 && r == YouTubeEmbedBase + id &&
      (Includes(url, "youtube.com/watch?v=" + id) || Includes(url, "youtu.be/" + id))
    ensures t == Spotify && r != url ==> exists id ::
      |id| >= 1 && r == SpotifyEmbedBase + id && Includes(url, "track/" + id)
    ensures t == YouTube && Match(url, YouTubeLinkPattern).None? ==> r == url
    ensures t == Spotify && Match(url, SpotifyLinkPattern).None? ==> r == url
  {
    match t
    case YouTube =>
      (match Match(url, YouTubeLinkPattern)
       case Some(id) => YouTubeEmbedBase + id
       case None => url)
    case Spotify =>
      (match Match(url, SpotifyLinkPattern)
       case Some(id) => SpotifyEmbedBase + id
       case None => url)
    case _ => url
  }

  /** The YouTube video id runs to the first `&` or white space after the
      leftmost marker: a link `p + "youtu.be/" + id + rest`, where `p` holds no
      `y` and `rest` starts with neither an id character nor anything else the
      run could swallow, embeds exactly `id`. */
  lemma YouTubeEmbedOfShortLink(p: string, id: string, rest: string)
    requires 'y' !in p
    requires |id| >= 1 && forall k :: 0 <= k < |id| ==> InClass(id[k], NotAmpOrSpace)
    requires rest == [] || !InClass(rest[0], NotAmpOrSpace)
    ensures ExtractEmbedUrl(p + "youtu.be/" + id + rest, YouTube) == YouTubeEmbedBase + id
  {
    YouTubePatternFacts();
    MatchAfterPrefix(p, YouTubeLinkPattern, 1, id, rest);
  }

  /** The same for a watch link, e.g. one carrying further query parameters
      after an `&`. */
  lemma YouTubeEmbedOfWatchLink(p: string, id: string, rest: string)
    requires 'y' !in p
    requires |id| >= 1 && forall k :: 0 <= k < |id| ==> InClass(id[k], NotAmpOrSpace)
    requires rest == [] || !InClass(rest[0], NotAmpOrSpace)
    ensures ExtractEmbedUrl(p + "youtube.com/watch?v=" + id + rest, YouTube) == YouTubeEmbedBase + id
  {
    YouTubePatternFacts();
    MatchAfterPrefix(p, YouTubeLinkPattern, 0, id, rest);
  }

  /** A Spotify track link embeds the alphanumeric run after its first
      `track/`, stopping at the query string. */
  lemma SpotifyEmbedOfTrackLink(p: string, id: string, rest: string)
    requires 't' !in p
    requires |id| >= 1 && forall k :: 0 <= k < |id| ==> InClass(id[k], Alphanumerics)
    requires rest == [] || !InClass(rest[0], Alphanumerics)
    ensures ExtractEmbedUrl(p + "track/" + id + rest, Spotify) == SpotifyEmbedBase + id
  {
    assert SpotifyLinkPattern[0].literal[0] == 't';
    MatchAfterPrefix(p, SpotifyLinkPattern, 0, id, rest);
  }

  /** Both YouTube literals start with `y` and part ways at their sixth character. */
  lemma YouTubePatternFacts()
    ensures forall m :: 0 <= m < |YouTubeLinkPattern| ==>
      |YouTubeLinkPattern[m].literal| > 0 && YouTubeLinkPattern[m].literal[0] == 'y'
    ensures Diverge(YouTubeLinkPattern[0].literal, YouTubeLinkPattern[1].literal)
  {
    assert YouTubeLinkPattern[0].literal[5] != YouTubeLinkPattern[1].literal[5];
  }

  /** Every YouTube link, whatever precedes its marker: at the least index
      where a watch or short-link marker is followed by an id character, the
      embed address is the base plus the whole run up to the first `&`, white
      space or the end. The two markers cannot both start at one index. */
  lemma YouTubeEmbedIsLeftmostRun(url: string, i: nat, k: nat)
    requires k < |YouTubeLinkPattern| && i <= |url|
    requires GreedyAt(url, i, YouTubeLinkPattern[k])
    requires forall j, m :: 0 <= j < i && 0 <= m < |YouTubeLinkPattern| ==> !GreedyAt(url, j, YouTubeLinkPattern[m])
    ensures ExtractEmbedUrl(url, YouTube) == YouTubeEmbedBase + GreedyRun(url, i, YouTubeLinkPattern[k])
  {
    if k == 1 {
      YouTubePatternFacts();
      DivergeExcludes(url, YouTubeLinkPattern[0].literal, YouTubeLinkPattern[1].literal, i);
    }
    MatchGreedy(url, YouTubeLinkPattern, i, k);
  }

  /** A YouTube link in which no marker is followed by an id character is kept as typed. */
  lemma YouTubeEmbedWithoutId(url: string)
    requires forall j, m :: 0 <= j <= |url| && 0 <= m < |YouTubeLinkPattern| ==> !GreedyAt(url, j, YouTubeLinkPattern[m])
    ensures ExtractEmbedUrl(url, YouTube) == url
  {
    NoMatchGreedy(url, YouTubeLinkPattern);
  }

  /** Every Spotify link: the alphanumeric run after the leftmost `track/`
      that is followed by one becomes the embedded track id. */
  lemma SpotifyEmbedIsLeftmostRun(url: string, i: nat)
    requires i <= |url| && GreedyAt(url, i, SpotifyLinkPattern[0])
    requires forall j :: 0 <= j < i ==> !GreedyAt(url, j, SpotifyLinkPattern[0])
    ensures ExtractEmbedUrl(url, Spotify) == SpotifyEmbedBase + GreedyRun(url, i, SpotifyLinkPattern[0])
  {
    MatchGreedy(url, SpotifyLinkPattern, i, 0);
  }

  /** A Spotify link without an alphanumeric run after any `track/` is kept as typed. */
  lemma SpotifyEmbedWithoutId(url: string)
    requires forall j :: 0 <= j <= |url| ==> !GreedyAt(url, j, SpotifyLinkPattern[0])
    ensures ExtractEmbedUrl(url, Spotify) == url
  {
    NoMatchGreedy(url, SpotifyLinkPattern);
  }

  /** A concrete case: `https://www.youtube.com/watch?v=<id>&t=42` embeds `<id>`. */
  lemma WatchLinkWithTimestamp(id: string)
    requires |id| >= 1 && forall k :: 0 <= k < |id| ==> InClass(id[k], NotAmpOrSpace)
    ensures ExtractEmbedUrl("https://www.youtube.com/watch?v=" + id + "&t=42", YouTube)
      == YouTubeEmbedBase + id
  {
    assert "https://www.youtube.com/watch?v=" + id + "&t=42"
      == "https://www." + "youtube.com/watch?v=" + id + "&t=42";
    YouTubeEmbedOfWatchLink("https://www.", id, "&t=42");
  }

  // ---------------------------------------------------------------------------
  // handleAudioFileChange

  const AudioTypes: seq<string> :=
    ["audio/mpeg", "audio/mp3", "audio/wav", "audio/ogg", "audio/aac", "audio/flac", "audio/m4a"]

  const MaxAudioBytes: nat := 5 * 1024 * 1024

  const AudioTypeMessage: string := "Please upload a valid audio file (MP3, WAV, OGG, AAC, FLAC, M4A)"
  const AudioSizeMessage: string := "File size must be less than 5MB"

  /** The alert a picked audio file raises, if any: type first, then size. */
  function AudioFileProblem(file: File): (r: Option<string>)
    ensures r.None? <==> file.mime in AudioTypes && file.size <= MaxAudioBytes
    ensures file.mime !in AudioTypes ==> r == Some(AudioTypeMessage)
    ensures file.mime in AudioTypes && file.size > MaxAudioBytes ==> r == Some(AudioSizeMessage)
  {
    if file.mime !in AudioTypes then Some(AudioTypeMessage)
    else if file.size > MaxAudioBytes then Some(AudioSizeMessage)
    else None
  }

  // ---------------------------------------------------------------------------
  // The form and handleSubmit

  datatype UploadMethod = ByFile | ByLink

  datatype Form = Form(title: string, artist: string, uploadMethod: UploadMethod,
                       audioFile: Option<File>, audioLink: string)

  /** The form as it opens, and as closing it leaves it. */
  const EmptyForm: Form := Form("", "", ByFile, None, "")

  function Close(f: Form): (r: Form)
    ensures r.title == "" && r.artist == "" && r.audioLink == "" && r.audioFile.None?
    ensures r.uploadMethod == ByFile
  {
    EmptyForm
  }

  /** `handleAudioFileChange`: an accepted file replaces the selection, a
      rejected one leaves the form as it was. */
  function PickAudio(f: Form, file: File): (r: Form)
    ensures AudioFileProblem(file).None? ==> r == f.(audioFile := Some(file))
    ensures AudioFileProblem(file).Some? ==> r == f
  {
    if AudioFileProblem(file).None? then f.(audioFile := Some(file)) else f
  }

  /** A row of the `music` table as the form inserts it. */
  datatype MusicRecord = MusicRecord(title: string, artist: string, sourceType: string,
                                     audioUrl: Option<string>, embedUrl: Option<string>,
                                     duration: nat, uploadedBy: string)

  const UploadLimit: nat := 20

  datatype Submission =
    | Refused(message: string)          // an alert, nothing stored
    | LimitReached(count: nat)          // the user already has 20 songs
    | Failed(message: string)           // the storage upload reported an error
    | Inserted(record: MusicRecord, uploadedPath: Option<string>)

  /** Everything `handleSubmit` needs besides the form: the stored user id
      (`None` when no user is selected), the upload count the database
      reports (`None` for `null`), `Date.now()`, the random suffix, the
      storage upload (returning its error, if any), the bucket's public URL
      of a path, and the floored duration of the audio file. */
  datatype Environment = Environment(
    userId: Option<string>, uploadCount: Option<nat>, now: nat, random: string,
    upload: string -> Option<string>, publicUrl: string -> string, duration: nat)

  /** The generated object name `now-random.ext`, where `ext` is the text
      after the last dot of the picked file's name. */
  function StoredName(fileName: string, now: nat, random: string): (r: string)
    ensures LastSegment(r, '.') == LastSegment(fileName, '.')
    ensures '/' !in fileName && '/' !in random ==> '/' !in r
  {
    var head := NatToString(now) + "-" + random;
    var ext := LastSegment(fileName, '.');
    LastSegmentAfter(head, '.', ext);
    DigitsOnly(NatToString(now), '/');
    if '/' !in fileName then
      LastSegmentExcludes(fileName, '.', '/');
      head + "." + ext
    else head + "." + ext
  }

  /** Where an uploaded audio file is stored: `userId/now-random.ext`. */
  function AudioPath(userId: string, fileName: string, now: nat, random: string): (path: string)
    ensures StartsWith(path, userId + "/")
    ensures LastSegment(path, '.') == LastSegment(fileName, '.')
  {
    var name := StoredName(fileName, now, random);
    StartsWithConcat(userId + "/", name);
    ExtensionAfterFolder(userId + "/", fileName, now, random);
    userId + "/" + name
  }

  /** Putting the generated name in a folder keeps its extension. */
  lemma ExtensionAfterFolder(folder: string, fileName: string, now: nat, random: string)
    ensures LastSegment(folder + StoredName(fileName, now, random), '.') == LastSegment(fileName, '.')
  {
    var head := NatToString(now) + "-" + random;
    var ext := LastSegment(fileName, '.');
    assert folder + StoredName(fileName, now, random) == (folder + head) + "." + ext;
    LastSegmentAfter(folder + head, '.', ext);
  }

  /** The stored path is the user's folder and the generated name, which
      holds no `/` when neither the picked name nor the random suffix does. */
  lemma AudioPathParts(userId: string, fileName: string, now: nat, random: string)
    requires '/' !in fileName && '/' !in random
    ensures AudioPath(userId, fileName, now, random) == userId + "/" + StoredName(fileName, now, random)
    ensures '/' !in StoredName(fileName, now, random)
  {
  }

  const FillInMessage: string := "Please fill in music title and artist"
  const NoFileMessage: string := "Please select an audio file"
  const NoLinkMessage: string := "Please enter an audio link"
  const NoUserMessage: string := "Please select a user first"

  predicate Blank(s: string) {
    Trim(s) == []
  }

  /** `handleSubmit`. */
  function Submit(f: Form, env: Environment): (r: Submission)
    ensures Blank(f.title) || Blank(f.artist) ==> r == Refused(FillInMessage)
    ensures r.Inserted? ==>
      && r.record.title == Trim(f.title) && r.record.title != []
      && r.record.artist == Trim(f.artist) && r.record.artist != []
      && env.userId.Some? && r.record.uploadedBy == env.userId.value
    ensures r.Inserted? && f.uploadMethod == ByFile ==>
      && f.audioFile.Some?
      && r.record.sourceType == "file" && r.record.embedUrl.None?
      && r.uploadedPath == Some(AudioPath(env.userId.value, f.audioFile.value.name, env.now, env.random))
      && r.record.audioUrl == Some(env.publicUrl(r.uploadedPath.value))
    ensures r.Inserted? && f.uploadMethod == ByLink ==>
      && !Blank(f.audioLink)
      && r.uploadedPath.None? && r.record.audioUrl.None? && r.record.duration == 0
      && r.record.sourceType == SourceName(DetectSourceType(f.audioLink))
      && r.record.embedUrl == Some(ExtractEmbedUrl(f.audioLink, DetectSourceType(f.audioLink)))
    ensures r.LimitReached? ==> env.uploadCount.Some? && r.count == env.uploadCount.value >= UploadLimit
  {
    if Blank(f.title) || Blank(f.artist) then Refused(FillInMessage)
    else if f.uploadMethod == ByFile && f.audioFile.None? then Refused(NoFileMessage)
    else if f.uploadMethod == ByLink && Blank(f.audioLink) then Refused(NoLinkMessage)
    else if env.userId.None? then Refused(NoUserMessage)
    else
      var count := if env.uploadCount.Some? then env.uploadCount.value else 0;
      if count >= UploadLimit then LimitReached(count)
      else
        var user := env.userId.value;
        match f.uploadMethod
        case ByFile =>
          var path := AudioPath(user, f.audioFile.value.name, env.now, env.random);
          (match env.upload(path)
           case Some(e) => Failed(e)
           case None =>
             Inserted(MusicRecord(Trim(f.title), Trim(f.artist), "file", Some(env.publicUrl(path)), None,
                                  env.duration, user), Some(path)))
        case ByLink =>
          var t := DetectSourceType(f.audioLink);
          Inserted(MusicRecord(Trim(f.title), Trim(f.artist), SourceName(t), None,
                               Some(ExtractEmbedUrl(f.audioLink, t)), 0, user), None)
  }

  /** What a submission needs to reach the database: both names non-blank,
      the chosen kind of audio present, a selected user below the upload
      limit (a missing count counting as none), and, for a file, a
      successful upload. */
  lemma SubmitInsertsIff(f: Form, env: Environment)
    ensures Submit(f, env).Inserted? <==>
      && !Blank(f.title) && !Blank(f.artist)
      && (f.uploadMethod == ByFile ==> f.audioFile.Some?)
      && (f.uploadMethod == ByLink ==> !Blank(f.audioLink))
      && env.userId.Some?
      && (env.uploadCount.None? || env.uploadCount.value < UploadLimit)
      && (f.uploadMethod == ByFile ==>
            env.upload(AudioPath(env.userId.value, f.audioFile.value.name, env.now, env.random)).None?)
  {
    var r := Submit(f, env);
    if f.uploadMethod == ByLink {
      assert r.Inserted? <==>
        !Blank(f.title) && !Blank(f.artist) && !Blank(f.audioLink) && env.userId.Some? &&
        (env.uploadCount.None? || env.uploadCount.value < UploadLimit);
    } else {
      assert r.Inserted? <==>
        !Blank(f.title) && !Blank(f.artist) && f.audioFile.Some? && env.userId.Some? &&
        (env.uploadCount.None? || env.uploadCount.value < UploadLimit) &&
        env.upload(AudioPath(env.userId.value, f.audioFile.value.name, env.now, env.random)).None?;
    }
  }

  /** The limit: with valid input and a selected user, a reported count of 20
      or more stops the submission, and a missing count never does. */
  lemma UploadLimitApplies(f: Form, env: Environment)
    requires !Blank(f.title) && !Blank(f.artist)
    requires (f.uploadMethod == ByFile ==> f.audioFile.Some?) && (f.uploadMethod == ByLink ==> !Blank(f.audioLink))
    requires env.userId.Some?
    ensures Submit(f, env).LimitReached? <==> env.uploadCount.Some? && env.uploadCount.value >= UploadLimit
  {
  }
}

/** Input sanitisation and the fixed-pattern link parsers of src/lib/sanitize.ts.
    DOMPurify and the WHATWG URL parser behind `isValidUrl` are foreign code;
    they enter the model as function parameters. */
module Sanitize {
  import opened Strings
  import opened Patterns

  /** `isValidUrl`: whether `new URL(url)` parses with an http or https scheme. */
  type UrlCheck = string -> bool

  /** `DOMPurify.sanitize` with no allowed tags or attributes. */
  type Purifier = string -> string

  // ---------------------------------------------------------------------------
  // sanitizeInput

  const DefaultMaxLength: int := 255

  /** `sanitizeInput(input, maxLength)`: purify, trim, then keep at most
      `maxLength` characters; a negative `maxLength` drops that many
      characters from the end instead, as `slice` does. */
  function SanitizeInput(input: string, maxLength: int, purify: Purifier): (r: string)
    ensures input == "" ==> r == ""
    ensures 0 <= maxLength ==> |r| <= maxLength
    ensures input != "" ==> StartsWith(Trim(purify(input)), r)
    ensures input != "" && 0 <= maxLength ==> |r| == Min(maxLength, |Trim(purify(input))|)
    ensures input != "" && maxLength < 0 ==> |r| == Max(0, |Trim(purify(input))| + maxLength)
    ensures r == [] || !IsSpace(r[0])
  {
    if input == "" then ""
    else
      var t := Trim(purify(input));
      TrimShape(purify(input));
      var r := Slice(t, 0, maxLength);
      assert t[..|r|] == r;
      r
  }

  /** With the default limit no sanitised input is longer than 255 characters. */
  lemma SanitizeInputDefault(input: string, purify: Purifier)
    ensures |SanitizeInput(input, DefaultMaxLength, purify)| <= 255
  {
  }

  // ---------------------------------------------------------------------------
  // sanitizeFileName

  const MaxFileNameLength: nat := 100

  /** The characters `[a-zA-Z0-9._-]` a file name may keep. */
  predicate SafeFileChar(ch: char) {
    ('a' <= ch <= 'z') || ('A' <= ch <= 'Z') || ('0' <= ch <= '9') || ch == '.' || ch == '_' || ch == '-'
  }

  /** `filename.replace(/[^a-zA-Z0-9._-]/g, "_")`. */
  function ReplaceUnsafe(s: string): string {
    seq(|s|, i requires 0 <= i < |s| => if SafeFileChar(s[i]) then s[i] else '_')
  }

  /** `sanitizeFileName`: every unsafe character becomes `_`, then the name is
      cut to 100 characters. The result is a file name without any directory
      separator, and safe characters keep their places. */
  function SanitizeFileName(name: string): (r: string)
    ensures |r| == Min(|name|, MaxFileNameLength)
    ensures forall i :: 0 <= i < |r| ==> SafeFileChar(r[i])
    ensures forall i :: 0 <= i < |r| ==> (SafeFileChar(name[i]) <==> r[i] == name[i])
    ensures forall i :: 0 <= i < |r| && !SafeFileChar(name[i]) ==> r[i] == '_'
    ensures '/' !in r && '\\' !in r
  {
    SlicePrefix(ReplaceUnsafe(name), MaxFileNameLength);
    Slice(ReplaceUnsafe(name), 0, MaxFileNameLength)
  }

  /** Sanitising a sanitised name changes nothing. */
  lemma SanitizeFileNameIdempotent(name: string)
    ensures SanitizeFileName(SanitizeFileName(name)) == SanitizeFileName(name)
  {
    var r := SanitizeFileName(name);
    var rr := SanitizeFileName(r);
    assert |rr| == |r|;
    forall i | 0 <= i < |r| ensures rr[i] == r[i] {
      assert SafeFileChar(r[i]);
    }
  }

  /** A name that is already safe and short enough comes back unchanged. */
  lemma SanitizeFileNameKeepsSafe(name: string)
    requires |name| <= MaxFileNameLength
    requires forall i :: 0 <= i < |name| ==> SafeFileChar(name[i])
    ensures SanitizeFileName(name) == name
  {
    var r := SanitizeFileName(name);
    forall i | 0 <= i < |name| ensures r[i] == name[i] {
    }
  }

  // ---------------------------------------------------------------------------
  // extractYouTubeId

  const WatchMarker: string := "youtube.com/watch?v="
  const ShortMarker: string := "youtu.be/"
  const EmbedMarker: string := "youtube.com/embed/"
  const YouTubeIdLength: nat := 11

  /** `/(?:youtube\.com\/watch\?v=|youtu\.be\/)([a-zA-Z0-9_-]{11})/` */
  const WatchOrShortPattern: seq<Alternative> := [
    Alternative(WatchMarker, VideoIdChars, Exactly(YouTubeIdLength)),
    Alternative(ShortMarker, VideoIdChars, Exactly(YouTubeIdLength))
  ]

  /** `/youtube\.com\/embed\/([a-zA-Z0-9_-]{11})/` */
  const EmbedPattern: seq<Alternative> := [
    Alternative(EmbedMarker, VideoIdChars, Exactly(YouTubeIdLength))
  ]

  predicate IsVideoId(v: string) {
    |v| == YouTubeIdLength && forall k :: 0 <= k < |v| ==> InClass(v[k], VideoIdChars)
  }

  /** `extractYouTubeId`: nothing for an invalid URL; otherwise the id after
      the leftmost watch or short-link marker, failing that the id after the
      leftmost embed marker. */
  function ExtractYouTubeId(url: string, isValidUrl: UrlCheck): (r: Option<string>)
    ensures !isValidUrl(url) ==> r.None?
    ensures r.Some? ==> IsVideoId(r.value)
    ensures r.Some? ==> Includes(url, WatchMarker + r.value) || Includes(url, ShortMarker + r.value)
                        || Includes(url, EmbedMarker + r.value)
  {
    if !isValidUrl(url) then None
    else
      var first := Match(url, WatchOrShortPattern);
      if first.Some? then first else Match(url, EmbedPattern)
  }

  /** Priority: when the watch or short-link pattern matches anywhere, its
      leftmost capture is the answer, even if an embed link comes earlier.
      Otherwise the embed pattern decides. */
  lemma YouTubePatternOrder(url: string, isValidUrl: UrlCheck)
    requires isValidUrl(url)
    ensures Match(url, WatchOrShortPattern).Some? ==>
      ExtractYouTubeId(url, isValidUrl) == Match(url, WatchOrShortPattern)
    ensures Match(url, WatchOrShortPattern).None? ==>
      ExtractYouTubeId(url, isValidUrl) == Match(url, EmbedPattern)
  {
  }

  /** A short link built from a video id gives that id back. */
  lemma ShortLinkRoundTrip(id: string, isValidUrl: UrlCheck)
    requires IsVideoId(id)
    requires isValidUrl("https://youtu.be/" + id)
    ensures ExtractYouTubeId("https://youtu.be/" + id, isValidUrl) == Some(id)
  {
    var url := "https://youtu.be/" + id;
    assert url == "https://" + WatchOrShortPattern[1].literal + id + [];
    assert WatchOrShortPattern[0].literal[0] == 'y' && WatchOrShortPattern[1].literal[0] == 'y';
    assert Diverge(WatchMarker, ShortMarker) by {
      assert WatchMarker[5] != ShortMarker[5];
    }
    MatchExactlyAfterPrefix("https://", WatchOrShortPattern, 1, id, []);
  }

  // ---------------------------------------------------------------------------
  // extractSpotifyId

  const TrackMarker: string := "spotify.com/track/"
  const SpotifyIdLength: nat := 22

  /** `/spotify\.com\/track\/([a-zA-Z0-9]{22})/` */
  const TrackPattern: seq<Alternative> := [Alternative(TrackMarker, Alphanumerics, Exactly(SpotifyIdLength))]

  /** `extractSpotifyId`: nothing for an invalid URL, otherwise the 22
      alphanumerics after the leftmost `spotify.com/track/` that has them. */
  function ExtractSpotifyId(url: string, isValidUrl: UrlCheck): (r: Option<string>)
    ensures !isValidUrl(url) ==> r.None?
    ensures r.Some? ==> |r.value| == SpotifyIdLength
    ensures r.Some? ==> forall k :: 0 <= k < |r.value| ==> InClass(r.value[k], Alphanumerics)
    ensures r.Some? ==> Includes(url, TrackMarker + r.value)
    ensures isValidUrl(url) && (exists i :: 0 <= i <= |url| && MatchAt(url, i, TrackPattern).Some?) ==> r.Some?
  {
    if !isValidUrl(url) then None else Match(url, TrackPattern)
  }

  // ---------------------------------------------------------------------------
  // isValidSoundCloudUrl

  const SoundCloudMarker: string := "soundcloud.com/"

  /** `isValidSoundCloudUrl`. */
  predicate IsValidSoundCloudUrl(url: string, isValidUrl: UrlCheck) {
    isValidUrl(url) && Includes(url, SoundCloudMarker)
  }

  /** A valid SoundCloud URL is a valid URL with the marker somewhere in it. */
  lemma SoundCloudIff(url: string, isValidUrl: UrlCheck)
    ensures IsValidSoundCloudUrl(url, isValidUrl) <==> isValidUrl(url) && Occurs(url, SoundCloudMarker)
  {
    IncludesIff(url, SoundCloudMarker);
  }
}

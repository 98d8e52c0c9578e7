# Mainasu website — verified model of its decision logic

The Mainasu website is a React/TypeScript club site. It has a music board with
ratings, a photo gallery, a member picker and a waifu board. Most of the code
is views and calls to a hosted database. Around them sit small pure decisions:
sniffing file types from magic bytes, sanitising input, parsing YouTube and
Spotify links, classifying music links and rewriting them as embeds, grouping
and averaging votes, searching, paging, the dialogs' validate-then-submit rules,
storage paths, and the loader's black/white text choice. This project restates
those decisions as pure Dafny functions on immutable data and proves what the
code promises about them.

One module per source file. Four shared modules support them:

- `Strings`: JavaScript's string built-ins the code relies on, such as
  `indexOf`, `includes`, `split`, `trim`, `toLowerCase`, `padStart`, `slice`,
  `toString` and `parseInt`. Each is written out with its edge cases.
- `Patterns`: the fixed regular expressions with JavaScript's leftmost-match
  semantics. A pattern is a list of alternatives, each "literal, then a
  character class repeated exactly n times or greedily".
- `Paging`: the `Math.ceil` paging that four pages share.
- `ImageForm`: the size-then-type picture check that two dialogs share.

Foreign code becomes a parameter:

- the browser's URL parser (`isValidUrl`);
- DOMPurify;
- `browser-image-compression`;
- the object-URL and `FileReader` previews;
- `Date.now()` and `Math.random()`;
- the storage upload and public-URL calls.

The database tables are maps where a property needs them, such as the
`(music, user)` vote store and the music table.

## Model

| member | source | states |
|---|---|---|
| Strings.IndexOf | src/pages/Gallery.tsx:208-210 | `indexOf` returns the leftmost occurrence at or after the start index, and none when the text does not occur |
| Strings.IncludesIff | src/components/AddMusicModal.tsx:33-38 | `includes` holds exactly when the text occurs at some index |
| Strings.SplitSecond | src/pages/Gallery.tsx:208-210 | `split(sep)[1]` is absent iff the separator does not occur; otherwise it is the text after the first separator up to the start of the next occurrence, or to the end when there is none |
| Strings.PieceBeforeNextUnique | src/pages/Gallery.tsx:208-210 | only one piece of a text runs from its start to the first occurrence of the separator (or the end), so that description fixes the split result |
| Strings.SplitSecondRoundTrip | src/pages/Gallery.tsx:208-210 | a head ending in its first separator, joined with a separator-free piece, splits back to that piece |
| Strings.TrimShape | src/components/AddMusicModal.tsx:185-186 | `trim` returns a contiguous slice with only white space cut from both ends, and the slice starts and ends with non-space characters |
| Strings.TrimEmptyIff | src/components/AddMusicModal.tsx:98 | `!s.trim()` holds exactly when every character is white space |
| Strings.Lower | src/pages/Rating.tsx:133-134 | lower-casing keeps the length and maps each character on its own |
| Strings.LastSegment | src/lib/imageUpload.ts:66 | `split(c).pop()` is a suffix of the input without `c`, preceded by `c` unless it is the whole input |
| Strings.LastSegmentAfter | src/components/AddMusicModal.tsx:147 | the last segment of `a + c + b` is `b` when `b` holds no `c` |
| Strings.NatToString | src/pages/Rating.tsx:188 | a rendered number is a non-empty digit string without leading zeros |
| Strings.ParseNatToString | src/components/Loader.tsx:28-30 | `parseInt` of a rendered number gives the number back |
| Strings.PadStart | src/pages/Rating.tsx:188 | `padStart(n, ch)` has the length of the longer of the input and `n` |
| Strings.PadStartShape | src/pages/Rating.tsx:188 | the padded text is the input with copies of `ch` in front |
| Strings.SlicePrefix | src/pages/Rating.tsx:109 | `slice(0, n)` keeps the first `min(n, length)` elements |
| Strings.SliceNonNegative | src/pages/Rating.tsx:139-143 | with non-negative bounds `slice` keeps the indices in `[start, end)` that exist |
| Paging.TotalPages | src/pages/Rating.tsx:138 | `Math.ceil(n / perPage)` is the least page count covering `n` items, and is 0 only for no items |
| Paging.PageContents | src/pages/Rating.tsx:139-143 | page `p` shows items `[(p-1)·perPage, min(n, p·perPage))` |
| Paging.PagesNonEmpty | src/pages/Rating.tsx:138-143 | a page is non-empty exactly when it is at most `totalPages` |
| Paging.PagesConcatenate | src/pages/Rating.tsx:138-143 | pages `1..totalPages` laid end to end are the whole list, with nothing lost or repeated |
| Paging.ClicksStayInRange | src/pages/Rating.tsx:496-525 | from a page in range, Previous and Next (disabled at the ends) move one step and stay within `1..totalPages` |
| Paging.ClampsBound | src/pages/Gallery.tsx:358-385 | `Math.max(1, p - 1)` is never below 1 and `Math.min(totalPages, p + 1)` never above the last page, whatever `p` is |
| Patterns.AlternativeAt | src/lib/sanitize.ts:64-65 | one alternative matching at an index captures a run of its class of the required length, right after its literal |
| Patterns.Search | src/lib/sanitize.ts:69 | the regular-expression engine's scan yields the least index at which the pattern matches |
| Patterns.Match | src/lib/sanitize.ts:69-70 | `match(...)?.[1]` is absent iff no index matches; otherwise the capture follows some alternative's literal in the input |
| Patterns.MatchLeftmost | src/lib/sanitize.ts:69-70 | a match at `i` guarantees a result, and that result is the capture of a match at or before `i` |
| Patterns.MatchFirstAt | src/lib/sanitize.ts:69-70 | with no match before `i`, the match at `i` is the result |
| Patterns.MatchAfterPrefix | src/components/AddMusicModal.tsx:46-48 | a greedy alternative preceded by a prefix that holds no literal's first character captures exactly the run of its class |
| Patterns.MatchExactlyAfterPrefix | src/lib/sanitize.ts:64 | the same for a fixed-length alternative, whatever follows the run |
| Patterns.GreedyRun | src/components/AddMusicModal.tsx:46-48 | the run after a literal is made of class characters, follows the literal in the input and stops at the first character outside the class or at the end |
| Patterns.AlternativeAtGreedy | src/components/AddMusicModal.tsx:46-48 | a `literal(class+)` alternative matches at an index iff its literal occurs there with at least one class character after it, and then captures the whole run |
| Patterns.MatchAtGreedy | src/components/AddMusicModal.tsx:46-48 | a pattern of greedy alternatives matches at an index iff one of its alternatives does |
| Patterns.MatchGreedy | src/components/AddMusicModal.tsx:46-51 | for every input, a greedy pattern's result is the whole run after the first alternative that matches at the least index where any alternative matches |
| Patterns.NoMatchGreedy | src/components/AddMusicModal.tsx:46-51 | a greedy pattern with no alternative matching anywhere gives no result |
| FileValidation.ByteHexDigits | src/lib/fileValidation.ts:20 | `b.toString(16).padStart(2, "0")` is the two lower-case hex digits of the byte, high nibble first |
| FileValidation.HexJoinInjective | src/lib/fileValidation.ts:19-21 | distinct byte strings render to distinct hex texts |
| FileValidation.HeaderProperties | src/lib/fileValidation.ts:19-21 | the header has length `2·min(4, n)`, and two headers are equal iff the files' first four bytes are |
| FileValidation.HeaderStartsWith | src/lib/fileValidation.ts:19-24 | the header starts with a signature's hex text exactly when the bytes start with the signature |
| FileValidation.MagicTexts | src/lib/fileValidation.ts:24-37 | the hex texts compared against are the renderings of the JPEG SOI, PNG, "GIF8", "RIFF", "ID3", MPEG frame-sync and "OggS" bytes |
| FileValidation.SniffSignatures | src/lib/fileValidation.ts:24-37 | each signature decides its MIME type in the byte-level reference table |
| FileValidation.ClassifyMatchesSniff | src/lib/fileValidation.ts:24-59 | the hex-text branch chain agrees with the byte table on every input; an unrecognised file gets `unknown` with its header in the error; `valid` holds iff the type is known |
| FileValidation.RiffAlwaysWebp | src/lib/fileValidation.ts:30-31 | every file starting with "RIFF" is reported as `image/webp` |
| FileValidation.WaveMisclassified | src/lib/fileValidation.ts:38-52 | a concrete WAVE header reaches the reader and comes back as `image/webp` |
| FileValidation.ClassifyRiff | src/lib/fileValidation.ts:38-52 | the corrected classifier reports WAVE as `audio/wav` and WEBP as `image/webp`, rejects other RIFF forms, and agrees with the original on all other files |
| FileValidation.WaveRecognised | src/lib/fileValidation.ts:38-52 | the corrected classifier reports the WAVE header as `audio/wav` |
| FileValidation.ValidateImageDimensions | src/lib/fileValidation.ts:82-98 | a loaded image passes iff neither side exceeds its limit; a load failure fails with its own message; `valid` iff no error |
| FileValidation.DefaultDimensions | src/lib/fileValidation.ts:75-76 | with the default limits an image passes iff both sides are at most 4096 |
| ImageUpload.ValidateFile | src/lib/imageUpload.ts:6-33 | oversize files fail with the size message before any type check; a file passes iff it is within 2 MiB and of an allowed type; otherwise the tier's type message |
| ImageUpload.MemberRule | src/lib/imageUpload.ts:19-23 | for a member a file passes iff it is within the limit and JPEG or PNG |
| ImageUpload.SupporterTier | src/lib/imageUpload.ts:19-21 | whatever passes for a member passes for a supporter, and supporters additionally get GIF |
| ImageUpload.TypeErrorOnlyByTier | src/lib/imageUpload.ts:24-29 | two files rejected for their type get the same verdict within a tier |
| ImageUpload.CompressImage | src/lib/imageUpload.ts:35-56 | GIFs and files whose compression throws come back unchanged; otherwise the compressor's output |
| ImageUpload.AvatarPath | src/lib/imageUpload.ts:66-68 | the avatar object name is exactly `userId-timestamp.` followed by the text after the file name's last dot, and has no `/` unless the id or the file name brings one |
| ImageUpload.AvatarPathKeepsExtension | src/lib/imageUpload.ts:66-68 | the stored name keeps the uploaded file's extension |
| ImageUpload.UploadAvatar | src/lib/imageUpload.ts:58-94 | an upload error is returned with an empty URL; otherwise the public URL of the generated path |
| Sanitize.SanitizeInput | src/lib/sanitize.ts:9-26 | empty input gives ""; otherwise the result is the first `min(maxLength, n)` characters of the trimmed purified text of length `n` (for a negative limit, all but the last `-maxLength`), and it starts with a non-space |
| Sanitize.SanitizeInputDefault | src/lib/sanitize.ts:11 | with the default limit the result has at most 255 characters |
| Sanitize.SanitizeFileName | src/lib/sanitize.ts:33-39 | output length is `min(n, 100)`; each kept position holds the same character when it was safe and `_` otherwise, so no `/` or `\` survives |
| Sanitize.SanitizeFileNameIdempotent | src/lib/sanitize.ts:35-38 | sanitising twice is sanitising once |
| Sanitize.SanitizeFileNameKeepsSafe | src/lib/sanitize.ts:35-38 | a safe name of at most 100 characters is returned unchanged |
| Sanitize.ExtractYouTubeId | src/lib/sanitize.ts:60-74 | null for an invalid URL; otherwise any id is 11 characters of `[A-Za-z0-9_-]` following a watch, short-link or embed marker in the URL |
| Sanitize.YouTubePatternOrder | src/lib/sanitize.ts:63-71 | the watch/short-link pattern wins whenever it matches anywhere; only otherwise does the embed pattern decide |
| Sanitize.ShortLinkRoundTrip | src/lib/sanitize.ts:64-70 | `https://youtu.be/<id>` yields `<id>` for every valid video id |
| Sanitize.ExtractSpotifyId | src/lib/sanitize.ts:81-88 | null for an invalid URL; any id is 22 alphanumerics following `spotify.com/track/`; a valid URL with a match always yields one |
| Sanitize.SoundCloudIff | src/lib/sanitize.ts:95-98 | a SoundCloud URL is valid iff the URL is valid and contains `soundcloud.com/` |
| AddMusic.DetectSourceType | src/components/AddMusicModal.tsx:32-41 | youtube iff a YouTube host occurs; spotify iff not YouTube and `spotify.com` occurs; soundcloud next; `link` otherwise |
| AddMusic.DetectAgreesWithYouTubeParser | src/components/AddMusicModal.tsx:33-34 | every link the YouTube id parser accepts is classified as youtube |
| AddMusic.DetectAgreesWithSpotifyParser | src/components/AddMusicModal.tsx:35-36 | every link the Spotify parser accepts is classified as spotify, or as youtube when a YouTube host also occurs |
| AddMusic.DetectAgreesWithSoundCloudCheck | src/components/AddMusicModal.tsx:37-38 | a valid SoundCloud URL is never classified as a plain link |
| AddMusic.ExtractEmbedUrl | src/components/AddMusicModal.tsx:43-60 | types other than youtube and spotify keep the URL; a rewritten URL is the embed base plus a capture that follows the marker in the input; no match keeps the URL |
| AddMusic.YouTubeEmbedIsLeftmostRun | src/components/AddMusicModal.tsx:45-49 | for every link, the embed is the base plus the whole run of non-`&`, non-space characters after the leftmost watch or short-link marker that has one |
| AddMusic.YouTubeEmbedWithoutId | src/components/AddMusicModal.tsx:45-49 | a YouTube link in which no marker is followed by an id character is kept as typed |
| AddMusic.SpotifyEmbedIsLeftmostRun | src/components/AddMusicModal.tsx:50-54 | for every link, the embed is the base plus the whole alphanumeric run after the leftmost `track/` that has one |
| AddMusic.SpotifyEmbedWithoutId | src/components/AddMusicModal.tsx:50-54 | a Spotify link with no alphanumeric run after any `track/` is kept as typed |
| AddMusic.YouTubeEmbedOfShortLink | src/components/AddMusicModal.tsx:45-49 | a `youtu.be/<id>` link becomes `https://www.youtube.com/embed/<id>`, with the id cut at the first `&` or white space |
| AddMusic.YouTubeEmbedOfWatchLink | src/components/AddMusicModal.tsx:45-49 | a `youtube.com/watch?v=<id>` link becomes the embed URL of that id |
| AddMusic.WatchLinkWithTimestamp | src/components/AddMusicModal.tsx:46-49 | a watch link with `&t=42` embeds the id without the timestamp |
| AddMusic.SpotifyEmbedOfTrackLink | src/components/AddMusicModal.tsx:50-54 | a `track/<id>` link becomes `https://open.spotify.com/embed/track/<id>` |
| AddMusic.AudioFileProblem | src/components/AddMusicModal.tsx:66-87 | a file is accepted iff its type is one of the seven audio types and it is at most 5 MiB; the type is checked first |
| AddMusic.PickAudio | src/components/AddMusicModal.tsx:62-93 | an accepted file becomes the form's file; a rejected one leaves the form unchanged |
| AddMusic.Close | src/components/AddMusicModal.tsx:207-215 | closing empties the title, artist, link and file and returns to file mode |
| AddMusic.StoredName | src/components/AddMusicModal.tsx:147-150 | the generated name keeps the file's extension and brings no `/` of its own |
| AddMusic.AudioPath | src/components/AddMusicModal.tsx:145-151 | the storage path lies in the user's folder and keeps the extension |
| AddMusic.AudioPathParts | src/components/AddMusicModal.tsx:147-151 | the path is exactly folder, `/` and a `/`-free generated name |
| AddMusic.Submit | src/components/AddMusicModal.tsx:95-205 | blank names are refused first; an inserted record has trimmed non-empty names and the current user as uploader; file records carry the uploaded path's public URL and no embed, link records no audio URL and the classified embed; the limit reports the count |
| AddMusic.SubmitInsertsIff | src/components/AddMusicModal.tsx:98-160 | a record is inserted iff both names are non-blank, the chosen audio is present, a user is selected, the count is below 20 (missing counting as 0) and a file upload succeeds |
| AddMusic.UploadLimitApplies | src/components/AddMusicModal.tsx:132-138 | with valid input and a user, the limit stops the submission iff a count of at least 20 is reported |
| Rating.GroupVotesIsFilter | src/pages/Rating.tsx:77-90 | grouping by music id gives each id exactly its votes in fetch order, and has a key only for ids with votes |
| Rating.MeanBounds | src/pages/Rating.tsx:95-102 | the mean of votes within `[lo, hi]` lies within `[lo, hi]` |
| Rating.MeanOfEqualVotes | src/pages/Rating.tsx:95-102 | unanimous votes average to their common rating |
| Rating.BuildRows | src/pages/Rating.tsx:93-115 | one row per fetched music, in order, whose average is over all its votes and whose avatars are the first four of them |
| Rating.NoVotesRow | src/pages/Rating.tsx:94-102 | music without votes gets average 0 and no avatars |
| Rating.FilterMusic | src/pages/Rating.tsx:131-135 | every kept row is a listed row whose lower-cased title or artist contains the lower-cased query, and every such listed row is kept |
| Rating.FilterMusicCounts | src/pages/Rating.tsx:131-135 | each matching row is kept as many times as the list holds it, and every other row is dropped |
| Rating.FilterMusicAppend | src/pages/Rating.tsx:131-135 | the search keeps the list's order: the result for `a + b` is the result for `a` followed by the result for `b`, and a single row stays iff it matches |
| Rating.EmptyQueryKeepsAll | src/pages/Rating.tsx:131-135 | an empty query keeps every row in order |
| Rating.QueryCaseInsensitive | src/pages/Rating.tsx:133-134 | a query and its lower-cased form select the same rows |
| Rating.RatingPages | src/pages/Rating.tsx:138-143 | fifteen rows a page, page `p` being `[(p-1)·15, p·15)`, and the pages concatenate to the filtered list |
| Rating.SetQuery | src/pages/Rating.tsx:266-268 | typing a query returns to page 1 |
| Rating.AfterMusicAdded | src/pages/Rating.tsx:537-540 | adding music returns to page 1 and keeps the query |
| Rating.NewSearchShowsFirstMatches | src/pages/Rating.tsx:266-268 | after a new query the first fifteen matches are shown |
| Rating.JsRem | src/pages/Rating.tsx:187 | JavaScript's `%` lies in `[0, 60)` for non-negative and `(-60, 0]` for negative dividends |
| Rating.FormatTimeShape | src/pages/Rating.tsx:185-189 | non-negative seconds render as minutes, `:`, and the two digits of the seconds below 60 |
| Rating.FormatTimeRoundTrip | src/pages/Rating.tsx:185-189 | reading minutes and seconds back from the rendering gives the original seconds |
| Rating.FormatTimeNegative | src/pages/Rating.tsx:185-189 | `-5` renders as `-1:-5`, the floor of the minutes beside the signed remainder |
| Vote.Open | src/components/VoteModal.tsx:39-45 | opening selects the user's existing vote, or none |
| Vote.Close | src/components/VoteModal.tsx:108-111 | closing restores the existing vote and clears the hover |
| Vote.CloseThenOpen | src/components/VoteModal.tsx:39-45 | after close and reopen the dialog shows the existing vote and no hover, whatever was clicked before |
| Vote.StarsFollowHover | src/components/VoteModal.tsx:164-176 | hovering lights the stars up to the hovered one, leaving falls back to the selection, and a click keeps the clicked stars lit |
| Vote.ExactlyOneHint | src/components/VoteModal.tsx:190-197 | a rating in `1..10` shows exactly one hint, any other none |
| Vote.BucketsMonotone | src/components/VoteModal.tsx:192-196 | a higher rating never gets a lower hint |
| Vote.SubmitLabel | src/components/VoteModal.tsx:291-295 | the button reads "Update Vote" iff a vote exists and nothing is submitting, "Submitting..." iff submitting |
| Vote.Submit | src/components/VoteModal.tsx:47-106 | no rating and then no user are refused before the store is read; otherwise the `(music, user)` entry holds the new rating, is updated in place with its id when it existed and inserted otherwise, and nothing else changes |
| Vote.LastVoteWins | src/components/VoteModal.tsx:67-96 | two submits leave the store as one submit of the later rating |
| Vote.OneVotePerUser | src/components/VoteModal.tsx:67-96 | a submit adds at most one entry, and none when the user has voted |
| Vote.VotesSummary | src/components/VoteModal.tsx:117-122 | the header counts the votes it is given; their mean is 0 for none and lies in `1..10` for valid ratings |
| Vote.DialogAsWrittenDisagrees | src/pages/Rating.tsx:554 | with five votes 1, 1, 1, 1, 10 the table shows 2.8 while the dialog reports four votes averaging 1.0 |
| Vote.DialogVotes | src/pages/Rating.tsx:77-90 | the corrected dialog input is every vote of the music |
| Vote.DialogAgreesWithTable | src/components/VoteModal.tsx:117-122 | with every vote at hand the dialog's count is the number of votes, its mean is the table's, and the avatars are its first votes |
| AddPhotos.FirstCategory | src/components/AddPhotosModal.tsx:18-20 | the first category's id, or "" without categories |
| AddPhotos.Initial | src/components/AddPhotosModal.tsx:18-24 | the dialog starts with aligned empty lists and no error |
| AddPhotos.PhotoTypeFiles | src/components/AddPhotosModal.tsx:30-36 | the type filter keeps every file iff all of them are PNG or JPEG |
| AddPhotos.Previews | src/components/AddPhotosModal.tsx:57 | one preview per file, in order |
| AddPhotos.Pick | src/components/AddPhotosModal.tsx:26-63 | any wrong type sets the type error and changes nothing else; then any oversize file sets the size error; otherwise the files and previews are appended in order and the error cleared |
| AddPhotos.PickKeepsPreviewsAligned | src/components/AddPhotosModal.tsx:53-58 | picking keeps one preview per file and the earlier files in place |
| AddPhotos.Without | src/components/AddPhotosModal.tsx:66-67 | filtering out index `i` drops exactly that element, or nothing when `i` is out of range |
| AddPhotos.Remove | src/components/AddPhotosModal.tsx:65-74 | removing leaves the category, error and upload flag alone |
| AddPhotos.RemoveKeepsPreviewsAligned | src/components/AddPhotosModal.tsx:65-73 | removing keeps files and previews aligned, drops one when the index exists, and keeps every other pair |
| AddPhotos.RemoveUndoesPick | src/components/AddPhotosModal.tsx:53-73 | removing the photo just picked restores the earlier selection |
| AddPhotos.Close | src/components/AddPhotosModal.tsx:104-115 | closing is ignored while uploading and otherwise returns to the initial state |
| AddPhotos.Submit | src/components/AddPhotosModal.tsx:76-102 | refused iff no category or no files, with the matching message; otherwise the selection is handed over, and the dialog resets when `onSubmit` resolves and keeps its selection, no longer uploading, when it rejects |
| Gallery.InCategory | src/pages/Gallery.tsx:237-239 | every shown photo is a fetched photo of the selected category, and every such fetched photo is shown |
| Gallery.InCategoryCounts | src/pages/Gallery.tsx:237-239 | each photo of the category is kept as many times as the list holds it, and every other photo is dropped |
| Gallery.InCategoryAppend | src/pages/Gallery.tsx:237-239 | the filter keeps the fetched order: the result for `a + b` is the result for `a` followed by the result for `b`, and a single photo stays iff it is of the category |
| Gallery.FilterKeepsFetched | src/pages/Gallery.tsx:91 | photos fetched for the category all pass the page's own filter |
| Gallery.GalleryPages | src/pages/Gallery.tsx:242-247 | twelve photos a page, page `p` being `[(p-1)·12, p·12)`, with clamped Previous and Next |
| Gallery.SelectCategory | src/pages/Gallery.tsx:118-121 | picking a category returns to page 1 |
| Gallery.NewCategoryShowsFirstPhotos | src/pages/Gallery.tsx:118-121 | after picking a category the first twelve of its photos are shown |
| Gallery.HandleModalSubmit | src/pages/Gallery.tsx:132-193 | the upload handler never rejects: without a user it alerts, a failed upload or insert is caught and alerted, and only a full success closes the dialog, with a refetch iff the upload went to the category on screen |
| Gallery.UploadDialogAlwaysResets | src/components/AddPhotosModal.tsx:91-101 | with this page as owner, a sent selection always resets the photo dialog, after a failed upload too |
| Gallery.DeleteOnlyByUploader | src/pages/Gallery.tsx:319-320 | only the uploader, while selected as the current user, may delete |
| Gallery.DeletePath | src/pages/Gallery.tsx:208-210 | no path iff the bucket marker is absent; otherwise the text after the first marker up to the start of the next one, or to the end |
| Gallery.DeletePathRoundTrip | src/pages/Gallery.tsx:208-210 | a marker-free path behind the first marker is found again |
| Gallery.UploadPath | src/pages/Gallery.tsx:149 | the path starts with `userId/category/` and ends in the file name |
| Gallery.UploadPathHasNoMarker | src/pages/Gallery.tsx:149 | a path made of `/`-free parts contains no bucket marker unless the category has the marker's inner length |
| Gallery.StoredPathHasNoMarker | src/pages/Gallery.tsx:35-47 | for every category of the page the stored path contains no bucket marker |
| Gallery.UploadThenDelete | src/pages/Gallery.tsx:145-210 | deleting an uploaded photo targets the very path it was uploaded to |
| EditMusic.Open | src/components/EditMusicModal.tsx:30-36 | opening loads the given title and artist and hides the delete confirmation |
| EditMusic.Close | src/components/EditMusicModal.tsx:125-130 | closing empties both fields and hides the confirmation |
| EditMusic.ReopenDiscardsEdits | src/components/EditMusicModal.tsx:30-36 | whatever was typed, close and reopen shows the given data |
| EditMusic.Update | src/components/EditMusicModal.tsx:38-69 | refused iff a name is blank; otherwise only the row with that id changes, to the trimmed names |
| EditMusic.UpdateStoresTrimmed | src/components/EditMusicModal.tsx:49-56 | an update never stores a blank or untrimmed title or artist |
| EditMusic.StoragePath | src/components/EditMusicModal.tsx:93-97 | a storage object is removed iff the record is an uploaded file with a non-empty URL, and it lies in the deleting user's folder |
| EditMusic.StoragePathRoundTrip | src/components/EditMusicModal.tsx:95-97 | a file stored as `userId/name` is the object its uploader's delete removes; any other user's delete names a different object |
| EditMusic.Delete | src/components/EditMusicModal.tsx:71-123 | no user and a missing row stop the delete; otherwise the row is removed and the derived storage path is the one removed; a storage failure is only logged, so it takes no part |
| ImageForm.PickImage | src/components/WaifuModal.tsx:26-51 | nothing picked changes nothing; an oversize file sets the size message before the type check; a wrong type sets the type message; an accepted file becomes the picture with its preview and clears the error |
| ImageForm.PickIdempotent | src/components/WaifuModal.tsx:26-51 | picking the same file twice is picking it once |
| ImageForm.AcceptedPickOverrides | src/components/WaifuModal.tsx:41-49 | an accepted pick replaces whatever was picked before |
| ImageForm.RejectedPickKeepsPicture | src/components/WaifuModal.tsx:29-39 | a rejected pick keeps the picture and preview and reports one of the two messages |
| ImageForm.LargerLimitAcceptsMore | src/components/AddUserModal.tsx:29-39 | a larger limit accepts every file a smaller one does, plus exactly the PNG/JPEG files between the two limits |
| WaifuModal.Initial | src/components/WaifuModal.tsx:20-24 | the fields start from the initial data, or empty |
| WaifuModal.PickImage | src/components/WaifuModal.tsx:26-51 | files over 512000 bytes get the 500KB message; the picture changes only to an accepted file |
| WaifuModal.Submit | src/components/WaifuModal.tsx:53-71 | the dialog closes iff both fields are set and there is a picture or edit mode; the entry is handed over iff it closes with a picture; otherwise the matching error |
| WaifuModal.EditWithoutPictureDropsEdits | src/components/WaifuModal.tsx:66-70 | in edit mode without a new picture the dialog closes and hands nothing over |
| WaifuModal.PickThenSubmit | src/components/WaifuModal.tsx:41-68 | an accepted picture is the one handed over |
| WaifuModal.RejectedPictureNotSubmitted | src/components/WaifuModal.tsx:29-64 | a rejected picture never reaches the owner; adding stops at the missing-image error |
| AddUserModal.Initial | src/components/AddUserModal.tsx:20-24 | the fields start from the initial data; a preview only comes from its avatar URL |
| AddUserModal.PickImage | src/components/AddUserModal.tsx:26-51 | files over 1048576 bytes get the 1MB message; the picture changes only to an accepted file |
| AddUserModal.Close | src/components/AddUserModal.tsx:70-77 | closing empties every field |
| AddUserModal.CloseForgets | src/components/AddUserModal.tsx:70-77 | any two states close to the same state |
| AddUserModal.Submit | src/components/AddUserModal.tsx:53-68 | the entry is handed over iff both fields are set and there is a picture, edit mode or a preview; it carries the picture or null, and the dialog then closes |
| AddUserModal.ExistingAvatarStandsIn | src/components/AddUserModal.tsx:61-67 | a member with an avatar submits without a new picture, handing over null |
| AddUserModal.FreshAddNeedsPicture | src/components/AddUserModal.tsx:61-64 | a fresh dialog in add mode cannot be submitted without a picture |
| AddUserModal.AcceptsWhatWaifuDialogAccepts | src/components/AddUserModal.tsx:29-39 | every picture the 500 KB dialog accepts, the 1 MB dialog accepts |
| WaifuPage.SlotsLeft | src/pages/Waifu.tsx:166-177 | slots left plus claimed waifus is the maximum, and the add card shows iff at least one slot is left |
| WaifuPage.WaifuPages | src/pages/Waifu.tsx:86-88 | five members a page, the pages concatenate to the list, with clamped Previous and Next |
| WaifuPage.Step | src/pages/Waifu.tsx:90-100 | add selects the member and clears the edited waifu, edit records the pair, both open the dialog; other events keep both |
| WaifuPage.LastOpening | src/pages/Waifu.tsx:90-100 | the last opening event is one of the run's add or edit clicks |
| WaifuPage.EditModeIffLastOpenedForEdit | src/pages/Waifu.tsx:227 | the dialog is in edit mode iff it was last opened through a waifu's edit click |
| WaifuPage.PagingStepsStayInRange | src/pages/Waifu.tsx:189-216 | every page event keeps an in-range page in range |
| ChangeUser.ChangeUserPages | src/components/ChangeUser.tsx:83-85 | twelve users a page, a page is non-empty iff it is at most `⌈n/12⌉`, and the pages concatenate to the list |
| ChangeUser.ChangeUserClicks | src/components/ChangeUser.tsx:179-206 | Previous never goes below 1 and Next never above the last page |
| Loader.LeadingDigits | src/components/Loader.tsx:25 | the digit run at the front is maximal |
| Loader.DigitRuns | src/components/Loader.tsx:25 | `match(/\d+/g)` yields non-empty runs of digits only |
| Loader.DigitRunsEmptyIff | src/components/Loader.tsx:25-26 | no run (`null`) is found exactly when the text holds no digit |
| Loader.RunsSkipNonDigits | src/components/Loader.tsx:25 | text without digits contributes no run |
| Loader.RunsOfDigitsThenRest | src/components/Loader.tsx:25 | a run of digits that the next character ends is the first run, and the runs of the rest follow it |
| Loader.RunsOfChannels | src/components/Loader.tsx:25 | the runs of `prefix r sep g sep b tail` start with the three channels |
| Loader.ParseRgbRoundTrip | src/components/Loader.tsx:24-34 | reading back any `rgb(r, g, b)` or `rgba(r, g, b, a)` text gives `(r, g, b)`, extra runs ignored |
| Loader.NoDigitsReadsWhite | src/components/Loader.tsx:25-33 | a colour text without any digit, such as a keyword, reads as white, so the text is black |
| Loader.TwoChannelsReadWhite | src/components/Loader.tsx:25-33 | a colour text with only two channels, such as `rgb(1, 2)`, reads as white |
| Loader.Luminance | src/components/Loader.tsx:19-21 | the YIQ brightness is non-negative, at most 255 for channels up to 255, and 255 for white |
| Loader.TextColour | src/components/Loader.tsx:76-79 | black iff `299r + 587g + 114b > 128000`, white otherwise |
| Loader.BrighterStaysBlack | src/components/Loader.tsx:76-79 | brightening any channel never turns black text white |

## Left out

- Every call to the hosted database and storage service is left out because it is network I/O. `src/lib/supabase.ts` is not part of this model. The upload and public-URL calls become parameters. The tables become maps. Failures appear only where a handler branches on them.
- Most failed-insert and failed-fetch paths of the handlers (`throw` into a `catch` that shows an alert) are left out. The modelled failures are the ones a decision depends on: the music dialog's upload failure, the avatar upload error, the photo upload handler's caught failure and the dialog's rejected `onSubmit`, and the edit dialog's failed fetch of the row to delete (as `NotFound`).
- `localStorage` is left out because it is browser state. The current user is an `Option` parameter. ChangeUser's select-user handler only writes it, so it is not modelled.
- ChangeUser's edit handler only opens a dialog, and its delete handler only confirms and logs, so neither is modelled.
- The Waifu page's submit handler only logs what it is given, so it is not modelled.
- `FileReader`, object URLs, image loading and audio duration come from the browser. Previews are a function of the file, as they read once loading ends. An image's size is an optional pair. The duration is a parameter.
- DOMPurify, the WHATWG URL parser and `browser-image-compression` are foreign libraries. They become uninterpreted function parameters.
- `Date.now()` and `Math.random()` are nondeterministic, so they are parameters. The random suffix is any string.
- `alert`, `confirm`, JSX rendering, CSS, GSAP animations, the Loader's DOM sampling and progress animation, the navbars, the home and about pages, the search bar and routing carry no decision worth stating.
- Sanitize.SanitizeFileName: a Dafny `char` is a Unicode scalar value, whereas JavaScript strings are UTF-16 code units. The source's pattern has no `u` flag, so it replaces each half of a surrogate pair, and a character outside the Basic Multilingual Plane becomes `__` there but `_` in the model. The 100-character cut also counts code units in the source, so for such text it cuts at a different place and can split a pair.
- Sanitize.SanitizeInput: `slice(0, maxLength)` counts UTF-16 code units in the source and scalar values in the model, so text with characters outside the Basic Multilingual Plane is cut at a different place and can be cut inside a surrogate pair in the source.
- Rating.BuildRows: the average is the exact rational mean. The `toFixed(1)`/`parseFloat` rounding is floating point and is not modelled.
- Vote.VotesSummary: the header's mean is the exact rational mean, without the `toFixed(1)` rendering.
- Rating.FormatTimeShape: the model takes whole seconds. The source floors fractional minutes and seconds of a floating-point duration.
- Strings.Lower: `toLowerCase` is modelled as the ASCII case fold. Other Unicode case mappings are left out.
- Rating.FilterMusic: searches case-insensitively only for ASCII letters, since it rests on Strings.Lower.
- Loader.ParseRgbRoundTrip: `parseInt` is exact on unbounded naturals. Its float precision beyond 2^53 is irrelevant for colour channels and left out.
- Loader.Luminance: computed as an exact rational instead of a float. The threshold test is stated on the integer weights, which it equals exactly.

## Findings

| source | as written | input that shows it | evidently intended | confidence | as-written member | corrected member |
|---|---|---|---|---|---|---|
| src/lib/fileValidation.ts:30-52 | the first `52494646` ("RIFF") test returns `image/webp`, so the later RIFF branch that tells WAVE audio apart is unreachable | the twelve bytes `RIFF`, four length bytes, `WAVE` | WAVE files reported as `audio/wav`, WebP as `image/webp`, other RIFF forms rejected | high, not executed | FileValidation.RiffAlwaysWebp | FileValidation.ClassifyRiff |
| src/pages/Rating.tsx:109 | the row keeps only the first four votes for the avatar strip, and the same cut list is handed to the vote dialog (src/pages/Rating.tsx:554), whose "All Votes (n)" and average then cover at most four votes | one piece of music with votes 1, 1, 1, 1, 10: the table shows 2.8, the dialog "All Votes (4)" with 1.0 | the dialog lists and averages every vote, as the table's average does | medium, not executed | Vote.DialogAsWrittenDisagrees | Vote.DialogAgreesWithTable |

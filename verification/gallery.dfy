/** The photo gallery page, src/pages/Gallery.tsx: photos of the selected
    category, 12 per page with clamped Previous / Next, who may delete a
    photo, where an uploaded photo is stored, and how the storage path is
    recovered from a photo's public URL when it is deleted. */
module Gallery {
  import opened Strings
  import opened Paging
  import AddPhotos

  datatype Photo = Photo(id: string, imageUrl: string, category: string, uploadedBy: string,
                         uploaderName: string, uploaderAvatar: string)

  // ---------------------------------------------------------------------------
  // Category filter and pages

  /** `filteredPhotos`. */
  function InCategory(photos: seq<Photo>, category: string): (r: seq<Photo>)
    ensures |r| <= |photos|
    ensures forall k :: 0 <= k < |r| ==> r[k] in photos && r[k].category == category
    ensures forall p :: p in photos && p.category == category ==> p in r
    decreases |photos|
  {
    if photos == [] then []
    else
      var rest := InCategory(photos[1..], category);
      if photos[0].category == category then [photos[0]] + rest else rest
  }

  /** The filter keeps each photo of the category as often as the list holds
      it and drops every other photo. */
  lemma {:induction false} InCategoryCounts(photos: seq<Photo>, category: string)
    ensures forall p :: multiset(InCategory(photos, category))[p] ==
                        if p.category == category then multiset(photos)[p] else 0
    decreases |photos|
  {
    if photos != [] {
      InCategoryCounts(photos[1..], category);
      assert photos == [photos[0]] + photos[1..];
    }
  }

  /** The filter keeps the fetched order: it filters the two halves of a
      list separately, and a single photo stays exactly when it is of the
      category. */
  lemma {:induction false} InCategoryAppend(a: seq<Photo>, b: seq<Photo>, category: string)
    ensures InCategory(a + b, category) == InCategory(a, category) + InCategory(b, category)
    ensures forall p :: InCategory([p], category) == if p.category == category then [p] else []
    decreases |a|
  {
    if a != [] {
      assert (a + b)[1..] == a[1..] + b;
      InCategoryAppend(a[1..], b, category);
    } else {
      assert a + b == b;
    }
  }

  /** The page already asks the database for one category only, so on what it
      fetched the client-side filter keeps everything, in order. */
  lemma {:induction false} FilterKeepsFetched(photos: seq<Photo>, category: string)
    requires forall k :: 0 <= k < |photos| ==> photos[k].category == category
    ensures InCategory(photos, category) == photos
    decreases |photos|
  {
    if photos != [] {
      FilterKeepsFetched(photos[1..], category);
    }
  }

  const PhotosPerPage: nat := 12

  function CurrentPhotos(filtered: seq<Photo>, page: int): seq<Photo> {
    PageItems(filtered, page, PhotosPerPage)
  }

  /** Page `p` shows photos `[(p-1)·12, p·12)` of the filtered list, and from
      any page Previous never goes below 1 and Next never above the last
      page. */
  lemma GalleryPages(filtered: seq<Photo>, page: int)
    requires page >= 1
    ensures CurrentPhotos(filtered, page) == filtered[Min((page - 1) * 12, |filtered|)..Min(page * 12, |filtered|)]
    ensures PrevClick(page, true) >= 1
    ensures NextClick(page, TotalPages(|filtered|, PhotosPerPage), true) <= TotalPages(|filtered|, PhotosPerPage)
  {
    PageContents(filtered, page, PhotosPerPage);
    ClampsBound(page, TotalPages(|filtered|, PhotosPerPage));
  }

  datatype View = View(category: string, page: int)

  /** `handleCategoryChange`. */
  function SelectCategory(v: View, category: string): (r: View)
    ensures r.category == category && r.page == 1
  {
    View(category, 1)
  }

  /** A new category starts on its first page: the first twelve of its photos. */
  lemma NewCategoryShowsFirstPhotos(v: View, category: string, photos: seq<Photo>)
    ensures var w := SelectCategory(v, category);
      CurrentPhotos(InCategory(photos, w.category), w.page)
        == InCategory(photos, category)[..Min(12, |InCategory(photos, category)|)]
  {
    PageContents(InCategory(photos, category), 1, PhotosPerPage);
  }

  // ---------------------------------------------------------------------------
  // Uploading

  /** What `handleModalSubmit` does once the dialog hands over a selection:
      whether its promise rejects, the alert it shows, whether it closes the
      dialog itself and whether it fetches the photos again. */
  datatype UploadOutcome = UploadOutcome(rejects: bool, alert: string, closesModal: bool, refetch: bool)

  /** `handleModalSubmit`: without a current user it alerts and returns; a
      failed upload or insert of any photo is caught and alerted; otherwise
      it reports the count, closes the dialog and refetches when the upload
      went to the category on screen. `uploadsSucceed` stands for all the
      storage and database calls. */
  function HandleModalSubmit(currentUser: Option<string>, category: string, fileCount: nat,
                             uploadsSucceed: bool, selectedCategory: string, errorMessage: string): (r: UploadOutcome)
    ensures !r.rejects
    ensures r.closesModal <==> currentUser.Some? && uploadsSucceed
    ensures r.refetch <==> r.closesModal && category == selectedCategory
    ensures currentUser.Some? && !uploadsSucceed ==> r.alert == "Failed to upload photos: " + errorMessage
  {
    if currentUser.None? then UploadOutcome(false, "Please select a user first", false, false)
    else if !uploadsSucceed then UploadOutcome(false, "Failed to upload photos: " + errorMessage, false, false)
    else
      var plural := if fileCount != 1 then "s" else "";
      UploadOutcome(false, "Successfully uploaded " + NatToString(fileCount) + " photo" + plural + "!",
                    true, category == selectedCategory)
  }

  /** With this page as its owner, the dialog's `onSubmit` never rejects, so
      a sent selection always resets the dialog, after a failed upload too. */
  lemma UploadDialogAlwaysResets(st: AddPhotos.PhotosState, categoryIds: seq<string>, currentUser: Option<string>,
                                 uploadsSucceed: bool, selectedCategory: string, errorMessage: string)
    ensures var out := HandleModalSubmit(currentUser, st.category, |st.files|, uploadsSucceed, selectedCategory, errorMessage);
            var r := AddPhotos.Submit(st, categoryIds, out.rejects);
            r.Sent? ==> r.state == AddPhotos.Initial(categoryIds)
  {
  }

  // ---------------------------------------------------------------------------
  // Deleting

  /** `canDelete`: only the uploader, while selected as the current user. */
  predicate CanDelete(currentUser: Option<string>, photo: Photo) {
    currentUser.Some? && currentUser.value == photo.uploadedBy
  }

  /** The delete button appears on one user's photos only: two users who may
      both delete a photo are the same user. */
  lemma DeleteOnlyByUploader(a: Option<string>, b: Option<string>, photo: Photo)
    requires CanDelete(a, photo) && CanDelete(b, photo)
    ensures a == b == Some(photo.uploadedBy)
  {
  }

  const BucketMarker: string := "/gallery-photos/"

  /** `imageUrl.split("/gallery-photos/")[1]`: the text between the first
      marker and the next one, or the end; `None` (the "Invalid image URL"
      error) when there is no marker. */
  function DeletePath(imageUrl: string): (r: Option<string>)
    ensures r.None? <==> !Includes(imageUrl, BucketMarker)
    ensures r.Some? ==> Includes(imageUrl, BucketMarker + r.value) && !Includes(r.value, BucketMarker)
    ensures r.Some? ==> IndexOf(imageUrl, BucketMarker, 0).Some?
                        && PieceBeforeNext(imageUrl[IndexOf(imageUrl, BucketMarker, 0).value + |BucketMarker|..],
                                           BucketMarker, r.value)
  {
    SplitSecond(imageUrl, BucketMarker)
  }

  /** A photo's public URL is the bucket's address, the marker, and the
      storage path; deleting recovers the path, as long as the marker occurs
      first where the bucket's address ends and not inside the path. */
  lemma DeletePathRoundTrip(base: string, path: string)
    requires IndexOf(base + BucketMarker, BucketMarker, 0) == Some(|base|)
    requires !Includes(path, BucketMarker)
    ensures DeletePath(base + BucketMarker + path) == Some(path)
  {
    SplitSecondRoundTrip(base + BucketMarker, BucketMarker, path);
  }

  // ---------------------------------------------------------------------------
  // Uploading

  /** Where `handleModalSubmit` stores a photo: `userId/category/fileName`,
      with `fileName` the generated `now-random.ext`. */
  function UploadPath(userId: string, category: string, fileName: string): (r: string)
    ensures StartsWith(r, userId + "/" + category + "/")
    ensures '/' !in fileName ==> LastSegment(r, '/') == fileName
  {
    var head := userId + "/" + category;
    var r := head + "/" + fileName;
    assert r[..|userId + "/" + category + "/"|] == userId + "/" + category + "/";
    if '/' !in fileName then
      LastSegmentAfter(head, '/', fileName);
      r
    else r
  }

  /** Where the separators of an upload path stand when no part contains one. */
  lemma SlashesOfUploadPath(userId: string, category: string, fileName: string, k: nat)
    requires '/' !in userId && '/' !in category && '/' !in fileName
    requires k < |UploadPath(userId, category, fileName)|
    ensures UploadPath(userId, category, fileName)[k] == '/' <==> k == |userId| || k == |userId| + 1 + |category|
  {
    var r := UploadPath(userId, category, fileName);
    var a := userId + "/";
    var b := a + category;
    var c := b + "/";
    assert r == c + fileName;
    if k < |c| {
      assert r[k] == c[k];
      if k < |b| {
        assert c[k] == b[k];
        if k < |a| {
          assert b[k] == a[k];
          if k < |userId| {
            assert a[k] == userId[k];
          }
        } else {
          assert b[k] == category[k - |a|];
        }
      }
    } else {
      assert r[k] == fileName[k - |c|];
    }
  }

  /** The gallery's categories are short slash-free names, so a stored photo's
      path never contains the bucket marker, and its public URL leads back to
      it. */
  lemma UploadPathHasNoMarker(userId: string, category: string, fileName: string)
    requires '/' !in userId && '/' !in category && '/' !in fileName
    requires |category| != |BucketMarker| - 2
    ensures !Includes(UploadPath(userId, category, fileName), BucketMarker)
  {
    var r := UploadPath(userId, category, fileName);
    forall k: nat | k + |BucketMarker| <= |r| ensures !OccursAt(r, BucketMarker, k) {
      SlashesOfUploadPath(userId, category, fileName, k);
      SlashesOfUploadPath(userId, category, fileName, k + 15);
      OccursAtChar(r, BucketMarker, k, 0);
      OccursAtChar(r, BucketMarker, k, 15);
    }
    IncludesIff(r, BucketMarker);
  }

  const Categories: seq<string> := ["jalan", "vault", "food", "game", "animals", "random"]

  /** The page's category ids are short and slash-free. */
  lemma CategoryNames(category: string)
    requires category in Categories
    ensures '/' !in category && |category| <= 7
  {
  }

  /** A stored photo's path never contains the bucket marker. */
  lemma StoredPathHasNoMarker(userId: string, category: string, fileName: string)
    requires category in Categories
    requires '/' !in userId && '/' !in fileName
    ensures !Includes(UploadPath(userId, category, fileName), BucketMarker)
  {
    CategoryNames(category);
    UploadPathHasNoMarker(userId, category, fileName);
  }

  /** For every category of the page, deleting finds the uploaded photo's
      storage path again. */
  lemma UploadThenDelete(base: string, userId: string, category: string, fileName: string)
    requires category in Categories
    requires '/' !in userId && '/' !in fileName
    requires IndexOf(base + BucketMarker, BucketMarker, 0) == Some(|base|)
    ensures DeletePath(base + BucketMarker + UploadPath(userId, category, fileName))
      == Some(UploadPath(userId, category, fileName))
  {
    StoredPathHasNoMarker(userId, category, fileName);
    DeletePathRoundTrip(base, UploadPath(userId, category, fileName));
  }
}

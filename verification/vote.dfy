/** The rating dialog of src/components/VoteModal.tsx: the star selection
    with its hover preview, the hint shown for a rating, the submit button's
    label, and the insert-or-update of the user's vote. The `music_votes`
    table is modelled as a map from (music id, user id) to the stored vote. */
module Vote {
  import opened Strings
  import Rating

  // ---------------------------------------------------------------------------
  // Selection state

  datatype ModalState = ModalState(selected: int, hovered: int, submitting: bool)

  /** `currentUserVote || 0`: the user's existing rating, 0 when there is none. */
  function InitialSelection(currentUserVote: Option<int>): (r: int)
    ensures currentUserVote.Some? && currentUserVote.value != 0 ==> r == currentUserVote.value
    ensures currentUserVote.None? || currentUserVote.value == 0 ==> r == 0
  {
    if currentUserVote.Some? then currentUserVote.value else 0
  }

  /** Opening the dialog (or a change of the current vote) preselects the
      user's existing rating. */
  function Open(st: ModalState, currentUserVote: Option<int>): (r: ModalState)
    ensures r.selected == InitialSelection(currentUserVote)
    ensures r.hovered == st.hovered && r.submitting == st.submitting
  {
    st.(selected := InitialSelection(currentUserVote))
  }

  /** `handleClose`: back to the existing rating, no hover. */
  function Close(st: ModalState, currentUserVote: Option<int>): (r: ModalState)
    ensures r.selected == InitialSelection(currentUserVote) && r.hovered == 0
    ensures r.submitting == st.submitting
  {
    st.(selected := InitialSelection(currentUserVote), hovered := 0)
  }

  /** Whatever was clicked or hovered before, closing and reopening the dialog
      shows the same selection as opening it afresh. */
  lemma CloseThenOpen(st: ModalState, other: ModalState, currentUserVote: Option<int>)
    ensures Open(Close(st, currentUserVote), currentUserVote).selected
      == Open(other, currentUserVote).selected
    ensures Open(Close(st, currentUserVote), currentUserVote).hovered == 0
  {
  }

  function Click(st: ModalState, rating: int): ModalState {
    st.(selected := rating)
  }

  function Hover(st: ModalState, rating: int): ModalState {
    st.(hovered := rating)
  }

  function Leave(st: ModalState): ModalState {
    st.(hovered := 0)
  }

  /** Star `star` is drawn filled: up to the hovered star while hovering,
      otherwise up to the selected one. */
  predicate StarActive(st: ModalState, star: int) {
    star <= if st.hovered != 0 then st.hovered else st.selected
  }

  /** Hovering previews exactly the stars up to the hovered one; leaving restores
      the selection, which a click sets. */
  lemma StarsFollowHover(st: ModalState, rating: int, star: int)
    requires 1 <= rating <= 10
    ensures StarActive(Hover(st, rating), star) <==> star <= rating
    ensures StarActive(Leave(Hover(st, rating)), star) <==> star <= st.selected
    ensures StarActive(Leave(Click(st, rating)), star) <==> star <= rating
  {
  }

  // ---------------------------------------------------------------------------
  // Hints

  datatype Hint = NotGreat | ItsOkay | Good | Great | Masterpiece

  /** The hints the paragraph under the stars renders: each condition is
      evaluated on its own, and the paragraph is shown only for a rating
      above 0. */
  function HintsFor(selected: int): seq<Hint> {
    if selected <= 0 then []
    else
      (if selected <= 3 then [NotGreat] else [])
      + (if 3 < selected <= 5 then [ItsOkay] else [])
      + (if 5 < selected <= 7 then [Good] else [])
      + (if 7 < selected <= 9 then [Great] else [])
      + (if selected == 10 then [Masterpiece] else [])
  }

  /** The reference buckets. */
  function Bucket(rating: int): Hint
    requires 1 <= rating <= 10
  {
    if rating <= 3 then NotGreat
    else if rating <= 5 then ItsOkay
    else if rating <= 7 then Good
    else if rating <= 9 then Great
    else Masterpiece
  }

  /** The buckets do not overlap and leave no gap: every rating from 1 to 10
      shows exactly its bucket's hint, and no rating outside shows any. */
  lemma ExactlyOneHint(rating: int)
    ensures 1 <= rating <= 10 ==> HintsFor(rating) == [Bucket(rating)]
    ensures rating < 1 || rating > 10 ==> HintsFor(rating) == []
  {
  }

  /** Higher ratings never get a lower hint. */
  lemma BucketsMonotone(a: int, b: int)
    requires 1 <= a <= b <= 10
    ensures HintRank(Bucket(a)) <= HintRank(Bucket(b))
  {
  }

  function HintRank(h: Hint): nat {
    match h
    case NotGreat => 0
    case ItsOkay => 1
    case Good => 2
    case Great => 3
    case Masterpiece => 4
  }

  // ---------------------------------------------------------------------------
  // The submit button

  function SubmitLabel(submitting: bool, currentUserVote: Option<int>): (r: string)
    ensures r == "Update Vote" <==> !submitting && InitialSelection(currentUserVote) != 0
    ensures r == "Submitting..." <==> submitting
  {
    if submitting then "Submitting..."
    else if currentUserVote.Some? && currentUserVote.value != 0 then "Update Vote"
    else "Submit Vote"
  }

  /** The button is disabled without a rating or during a submission. */
  predicate SubmitDisabled(st: ModalState) {
    st.selected == 0 || st.submitting
  }

  // ---------------------------------------------------------------------------
  // handleSubmit

  datatype VoteRecord = VoteRecord(id: string, rating: int)

  /** `music_votes`, keyed by (music id, user id). */
  type VoteStore = map<(string, string), VoteRecord>

  datatype SubmitResult =
    | Rejected(message: string)
    | Updated(store: VoteStore)
    | Inserted(store: VoteStore)

  /** `handleSubmit`: reject a missing rating, then a missing user, before
      touching the store; otherwise update the existing vote of that user on
      that music, keeping its id, or insert a new one under `newId`. */
  function Submit(st: ModalState, musicId: string, userId: Option<string>,
                  store: VoteStore, newId: string): (r: SubmitResult)
    ensures st.selected == 0 ==> r == Rejected("Please select a rating")
    ensures st.selected != 0 && userId.None? ==> r == Rejected("Please select a user first")
    ensures r.Rejected? <==> st.selected == 0 || userId.None?
    ensures !r.Rejected? ==>
      var key := (musicId, userId.value);
      && key in r.store && r.store[key].rating == st.selected
      && r.store.Keys == store.Keys + {key}
      && (forall k :: k in store && k != key ==> r.store[k] == store[k])
      && (r.Updated? <==> key in store)
      && (key in store ==> r.store[key].id == store[key].id)
  {
    if st.selected == 0 then Rejected("Please select a rating")
    else if userId.None? then Rejected("Please select a user first")
    else
      var key := (musicId, userId.value);
      if key in store then Updated(store[key := store[key].(rating := st.selected)])
      else Inserted(store[key := VoteRecord(newId, st.selected)])
  }

  /** Voting again replaces the earlier rating: two successful submits leave
      the store as one submit of the second rating would, with the id the
      first one gave. */
  lemma LastVoteWins(a: ModalState, b: ModalState, musicId: string, userId: string,
                     store: VoteStore, id1: string, id2: string)
    requires a.selected != 0 && b.selected != 0
    ensures var first := Submit(a, musicId, Some(userId), store, id1).store;
      Submit(b, musicId, Some(userId), first, id2).store
        == Submit(b, musicId, Some(userId), store, id1).store
  {
  }

  /** Each user holds at most one vote per piece of music, however many
      times they submit. */
  lemma OneVotePerUser(st: ModalState, musicId: string, userId: string, store: VoteStore, newId: string)
    requires st.selected != 0
    ensures |Submit(st, musicId, Some(userId), store, newId).store.Keys| <= |store.Keys| + 1
    ensures (musicId, userId) in store ==>
      |Submit(st, musicId, Some(userId), store, newId).store.Keys| == |store.Keys|
  {
    var key := (musicId, userId);
    if key in store {
      assert store.Keys + {key} == store.Keys;
    }
  }

  // ---------------------------------------------------------------------------
  // The votes list under the stars

  /** The "All Votes (n)" header: the number and the mean of the votes the
      dialog was given. */
  function VotesSummary(votes: seq<Rating.Vote>): (r: (nat, real))
    ensures r.0 == |votes|
    ensures |votes| == 0 ==> r.1 == 0.0
    ensures |votes| > 0 && Rating.RatingsWithin(votes, 1, 10) ==> 1.0 <= r.1 <= 10.0
  {
    if |votes| > 0 && Rating.RatingsWithin(votes, 1, 10) then
      Rating.MeanBounds(votes, 1, 10);
      (|votes|, Rating.Mean(votes))
    else (|votes|, Rating.Mean(votes))
  }

  /** As written: the page hands the dialog the `votes` of the selected row,
      which `fetchMusic` has already cut to the first four for the avatar
      strip. */
  function DialogVotesAsWritten(row: Rating.MusicRating): seq<Rating.Vote> {
    row.votes
  }

  /** With five votes 1, 1, 1, 1, 10 on one piece of music, the table shows a
      mean of 2.8 while the dialog reports four votes averaging 1.0. */
  lemma DialogAsWrittenDisagrees()
    ensures var music := [Rating.Music("m", "title", "artist", "link", None, None, None)];
      var rows := [FiveVotes(1), FiveVotes(1), FiveVotes(1), FiveVotes(1), FiveVotes(10)];
      var row := Rating.BuildRows(music, rows)[0];
      && row.avgRating == 2.8
      && |Rating.VotesFor(rows, "m")| == 5
      && VotesSummary(DialogVotesAsWritten(row)) == (4, 1.0)
  {
    var music := [Rating.Music("m", "title", "artist", "link", None, None, None)];
    var rows := [FiveVotes(1), FiveVotes(1), FiveVotes(1), FiveVotes(1), FiveVotes(10)];
    var votes := Rating.VotesFor(rows, "m");
    AllForOneMusic(rows, "m");
    assert Rating.SumRatings(votes[..1]) == 1;
    assert votes[..2][..1] == votes[..1];
    assert Rating.SumRatings(votes[..2]) == 2;
    assert votes[..3][..2] == votes[..2];
    assert Rating.SumRatings(votes[..3]) == 3;
    assert votes[..4][..3] == votes[..3];
    assert Rating.SumRatings(votes[..4]) == 4;
    assert votes[..4] == votes[..Min(Rating.MaxAvatars, 5)];
    assert votes[..5] == votes;
    assert Rating.SumRatings(votes) == 14;
    Rating.MeanOfEqualVotes(votes[..4], 1);
  }

  function FiveVotes(rating: int): Rating.VoteRow {
    Rating.VoteRow("vote", "m", "user", None, None, rating)
  }

  /** When every fetched vote is for one piece of music, that music's votes
      are all of them, in order. */
  lemma {:induction false} AllForOneMusic(rows: seq<Rating.VoteRow>, musicId: string)
    requires forall k :: 0 <= k < |rows| ==> rows[k].musicId == musicId
    ensures |Rating.VotesFor(rows, musicId)| == |rows|
    ensures forall k :: 0 <= k < |rows| ==> Rating.VotesFor(rows, musicId)[k] == Rating.ToVote(rows[k])
    decreases |rows|
  {
    if rows != [] {
      AllForOneMusic(rows[..|rows| - 1], musicId);
    }
  }

  /** Corrected: the dialog receives every vote of the music, as grouped by
      `fetchMusic`, and keeps the four-avatar cut for the table alone. */
  function DialogVotes(rows: seq<Rating.VoteRow>, musicId: string): (r: seq<Rating.Vote>)
    ensures r == Rating.VotesFor(rows, musicId)
  {
    Rating.GroupVotesIsFilter(rows, musicId);
    Rating.VotesOf(Rating.GroupVotes(rows), musicId)
  }

  /** With every vote at hand, the dialog's count is the number of votes cast
      and its mean is the one the table shows; the table's avatars are the
      first of the dialog's votes. */
  lemma DialogAgreesWithTable(music: seq<Rating.Music>, rows: seq<Rating.VoteRow>, i: nat)
    requires i < |music|
    ensures var row := Rating.BuildRows(music, rows)[i];
      var votes := DialogVotes(rows, music[i].id);
      && VotesSummary(votes) == (|Rating.VotesFor(rows, music[i].id)|, row.avgRating)
      && row.votes <= votes
  {
  }
}

/** The music rating page, src/pages/Rating.tsx: votes grouped under the music
    they rate, a mean rating per piece of music, at most four voter avatars
    per row, a case-insensitive search, 15 rows per page, and the `m:ss`
    rendering of play times. */
module Rating {
  import opened Strings
  import opened Paging

  // ---------------------------------------------------------------------------
  // Rows as fetched

  /** A row of `music_votes` joined with its voter; the join, the name and the
      avatar may each be missing. */
  datatype VoteRow = VoteRow(id: string, musicId: string, userId: string,
                             userName: Option<string>, userAvatar: Option<string>, rating: int)

  /** A vote as the page keeps it. */
  datatype Vote = Vote(id: string, userId: string, userName: string, userAvatar: string, rating: int)

  /** A row of `music`. */
  datatype Music = Music(id: string, title: string, artist: string, sourceType: string,
                         audioUrl: Option<string>, embedUrl: Option<string>, duration: Option<nat>)

  /** A row of the rating table. */
  datatype MusicRating = MusicRating(id: string, title: string, artist: string, avgRating: real,
                                     votes: seq<Vote>, sourceType: string,
                                     audioUrl: Option<string>, embedUrl: Option<string>, duration: nat)

  /** The bundled `person.png` shown for a voter without an avatar. */
  const DefaultAvatar: string := "person.png"

  /** `x || fallback` for an optional string: a missing or empty value falls back. */
  function OrElse(x: Option<string>, fallback: string): (r: string)
    ensures x.Some? && x.value != "" ==> r == x.value
    ensures x.None? || x.value == "" ==> r == fallback
  {
    if x.Some? && x.value != "" then x.value else fallback
  }

  function ToVote(row: VoteRow): Vote {
    Vote(row.id, row.userId, OrElse(row.userName, "Unknown"), OrElse(row.userAvatar, DefaultAvatar), row.rating)
  }

  // ---------------------------------------------------------------------------
  // Grouping

  /** The reference: the votes cast for `musicId`, in fetch order. */
  function VotesFor(rows: seq<VoteRow>, musicId: string): seq<Vote>
    decreases |rows|
  {
    if rows == [] then []
    else
      var last := rows[|rows| - 1];
      VotesFor(rows[..|rows| - 1], musicId) + (if last.musicId == musicId then [ToVote(last)] else [])
  }

  /** The `forEach` that builds `votesByMusic`: each vote is pushed onto the
      list of its music id, created on first use. */
  function GroupVotes(rows: seq<VoteRow>): map<string, seq<Vote>>
    decreases |rows|
  {
    if rows == [] then map[]
    else
      var g := GroupVotes(rows[..|rows| - 1]);
      var last := rows[|rows| - 1];
      g[last.musicId := (if last.musicId in g then g[last.musicId] else []) + [ToVote(last)]]
  }

  /** `votesByMusic[id] || []`. */
  function VotesOf(g: map<string, seq<Vote>>, musicId: string): seq<Vote> {
    if musicId in g then g[musicId] else []
  }

  /** Grouping loses, adds and reorders nothing: the list under an id holds
      exactly that id's votes in fetch order, and only ids that received a
      vote get a list. */
  lemma {:induction false} GroupVotesIsFilter(rows: seq<VoteRow>, musicId: string)
    ensures musicId in GroupVotes(rows) <==> VotesFor(rows, musicId) != []
    ensures VotesOf(GroupVotes(rows), musicId) == VotesFor(rows, musicId)
    decreases |rows|
  {
    if rows != [] {
      GroupVotesIsFilter(rows[..|rows| - 1], musicId);
    }
  }

  // ---------------------------------------------------------------------------
  // Averages

  function SumRatings(votes: seq<Vote>): int
    decreases |votes|
  {
    if votes == [] then 0 else SumRatings(votes[..|votes| - 1]) + votes[|votes| - 1].rating
  }

  /** The mean rating, 0 without votes. */
  function Mean(votes: seq<Vote>): real {
    if |votes| > 0 then SumRatings(votes) as real / |votes| as real else 0.0
  }

  predicate RatingsWithin(votes: seq<Vote>, lo: int, hi: int) {
    forall k :: 0 <= k < |votes| ==> lo <= votes[k].rating <= hi
  }

  lemma {:induction false} SumBounds(votes: seq<Vote>, lo: int, hi: int)
    requires RatingsWithin(votes, lo, hi)
    ensures |votes| * lo <= SumRatings(votes) <= |votes| * hi
    decreases |votes|
  {
    if votes != [] {
      SumBounds(votes[..|votes| - 1], lo, hi);
    }
  }

  /** A mean lies between the smallest and the largest possible rating. */
  lemma MeanBounds(votes: seq<Vote>, lo: int, hi: int)
    requires |votes| > 0 && RatingsWithin(votes, lo, hi)
    ensures lo as real <= Mean(votes) <= hi as real
  {
    SumBounds(votes, lo, hi);
    var n := |votes| as real;
    assert n * lo as real <= SumRatings(votes) as real <= n * hi as real;
    QuotientBetween(SumRatings(votes) as real, n, lo as real, hi as real);
  }

  /** Dividing bounds `n·a <= s <= n·b` by a positive `n`. */
  lemma QuotientBetween(s: real, n: real, a: real, b: real)
    requires n > 0.0 && n * a <= s <= n * b
    ensures a <= s / n <= b
  {
    var q := s / n;
    assert q * n == s;
    assert (q - a) * n == s - n * a;
    assert (b - q) * n == n * b - s;
  }

  /** Votes that all agree have that rating as their mean. */
  lemma MeanOfEqualVotes(votes: seq<Vote>, v: int)
    requires |votes| > 0 && RatingsWithin(votes, v, v)
    ensures Mean(votes) == v as real
  {
    MeanBounds(votes, v, v);
  }

  // ---------------------------------------------------------------------------
  // The table rows

  const MaxAvatars: nat := 4

  function ToRow(m: Music, votes: seq<Vote>): MusicRating {
    MusicRating(m.id, m.title, m.artist, Mean(votes), Slice(votes, 0, MaxAvatars), m.sourceType,
                m.audioUrl, m.embedUrl, if m.duration.Some? then m.duration.value else 0)
  }

  /** `fetchMusic`: one row per fetched piece of music, in fetch order, with
      the mean over all of its votes and the first four of them. */
  function BuildRows(music: seq<Music>, rows: seq<VoteRow>): (r: seq<MusicRating>)
    ensures |r| == |music|
    ensures forall i :: 0 <= i < |music| ==>
      && r[i].id == music[i].id && r[i].title == music[i].title && r[i].artist == music[i].artist
      && r[i].avgRating == Mean(VotesFor(rows, music[i].id))
      && r[i].votes == VotesFor(rows, music[i].id)[..Min(MaxAvatars, |VotesFor(rows, music[i].id)|)]
  {
    var g := GroupVotes(rows);
    var r := seq(|music|, i requires 0 <= i < |music| => ToRow(music[i], VotesOf(g, music[i].id)));
    forall i | 0 <= i < |music|
      ensures r[i].avgRating == Mean(VotesFor(rows, music[i].id))
      ensures r[i].votes == VotesFor(rows, music[i].id)[..Min(MaxAvatars, |VotesFor(rows, music[i].id)|)]
    {
      GroupVotesIsFilter(rows, music[i].id);
      SlicePrefix(VotesFor(rows, music[i].id), MaxAvatars);
    }
    r
  }

  /** A piece of music nobody voted for shows a zero average and no avatars. */
  lemma NoVotesRow(music: seq<Music>, rows: seq<VoteRow>, i: nat)
    requires i < |music|
    requires forall k :: 0 <= k < |rows| ==> rows[k].musicId != music[i].id
    ensures BuildRows(music, rows)[i].avgRating == 0.0
    ensures BuildRows(music, rows)[i].votes == []
  {
    NoVotesFor(rows, music[i].id);
  }

  lemma {:induction false} NoVotesFor(rows: seq<VoteRow>, musicId: string)
    requires forall k :: 0 <= k < |rows| ==> rows[k].musicId != musicId
    ensures VotesFor(rows, musicId) == []
    decreases |rows|
  {
    if rows != [] {
      NoVotesFor(rows[..|rows| - 1], musicId);
    }
  }

  // ---------------------------------------------------------------------------
  // Search

  predicate MatchesQuery(m: MusicRating, query: string) {
    Includes(Lower(m.title), Lower(query)) || Includes(Lower(m.artist), Lower(query))
  }

  /** `filteredMusic`. */
  function FilterMusic(list: seq<MusicRating>, query: string): (r: seq<MusicRating>)
    ensures |r| <= |list|
    ensures forall k :: 0 <= k < |r| ==> r[k] in list && MatchesQuery(r[k], query)
    ensures forall m :: m in list && MatchesQuery(m, query) ==> m in r
    decreases |list|
  {
    if list == [] then []
    else
      var rest := FilterMusic(list[1..], query);
      if MatchesQuery(list[0], query) then [list[0]] + rest else rest
  }

  /** The search keeps each matching row as often as the list holds it and
      drops every other row. */
  lemma {:induction false} FilterMusicCounts(list: seq<MusicRating>, query: string)
    ensures forall m :: multiset(FilterMusic(list, query))[m] ==
                        if MatchesQuery(m, query) then multiset(list)[m] else 0
    decreases |list|
  {
    if list != [] {
      FilterMusicCounts(list[1..], query);
      assert list == [list[0]] + list[1..];
    }
  }

  /** The search keeps the list's order: it filters the two halves of a
      list separately, and a single row stays exactly when it matches. */
  lemma {:induction false} FilterMusicAppend(a: seq<MusicRating>, b: seq<MusicRating>, query: string)
    ensures FilterMusic(a + b, query) == FilterMusic(a, query) + FilterMusic(b, query)
    ensures forall m :: FilterMusic([m], query) == if MatchesQuery(m, query) then [m] else []
    decreases |a|
  {
    if a != [] {
      assert (a + b)[1..] == a[1..] + b;
      FilterMusicAppend(a[1..], b, query);
    } else {
      assert a + b == b;
    }
  }

  /** An empty search keeps every row, in order. */
  lemma {:induction false} EmptyQueryKeepsAll(list: seq<MusicRating>)
    ensures FilterMusic(list, "") == list
    decreases |list|
  {
    if list != [] {
      IncludesEmpty(Lower(list[0].title));
      EmptyQueryKeepsAll(list[1..]);
    }
  }

  /** The search is blind to ASCII case: a query and its lower-case form
      select the same rows. */
  lemma {:induction false} QueryCaseInsensitive(list: seq<MusicRating>, query: string)
    ensures FilterMusic(list, query) == FilterMusic(list, Lower(query))
    decreases |list|
  {
    LowerIdempotent(query);
    if list != [] {
      QueryCaseInsensitive(list[1..], query);
    }
  }

  lemma LowerIdempotent(s: string)
    ensures Lower(Lower(s)) == Lower(s)
  {
  }

  // ---------------------------------------------------------------------------
  // Pages

  const MusicPerPage: nat := 15

  /** `currentMusic`. */
  function CurrentMusic(filtered: seq<MusicRating>, page: int): seq<MusicRating> {
    PageItems(filtered, page, MusicPerPage)
  }

  /** Page `p` of the table shows rows `[(p-1)·15, min(n, p·15))`, and the
      pages `1..⌈n/15⌉` together show every row once, in order. */
  lemma RatingPages(filtered: seq<MusicRating>, page: int)
    requires page >= 1
    ensures CurrentMusic(filtered, page) == filtered[Min((page - 1) * 15, |filtered|)..Min(page * 15, |filtered|)]
    ensures AllPages(filtered, MusicPerPage) == filtered
  {
    PageContents(filtered, page, MusicPerPage);
    PagesConcatenate(filtered, MusicPerPage);
  }

  /** The page state: the search query and the page number. */
  datatype View = View(query: string, page: int)

  /** Typing in the search box goes back to page 1. */
  function SetQuery(v: View, query: string): (r: View)
    ensures r.query == query && r.page == 1
  {
    View(query, 1)
  }

  /** Adding music reloads the list and goes back to page 1. */
  function AfterMusicAdded(v: View): (r: View)
    ensures r.query == v.query && r.page == 1
  {
    v.(page := 1)
  }

  /** After a new search the table shows the first 15 matches. */
  lemma NewSearchShowsFirstMatches(v: View, query: string, list: seq<MusicRating>)
    ensures CurrentMusic(FilterMusic(list, SetQuery(v, query).query), SetQuery(v, query).page)
      == FilterMusic(list, query)[..Min(15, |FilterMusic(list, query)|)]
  {
    PageContents(FilterMusic(list, query), 1, MusicPerPage);
  }

  // ---------------------------------------------------------------------------
  // formatTime

  /** JavaScript's `%`, whose result takes the sign of the dividend. */
  function JsRem(a: int, b: nat): (r: int)
    requires b > 0
    ensures a >= 0 ==> 0 <= r < b
    ensures a < 0 ==> -(b as int) < r <= 0
  {
    if a >= 0 then a % b else -((-a) % b)
  }

  /** `formatTime` for a whole number of seconds. */
  function FormatTime(seconds: int): string {
    IntToString(seconds / 60) + ":" + PadStart(IntToString(JsRem(seconds, 60)), 2, '0')
  }

  /** For non-negative input, `m:ss` with the seconds as two digits below 60. */
  lemma FormatTimeShape(seconds: nat)
    ensures FormatTime(seconds) ==
      NatToString(seconds / 60) + ":" + [DigitChar(seconds % 60 / 10), DigitChar(seconds % 60 % 10)]
  {
    var s := seconds % 60;
    if s < 10 {
      assert NatToString(s) == [DigitChar(s)];
      assert PadStart(NatToString(s), 2, '0') == "0" + [DigitChar(s)];
      assert DigitChar(0) == '0';
    } else {
      assert NatToString(s) == NatToString(s / 10) + [DigitChar(s % 10)];
      assert NatToString(s / 10) == [DigitChar(s / 10)];
    }
  }

  /** Reading an `m:ss` text back as minutes and seconds. */
  function ParseTime(t: string): int
    requires |t| >= 3 && AllDigits(t[..|t| - 3]) && AllDigits(t[|t| - 2..])
  {
    ParseNat(t[..|t| - 3]) * 60 + ParseNat(t[|t| - 2..])
  }

  /** The rendering loses nothing: minutes and seconds read back give the
      original number of seconds. */
  lemma FormatTimeRoundTrip(seconds: nat)
    ensures var t := FormatTime(seconds);
      |t| >= 3 && AllDigits(t[..|t| - 3]) && AllDigits(t[|t| - 2..]) && ParseTime(t) == seconds
  {
    FormatTimeShape(seconds);
    var m := NatToString(seconds / 60);
    var s := seconds % 60;
    var d := [DigitChar(s / 10), DigitChar(s % 10)];
    var t := m + ":" + d;
    assert t[..|t| - 3] == m;
    assert t[|t| - 2..] == d;
    ParseNatToString(seconds / 60);
    assert d[..1] == [DigitChar(s / 10)];
    assert DigitValue(d[0]) == s / 10 && DigitValue(d[1]) == s % 10;
    assert ParseNat(d[..1]) == s / 10;
    assert ParseNat(d) == s;
  }

  /** A negative input, which only a corrupt duration can produce, renders
      with JavaScript's signed remainder, e.g. -5 as `-1:-5`. */
  lemma FormatTimeNegative()
    ensures FormatTime(-5) == "-1:-5"
  {
    assert NatToString(1) == "1";
    assert NatToString(5) == "5";
  }
}

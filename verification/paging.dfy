/** The pagination every list page uses (Rating, Gallery, Waifu, ChangeUser):
    `totalPages = Math.ceil(n / perPage)`, page `p` shows
    `items.slice((p - 1) * perPage, (p - 1) * perPage + perPage)`, and the
    Previous / Next buttons are disabled on the first / last page. */
module Paging {
  import opened Strings

  /** `Math.ceil(n / perPage)`, characterised as the least page count whose
      pages hold all `n` items. */
  function TotalPages(n: nat, perPage: nat): (r: nat)
    requires perPage > 0
    ensures r * perPage >= n
    ensures r == 0 || (r - 1) * perPage < n
    ensures r == 0 <==> n == 0
  {
    (n + perPage - 1) / perPage
  }

  /** The items shown on page `page` (which the source never checks). */
  function PageItems<T>(items: seq<T>, page: int, perPage: nat): seq<T> {
    var start := (page - 1) * perPage;
    Slice(items, start, start + perPage)
  }

  /** Page `p` (counting from 1) shows items `[(p-1)·perPage, min(n, p·perPage))`. */
  lemma PageContents<T>(items: seq<T>, page: int, perPage: nat)
    requires page >= 1
    ensures PageItems(items, page, perPage)
      == items[Min((page - 1) * perPage, |items|)..Min(page * perPage, |items|)]
  {
    var start := (page - 1) * perPage;
    MulStep(page - 1, perPage);
    SliceNonNegative(items, start, start + perPage);
  }

  /** Pages `1..totalPages` are exactly the non-empty ones. */
  lemma PagesNonEmpty<T>(items: seq<T>, page: int, perPage: nat)
    requires perPage > 0 && page >= 1
    ensures PageItems(items, page, perPage) != [] <==> page <= TotalPages(|items|, perPage)
  {
    PageContents(items, page, perPage);
    PageStart(|items|, perPage, page);
  }

  /** Pages `from, from + 1, …` laid end to end, `start` being where page
      `from` starts; it stops at the first page that starts past the end,
      which is page `totalPages + 1` (see `PageStart`). */
  function PagesFrom<T>(items: seq<T>, perPage: nat, from: nat, start: nat): seq<T>
    requires perPage > 0 && from >= 1 && start == (from - 1) * perPage
    decreases |items| - start
  {
    if start >= |items| then []
    else
      MulStep(from - 1, perPage);
      PageItems(items, from, perPage) + PagesFrom(items, perPage, from + 1, start + perPage)
  }

  /** Every page, first to last. */
  function AllPages<T>(items: seq<T>, perPage: nat): seq<T>
    requires perPage > 0
  {
    PagesFrom(items, perPage, 1, 0)
  }

  /** Where page `page` starts, relative to the end of the list. */
  lemma PageStart(n: nat, perPage: nat, page: nat)
    requires perPage > 0 && page >= 1
    ensures page <= TotalPages(n, perPage) ==> (page - 1) * perPage < n
    ensures page > TotalPages(n, perPage) ==> (page - 1) * perPage >= n
    ensures page * perPage == (page - 1) * perPage + perPage
  {
    var t := TotalPages(n, perPage);
    if page <= t {
      MulMonotone(page - 1, t - 1, perPage);
    } else {
      MulMonotone(t, page - 1, perPage);
    }
    MulStep(page - 1, perPage);
  }

  /** One more page is `perPage` more items, and a page never starts before 0. */
  lemma MulStep(a: nat, c: nat)
    ensures (a + 1) * c == a * c + c
    ensures a * c >= 0
  {
  }

  lemma MulMonotone(a: nat, b: nat, c: nat)
    requires a <= b
    ensures a * c <= b * c
  {
  }

  lemma {:induction false} PagesFromSuffix<T>(items: seq<T>, perPage: nat, from: nat, start: nat)
    requires perPage > 0 && from >= 1 && start == (from - 1) * perPage
    ensures PagesFrom(items, perPage, from, start) == items[Min(start, |items|)..]
    decreases |items| - start
  {
    if start < |items| {
      MulStep(from - 1, perPage);
      var page, rest := PageItems(items, from, perPage), PagesFrom(items, perPage, from + 1, start + perPage);
      PageFrom(items, from, perPage, start);
      PagesFromSuffix(items, perPage, from + 1, start + perPage);
      Glue(items, start, start + perPage, page, rest);
    }
  }

  /** The slice of page `page`, given where it starts. */
  lemma PageFrom<T>(items: seq<T>, page: int, perPage: nat, start: nat)
    requires start == (page - 1) * perPage && start <= |items|
    ensures PageItems(items, page, perPage) == items[start..Min(start + perPage, |items|)]
  {
    SliceNonNegative(items, start, start + perPage);
  }

  lemma Glue<T>(items: seq<T>, a: nat, b: nat, x: seq<T>, y: seq<T>)
    requires a <= b && a <= |items|
    requires x == items[a..Min(b, |items|)] && y == items[Min(b, |items|)..]
    ensures x + y == items[a..]
  {
  }

  /** Paging loses and repeats nothing: pages `1..totalPages` concatenate to
      the whole list. */
  lemma PagesConcatenate<T>(items: seq<T>, perPage: nat)
    requires perPage > 0
    ensures AllPages(items, perPage) == items
  {
    PagesFromSuffix(items, perPage, 1, 0);
  }

  /** Previous: disabled on page 1; `clamp` adds the `Math.max(1, p - 1)` some pages use. */
  function PrevClick(page: int, clamp: bool): int {
    if page == 1 then page
    else if clamp then (if page - 1 < 1 then 1 else page - 1)
    else page - 1
  }

  /** Next: disabled on the last page; `clamp` adds `Math.min(totalPages, p + 1)`. */
  function NextClick(page: int, totalPages: nat, clamp: bool): int {
    if page == totalPages then page
    else if clamp then (if totalPages < page + 1 then totalPages else page + 1)
    else page + 1
  }

  /** From a page in range, Previous and Next land on a page in range, one step away
      unless the button was disabled. */
  lemma ClicksStayInRange(page: int, totalPages: nat, clamp: bool)
    requires 1 <= page <= totalPages
    ensures 1 <= PrevClick(page, clamp) <= totalPages
    ensures 1 <= NextClick(page, totalPages, clamp) <= totalPages
    ensures PrevClick(page, clamp) == if page == 1 then 1 else page - 1
    ensures NextClick(page, totalPages, clamp) == if page == totalPages then page else page + 1
  {
  }

  /** The clamps alone bound the page, whatever the current page: Previous
      never goes below 1 and Next never above `totalPages`; without them a
      page outside the range walks further out. */
  lemma ClampsBound(page: int, totalPages: nat)
    ensures PrevClick(page, true) >= 1
    ensures NextClick(page, totalPages, true) <= totalPages
    ensures page < 1 ==> PrevClick(page, false) < 1
  {
  }
}

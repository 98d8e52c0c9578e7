/** The member picker of src/components/ChangeUser.tsx, reduced to its
    paging: twelve members a page (three columns of four rows) with clamped
    Previous/Next. */
module ChangeUser {
  import opened Strings
  import opened Paging

  datatype User = User(id: string, name: string, role: string, avatar: string)

  const UsersPerPage: nat := 12

  function CurrentUsers(users: seq<User>, page: int): seq<User> {
    PageItems(users, page, UsersPerPage)
  }

  /** Page `p` shows users `[(p-1)·12, p·12)`, it is non-empty exactly for
      `p` in `1..⌈n/12⌉`, and the pages together show every user once. */
  lemma ChangeUserPages(users: seq<User>, page: int)
    requires page >= 1
    ensures CurrentUsers(users, page) == users[Min((page - 1) * 12, |users|)..Min(page * 12, |users|)]
    ensures CurrentUsers(users, page) != [] <==> page <= TotalPages(|users|, UsersPerPage)
    ensures AllPages(users, UsersPerPage) == users
  {
    PageContents(users, page, UsersPerPage);
    PagesNonEmpty(users, page, UsersPerPage);
    PagesConcatenate(users, UsersPerPage);
  }

  /** `Math.max(1, p - 1)` and `Math.min(totalPages, p + 1)`: from any page,
      Previous never goes below 1 and Next never above the last page. */
  lemma ChangeUserClicks(users: seq<User>, page: int)
    ensures PrevClick(page, true) >= 1
    ensures NextClick(page, TotalPages(|users|, UsersPerPage), true) <= TotalPages(|users|, UsersPerPage)
  {
    ClampsBound(page, TotalPages(|users|, UsersPerPage));
  }
}

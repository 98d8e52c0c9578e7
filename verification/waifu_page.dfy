/** The member list of src/pages/Waifu.tsx: five members a page with clamped
    Previous/Next, an "add" card for every member with a free slot, and the
    dialog opened either to add (no waifu being edited) or to edit. */
module WaifuPage {
  import opened Strings
  import opened Paging

  datatype WaifuItem = WaifuItem(id: string, name: string, role: string, image: string)

  datatype Member = Member(id: string, name: string, role: string, avatar: string,
                           waifus: seq<WaifuItem>, maxWaifus: int)

  const MembersPerPage: nat := 5

  /** The add card appears under a member whose claimed waifus are fewer than the maximum. */
  predicate ShowsAddCard(m: Member) {
    |m.waifus| < m.maxWaifus
  }

  /** The "n slots left" line of the add card. */
  function SlotsLeft(m: Member): (r: int)
    ensures r + |m.waifus| == m.maxWaifus
    ensures ShowsAddCard(m) <==> r >= 1
  {
    m.maxWaifus - |m.waifus|
  }

  function CurrentMembers(members: seq<Member>, page: int): seq<Member> {
    PageItems(members, page, MembersPerPage)
  }

  /** Page `p` shows members `[(p-1)·5, p·5)`, the pages together show every
      member once, and Previous/Next stay within `1..totalPages` from any page. */
  lemma WaifuPages(members: seq<Member>, page: int)
    requires page >= 1
    ensures CurrentMembers(members, page) == members[Min((page - 1) * 5, |members|)..Min(page * 5, |members|)]
    ensures AllPages(members, MembersPerPage) == members
    ensures PrevClick(page, true) >= 1
    ensures NextClick(page, TotalPages(|members|, MembersPerPage), true) <= TotalPages(|members|, MembersPerPage)
  {
    PageContents(members, page, MembersPerPage);
    PagesConcatenate(members, MembersPerPage);
    ClampsBound(page, TotalPages(|members|, MembersPerPage));
  }

  /** The page's own state: current page, dialog open, the member picked and
      the (member, waifu) being edited, if any. */
  datatype PageState = PageState(page: int, modalOpen: bool, selectedMember: Option<string>,
                                 editing: Option<(string, string)>)

  const Start: PageState := PageState(1, false, None, None)

  datatype Event =
    | AddClicked(memberId: string)
    | EditClicked(memberId: string, waifuId: string)
    | ModalClosed
    | PrevPage
    | NextPage
    | PageClicked(page: int)

  /** The dialog's `editMode` flag: `!!editingWaifu`. */
  predicate EditMode(s: PageState) {
    s.editing.Some?
  }

  /** One handler of the page, with `totalPages` fixed by the member list. */
  function Step(s: PageState, e: Event, totalPages: nat): (r: PageState)
    ensures e.AddClicked? ==> r.modalOpen && r.selectedMember == Some(e.memberId) && !EditMode(r)
    ensures e.EditClicked? ==> r.modalOpen && r.selectedMember == Some(e.memberId) && r.editing == Some((e.memberId, e.waifuId))
    ensures !e.AddClicked? && !e.EditClicked? ==> r.editing == s.editing && r.selectedMember == s.selectedMember
    ensures e.ModalClosed? ==> !r.modalOpen
  {
    match e
    case AddClicked(m) => s.(selectedMember := Some(m), editing := None, modalOpen := true)
    case EditClicked(m, w) => s.(selectedMember := Some(m), editing := Some((m, w)), modalOpen := true)
    case ModalClosed => s.(modalOpen := false)
    case PrevPage => s.(page := if s.page - 1 < 1 then 1 else s.page - 1)
    case NextPage => s.(page := if totalPages < s.page + 1 then totalPages else s.page + 1)
    case PageClicked(p) => s.(page := p)
  }

  /** The state after a run of events, applied first to last. */
  function Run(s: PageState, events: seq<Event>, totalPages: nat): PageState
    decreases |events|
  {
    if events == [] then s
    else Step(Run(s, events[..|events| - 1], totalPages), events[|events| - 1], totalPages)
  }

  /** The last event that opened the dialog, if any. */
  function LastOpening(events: seq<Event>): (r: Option<Event>)
    ensures r.Some? ==> r.value in events && (r.value.AddClicked? || r.value.EditClicked?)
    decreases |events|
  {
    if events == [] then None
    else
      var e := events[|events| - 1];
      if e.AddClicked? || e.EditClicked? then Some(e)
      else LastOpening(events[..|events| - 1])
  }

  /** The dialog is in edit mode iff it was last opened by clicking a waifu;
      before any opening, the flag is whatever it started as. */
  lemma {:induction false} EditModeIffLastOpenedForEdit(s: PageState, events: seq<Event>, totalPages: nat)
    ensures EditMode(Run(s, events, totalPages)) <==>
              match LastOpening(events)
              case None => EditMode(s)
              case Some(e) => e.EditClicked?
    decreases |events|
  {
    if events != [] {
      EditModeIffLastOpenedForEdit(s, events[..|events| - 1], totalPages);
    }
  }

  /** Prev/Next handlers keep the page within `1..totalPages` once it is there. */
  lemma PagingStepsStayInRange(s: PageState, e: Event, totalPages: nat)
    requires 1 <= s.page <= totalPages
    requires !e.PageClicked? || 1 <= e.page <= totalPages
    ensures 1 <= Step(s, e, totalPages).page <= totalPages
  {
  }
}

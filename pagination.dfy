/** The pagination logic both listing pages share: the state a page keeps
    (`currentPage`, `totalPages`, `events`), what a completed fetch does to it
    (the clamp rule followed by the commit), which fetch each change triggers,
    and the row of page-number buttons. Each fetch is one atomic transition
    that uses the state it was issued from. */
module Pagination {

  datatype PageState<T> = PageState(currentPage: int, totalPages: int, events: seq<T>)

  /** The outcome of `GET ...?page=N`: the body's `last_page` and `data`, or
      any failure (which the page only logs). */
  datatype FetchResponse<T> = Fetched(lastPage: int, data: seq<T>) | FetchFailed

  /** What a handler leaves for the page to do next: nothing, or issue a fetch
      of the given page. */
  datatype Effect = NoFetch | FetchPage(page: int)

  datatype PageButton = PageButton(page: int, highlighted: bool)

  function Min(a: int, b: int): int { if a <= b then a else b }

  /** The user is looking at the last page the server reported. */
  predicate OnLastPage<T>(s: PageState<T>) { s.currentPage == s.totalPages }

  /** The range both pages would like to keep: a page that exists. */
  predicate InRange<T>(s: PageState<T>) { 1 <= s.currentPage <= s.totalPages }

  /** The state both pages start from. */
  function Initial<T>(): (s: PageState<T>)
    ensures s.currentPage == 1 && s.totalPages == 1 && s.events == []
    ensures InRange(s) && OnLastPage(s)
  {
    PageState(1, 1, [])
  }

  /** The fetch issued when a page mounts: the effect keyed on `currentPage`
      runs once on mount, so the listing first arrives from a fetch of the
      initial page, page 1. */
  function FirstFetch(): (e: Effect)
    ensures e.FetchPage? && e.page == 1
    ensures e.page == Initial<int>().currentPage
  {
    FetchPage(Initial<int>().currentPage)
  }

  /** The clamp guard: the server now reports fewer pages and the user was on
      the last one. */
  predicate ShouldClamp<T>(s: PageState<T>, lastPage: int)
  {
    lastPage < s.totalPages && s.currentPage == s.totalPages
  }

  /** The state after a fetch issued from `s` completes. */
  function AfterFetch<T>(s: PageState<T>, response: FetchResponse<T>): (s': PageState<T>)
    ensures response.FetchFailed? ==> s' == s
    ensures response.Fetched? ==> s'.totalPages == response.lastPage && s'.events == response.data
    ensures response.Fetched? && OnLastPage(s) ==> s'.currentPage == Min(s.totalPages, response.lastPage)
    ensures response.Fetched? && !OnLastPage(s) ==> s'.currentPage == s.currentPage
  {
    match response
    case FetchFailed => s
    case Fetched(lastPage, data) =>
      var page := if ShouldClamp(s, lastPage) then lastPage else s.currentPage;
      PageState(page, lastPage, data)
  }

  /** The fetch a completed fetch triggers: changing `currentPage` re-runs the
      page's fetch effect, and only the clamp changes it. */
  function FollowUp<T>(s: PageState<T>, response: FetchResponse<T>): (e: Effect)
    ensures e.FetchPage? ==> e.page == AfterFetch(s, response).currentPage && e.page < s.currentPage
    ensures e.NoFetch? ==> AfterFetch(s, response).currentPage == s.currentPage
  {
    if response.Fetched? && ShouldClamp(s, response.lastPage) then FetchPage(response.lastPage) else NoFetch
  }

  /** The fetch a page change triggers: React skips the effect when the page
      is set to the value it already has. */
  function PageChangeEffect(oldPage: int, page: int): (e: Effect)
    ensures e.FetchPage? <==> oldPage != page
    ensures e.FetchPage? ==> e.page == page
  {
    if page != oldPage then FetchPage(page) else NoFetch
  }

  /** The page numbers `Array.from({ length: totalPages }, (_, i) => i + 1)`
      yields; a length that is not positive gives no pages. */
  function PageNumbers(totalPages: int): (pages: seq<int>)
    ensures |pages| == if totalPages > 0 then totalPages else 0
    ensures forall i :: 0 <= i < |pages| ==> pages[i] == i + 1
    ensures forall p :: p in pages ==> 1 <= p <= totalPages
  {
    seq(if totalPages > 0 then totalPages else 0, i => i + 1)
  }

  /** One button per page number, highlighted when it is the current page. */
  function PageButtons(currentPage: int, totalPages: int): (buttons: seq<PageButton>)
    ensures |buttons| == |PageNumbers(totalPages)|
    ensures forall i :: 0 <= i < |buttons| ==> buttons[i].page == PageNumbers(totalPages)[i]
    ensures forall i :: 0 <= i < |buttons| ==> (buttons[i].highlighted <==> buttons[i].page == currentPage)
  {
    var pages := PageNumbers(totalPages);
    seq(|pages|, i requires 0 <= i < |pages| => PageButton(pages[i], pages[i] == currentPage))
  }

  /** How many buttons are highlighted. */
  function HighlightedCount(buttons: seq<PageButton>): nat
  {
    if buttons == [] then 0
    else HighlightedCount(buttons[..|buttons| - 1]) + (if buttons[|buttons| - 1].highlighted then 1 else 0)
  }

  /** Exactly one button is highlighted when the current page exists, and none
      otherwise. */
  lemma {:induction false} OneHighlightedIffInRange(currentPage: int, totalPages: int)
    ensures HighlightedCount(PageButtons(currentPage, totalPages)) == if 1 <= currentPage <= totalPages then 1 else 0
  {
    if totalPages > 0 {
      var buttons := PageButtons(currentPage, totalPages);
      var shorter := PageButtons(currentPage, totalPages - 1);
      assert buttons[..|buttons| - 1] == shorter;
      OneHighlightedIffInRange(currentPage, totalPages - 1);
    }
  }

  /** A user action or a fetch completion, as one step of a page's history. */
  datatype Input<T> = SelectPage(page: int) | FetchCompleted(response: FetchResponse<T>)

  function Step<T>(s: PageState<T>, input: Input<T>): PageState<T>
  {
    match input
    case SelectPage(page) => s.(currentPage := page)
    case FetchCompleted(response) => AfterFetch(s, response)
  }

  function Run<T>(s: PageState<T>, inputs: seq<Input<T>>): PageState<T>
    decreases |inputs|
  {
    if inputs == [] then s else Run(Step(s, inputs[0]), inputs[1..])
  }

  /** Inputs the page can meet in practice: a page selected by clicking one of
      the rendered buttons, and a server that reports at least one page. */
  predicate Admissible<T>(s: PageState<T>, input: Input<T>)
  {
    match input
    case SelectPage(page) => page in PageNumbers(s.totalPages)
    case FetchCompleted(response) => response.Fetched? ==> response.lastPage >= 1
  }

  predicate AdmissibleRun<T>(s: PageState<T>, inputs: seq<Input<T>>)
    decreases |inputs|
  {
    inputs == [] || (Admissible(s, inputs[0]) && AdmissibleRun(Step(s, inputs[0]), inputs[1..]))
  }

  /** Selecting a rendered button always lands on an existing page. */
  lemma SelectedPageInRange<T>(s: PageState<T>, page: int)
    requires Admissible(s, SelectPage(page))
    ensures InRange(Step(s, SelectPage(page)))
  {
  }

  /** The lower bound the code does keep: the current page never drops below
      1 while the server reports at least one page. */
  lemma {:induction false} CurrentPageStaysPositive<T>(s: PageState<T>, inputs: seq<Input<T>>)
    requires 1 <= s.currentPage
    requires AdmissibleRun(s, inputs)
    ensures 1 <= Run(s, inputs).currentPage
    decreases |inputs|
  {
    if inputs != [] {
      CurrentPageStaysPositive(Step(s, inputs[0]), inputs[1..]);
    }
  }

  /** Only fetch completions, each reporting no more pages than the page
      currently knows of: the listing shrinks or stays the same size. */
  predicate ShrinkingRun<T>(s: PageState<T>, inputs: seq<Input<T>>)
    decreases |inputs|
  {
    inputs == []
    || (&& inputs[0].FetchCompleted?
        && (inputs[0].response.Fetched? ==> inputs[0].response.lastPage <= s.totalPages)
        && ShrinkingRun(Step(s, inputs[0]), inputs[1..]))
  }

  /** A user on the last page stays on the last page while the listing only
      shrinks: a stale trailing page is never shown. */
  lemma {:induction false} LastPageFollowsShrinkage<T>(s: PageState<T>, inputs: seq<Input<T>>)
    requires OnLastPage(s)
    requires ShrinkingRun(s, inputs)
    ensures OnLastPage(Run(s, inputs))
    ensures Run(s, inputs).currentPage <= s.currentPage
    decreases |inputs|
  {
    if inputs != [] {
      LastPageFollowsShrinkage(Step(s, inputs[0]), inputs[1..]);
    }
  }

  /** After a clamp, the follow-up fetch of the new last page settles: if the
      server still reports the same number of pages, nothing is clamped again. */
  lemma ClampSettles<T>(s: PageState<T>, lastPage: int, data: seq<T>, again: seq<T>)
    requires ShouldClamp(s, lastPage)
    ensures FollowUp(s, Fetched(lastPage, data)) == FetchPage(lastPage)
    ensures OnLastPage(AfterFetch(s, Fetched(lastPage, data)))
    ensures FollowUp(AfterFetch(s, Fetched(lastPage, data)), Fetched(lastPage, again)) == NoFetch
  {
  }

  /** The code does not keep `1 <= currentPage <= totalPages`: a user on a
      middle page that no longer exists stays on it, even when the server
      reports at least one page. */
  lemma InRangeNotPreserved()
    ensures exists s: PageState<int>, r: FetchResponse<int> ::
      InRange(s) && Admissible(s, FetchCompleted(r)) && !InRange(AfterFetch(s, r))
  {
    var s: PageState<int> := PageState(2, 3, []);
    var r: FetchResponse<int> := Fetched(1, []);
    assert InRange(s) && Admissible(s, FetchCompleted(r)) && !InRange(AfterFetch(s, r));
  }

  /** An empty listing (`last_page` 0) seen from the last page moves the user
      to page 0. */
  lemma EmptyListingGivesPageZero<T>(s: PageState<T>)
    requires OnLastPage(s) && s.totalPages > 0
    ensures AfterFetch(s, Fetched(0, [])).currentPage == 0
    ensures !InRange(AfterFetch(s, Fetched(0, [])))
  {
  }
}

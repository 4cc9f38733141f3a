/** The signed-in user's own events: the same paginated listing, plus a modal
    holding the draft of a new event. */
module UserEvents {

  import opened EventData
  import opened Pagination

  /** The draft of a new event: the form's object, keyed by input name. */
  type Draft = map<string, string>

  /** The names of the form's seven inputs. */
  const FieldNames: set<string> :=
    {"title", "description", "datetime", "deadline", "location", "price", "attendee_limit"}

  /** The draft the page starts with: every field of the form, empty. */
  function InitialDraft(): (d: Draft)
    ensures d.Keys == FieldNames
    ensures forall name :: name in d ==> d[name] == ""
  {
    map name | name in FieldNames :: ""
  }

  /** `{ ...prevFormData, [name]: value }`: the named field takes the new
      value and every other field keeps its own. */
  function WithField(d: Draft, name: string, value: string): (d': Draft)
    ensures d'.Keys == d.Keys + {name}
    ensures d'[name] == value
    ensures forall other :: other in d && other != name ==> d'[other] == d[other]
  {
    d[name := value]
  }

  /** Editing one of the form's own inputs keeps the draft's fields exactly
      the seven of the form. */
  lemma EditKeepsFields(d: Draft, name: string, value: string)
    requires d.Keys == FieldNames && name in FieldNames
    ensures WithField(d, name, value).Keys == FieldNames
  {
  }

  /** The key code of Escape. */
  const EscapeKeyCode := 27

  /** What can happen while the page is shown, as far as the modal is
      concerned. A window click carries whether the modal is mounted, whether
      the target lies inside it and whether the target is the "Create Event"
      button. */
  datatype ModalInput =
    | KeyDown(keyCode: int)
    | WindowClick(modalMounted: bool, insideModal: bool, onTrigger: bool)
    | TriggerClicked
    | CancelClicked
    | CreationSucceeded
    | CreationFailed

  /** The inputs that dismiss the modal. */
  predicate Dismisses(input: ModalInput)
  {
    || input == KeyDown(EscapeKeyCode)
    || input == WindowClick(true, false, false)
    || input == CancelClicked
    || input == CreationSucceeded
  }

  /** Whether the modal is shown after `input`: only the trigger opens it,
      the dismissals close it, and everything else leaves it as it was. */
  function ModalNext(open: bool, input: ModalInput): (open': bool)
    ensures input.TriggerClicked? ==> open'
    ensures Dismisses(input) ==> !open'
    ensures !input.TriggerClicked? && !Dismisses(input) ==> open' == open
  {
    match input
    case KeyDown(keyCode) => if keyCode == EscapeKeyCode then false else open
    case WindowClick(modalMounted, insideModal, onTrigger) =>
      if modalMounted && !insideModal && !onTrigger then false else open
    case TriggerClicked => true
    case CancelClicked => false
    case CreationSucceeded => false
    case CreationFailed => open
  }

  /** The modal after a sequence of inputs. */
  function ModalRun(open: bool, inputs: seq<ModalInput>): bool
    decreases |inputs|
  {
    if inputs == [] then open else ModalNext(ModalRun(open, inputs[..|inputs| - 1]), inputs[|inputs| - 1])
  }

  /** No input from index `k` on dismisses the modal. */
  predicate UndismissedFrom(inputs: seq<ModalInput>, k: nat)
  {
    forall m :: k <= m < |inputs| ==> !Dismisses(inputs[m])
  }

  /** Input `j` opened the modal and nothing after it dismissed it. */
  predicate OpenedAt(inputs: seq<ModalInput>, j: int)
  {
    0 <= j < |inputs| && inputs[j] == TriggerClicked && UndismissedFrom(inputs, j + 1)
  }

  /** The modal is open after a history exactly when it was opened (or already
      open at the start) and nothing has dismissed it since. */
  lemma {:induction false} ModalOpenIffNotDismissedSinceOpened(open: bool, inputs: seq<ModalInput>)
    ensures ModalRun(open, inputs) <==>
      (open && UndismissedFrom(inputs, 0)) || exists j :: OpenedAt(inputs, j)
    decreases |inputs|
  {
    if inputs != [] {
      var n := |inputs|;
      var prefix := inputs[..n - 1];
      var last := inputs[n - 1];
      ModalOpenIffNotDismissedSinceOpened(open, prefix);
      assert forall m :: 0 <= m < n - 1 ==> prefix[m] == inputs[m];
      if last == TriggerClicked {
        assert OpenedAt(inputs, n - 1);
      } else if Dismisses(last) {
        assert !UndismissedFrom(inputs, 0);
        forall j ensures !OpenedAt(inputs, j) {
          if 0 <= j < n - 1 {
            assert Dismisses(inputs[n - 1]);
          }
        }
      } else {
        assert UndismissedFrom(inputs, 0) <==> UndismissedFrom(prefix, 0);
        forall j ensures OpenedAt(inputs, j) <==> OpenedAt(prefix, j) {
        }
      }
    }
  }

  /** The page's state: the listing and its pagination, the draft and whether
      the creation modal is shown. */
  class UserEventsPage {
    var formData: Draft
    var showModal: bool
    var events: seq<Event>
    var currentPage: int
    var totalPages: int

    ghost function Listing(): PageState<Event>
      reads this
    {
      PageState(currentPage, totalPages, events)
    }

    constructor ()
      ensures formData == InitialDraft()
      ensures !showModal
      ensures Listing() == Initial()
    {
      formData := InitialDraft();
      showModal := false;
      events := [];
      currentPage := 1;
      totalPages := 1;
    }

    /** A key went down anywhere in the window. */
    method HandleKeyPress(keyCode: int)
      modifies this`showModal
      ensures showModal == ModalNext(old(showModal), KeyDown(keyCode))
    {
      if keyCode == EscapeKeyCode {
        showModal := false;
      }
    }

    /** A click landed anywhere in the window. */
    method HandleClickOutside(modalMounted: bool, insideModal: bool, onTrigger: bool)
      modifies this`showModal
      ensures showModal == ModalNext(old(showModal), WindowClick(modalMounted, insideModal, onTrigger))
    {
      if modalMounted && !insideModal && !onTrigger {
        showModal := false;
      }
    }

    /** The "Create Event" button. */
    method OpenModal()
      modifies this`showModal
      ensures showModal == ModalNext(old(showModal), TriggerClicked)
    {
      showModal := true;
    }

    /** The modal's Cancel button; the draft is kept. */
    method CancelModal()
      modifies this`showModal
      ensures showModal == ModalNext(old(showModal), CancelClicked)
    {
      showModal := false;
    }

    /** An input of the form changed. */
    method HandleFormFieldChange(name: string, value: string)
      modifies this`formData
      ensures formData == WithField(old(formData), name, value)
    {
      formData := formData[name := value];
    }

    /** Submit: the draft is posted as it stands. On success the modal closes
        and the current page is fetched again; on failure the modal stays as
        it is. The draft is not reset either way. */
    method HandleEventCreation(accepted: bool) returns (posted: Draft, next: Effect)
      modifies this`showModal
      ensures posted == formData
      ensures showModal == ModalNext(old(showModal), if accepted then CreationSucceeded else CreationFailed)
      ensures accepted ==> next == FetchPage(currentPage)
      ensures !accepted ==> next == NoFetch
    {
      posted := formData;
      if accepted {
        showModal := false;
        next := FetchPage(currentPage);
      } else {
        next := NoFetch;
      }
    }

    /** The page mounted: the effect keyed on `currentPage` runs for the
        first time and fetches the current page. */
    method Mount() returns (next: Effect)
      ensures next == FetchPage(currentPage)
    {
      next := FetchPage(currentPage);
    }

    /** A page button was clicked. */
    method HandlePageChange(page: int) returns (next: Effect)
      modifies this`currentPage
      ensures currentPage == page
      ensures next == PageChangeEffect(old(currentPage), page)
    {
      next := if page != currentPage then FetchPage(page) else NoFetch;
      currentPage := page;
    }

    /** A fetch of `currentPage` completed with `response`: clamp, then commit
        the events and the page count; a failure changes nothing. */
    method FetchEvents(response: FetchResponse<Event>) returns (next: Effect)
      modifies this`currentPage, this`totalPages, this`events
      ensures Listing() == AfterFetch(old(Listing()), response)
      ensures next == FollowUp(old(Listing()), response)
    {
      next := NoFetch;
      match response {
        case FetchFailed =>
        case Fetched(lastPage, data) =>
          if lastPage < totalPages && currentPage == totalPages {
            currentPage := lastPage;
            next := FetchPage(currentPage);
          }
          events := data;
          totalPages := lastPage;
      }
    }
  }
}

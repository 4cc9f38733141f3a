/** The public event listing page: the paginated list of events, the number of
    tickets left on each, and the button that reserves a ticket or shows that
    the signed-in user already holds one. */
module EventListing {

  import opened Wrappers
  import opened EventData
  import opened Pagination

  /** Tickets left: the attendee limit less the reservations made, with no
      lower bound, so an overbooked event shows a negative number. */
  function RemainingTickets(e: Event): (remaining: int)
    ensures remaining + |e.reservations| == e.attendeeLimit
    ensures remaining < 0 <==> |e.reservations| > e.attendeeLimit
  {
    e.attendeeLimit - |e.reservations|
  }

  /** A holder matches when the user is signed in and the ids are equal; with
      no user, `user?.id` is undefined and equals no reservation's id. */
  predicate HeldBy(r: Reservation, user: Option<User>)
  {
    user.Some? && r.id == user.value.id
  }

  /** `reservations.find(({ id }) => id === user?.id)`: a reservation the user
      holds, or none. */
  function FindReservation(reservations: seq<Reservation>, user: Option<User>): (found: Option<Reservation>)
    ensures found.None? <==> forall r :: r in reservations ==> !HeldBy(r, user)
    ensures found.Some? ==> found.value in reservations && HeldBy(found.value, user)
  {
    if reservations == [] then None
    else if HeldBy(reservations[0], user) then Some(reservations[0])
    else
      var rest := FindReservation(reservations[1..], user);
      assert forall r :: r in reservations ==> r == reservations[0] || r in reservations[1..];
      rest
  }

  /** What the last column shows for an event. */
  datatype TicketButton = ReserveTicket(eventId: int) | TicketReserved

  /** "Ticket Reserved" (disabled) exactly when one of the event's reservations
      is the signed-in user's; otherwise a button reserving this event. */
  function TicketButtonFor(e: Event, user: Option<User>): (b: TicketButton)
    ensures b.TicketReserved? <==> user.Some? && exists r :: r in e.reservations && r.id == user.value.id
    ensures b.ReserveTicket? ==> b.eventId == e.id
  {
    if FindReservation(e.reservations, user).None? then ReserveTicket(e.id) else TicketReserved
  }

  /** With no signed-in user every event offers "Reserve Ticket". */
  lemma NoUserReservesNothing(e: Event)
    ensures TicketButtonFor(e, None) == ReserveTicket(e.id)
  {
  }

  /** The page's state: the listing and its pagination. */
  class EventsPage {
    var events: seq<Event>
    var currentPage: int
    var totalPages: int

    ghost function Listing(): PageState<Event>
      reads this
    {
      PageState(currentPage, totalPages, events)
    }

    constructor ()
      ensures Listing() == Initial()
    {
      events := [];
      currentPage := 1;
      totalPages := 1;
    }

    /** The page mounted: the effect keyed on `currentPage` runs for the
        first time and fetches the current page. */
    method Mount() returns (next: Effect)
      ensures next == FetchPage(currentPage)
    {
      next := FetchPage(currentPage);
    }

    /** A page button was clicked. */
    method HandlePageChange(page: int) returns (next: Effect)
      modifies this`currentPage
      ensures currentPage == page
      ensures next == PageChangeEffect(old(currentPage), page)
    {
      next := if page != currentPage then FetchPage(page) else NoFetch;
      currentPage := page;
    }

    /** A fetch of `currentPage` completed with `response`: clamp, then commit
        the events and the page count; a failure changes nothing. */
    method FetchEvents(response: FetchResponse<Event>) returns (next: Effect)
      modifies this`currentPage, this`totalPages, this`events
      ensures Listing() == AfterFetch(old(Listing()), response)
      ensures next == FollowUp(old(Listing()), response)
    {
      next := NoFetch;
      match response {
        case FetchFailed =>
        case Fetched(lastPage, data) =>
          if lastPage < totalPages && currentPage == totalPages {
            currentPage := lastPage;
            next := FetchPage(currentPage);
          }
          events := data;
          totalPages := lastPage;
      }
    }

    /** The reservation request completed: success refetches the current page,
        so the button only changes once the new listing arrives; a rejection
        changes nothing. */
    method HandleReserveTicket(accepted: bool) returns (next: Effect)
      ensures accepted ==> next == FetchPage(currentPage)
      ensures !accepted ==> next == NoFetch
    {
      if accepted {
        next := FetchPage(currentPage);
      } else {
        next := NoFetch;
      }
    }
  }

  /** A worked example: ten places and three
      reservations leave seven tickets. */
  lemma SevenOfTenLeft(e: Event)
    requires e.attendeeLimit == 10 && |e.reservations| == 3
    ensures RemainingTickets(e) == 7
  {
  }
}

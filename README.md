# Event reservation client: verified model of the page logic

This project models the client-side logic of two pages of an event
reservation web client:

- the public **event listing** (`src/pages/events/index.js`): a paginated
  table of events showing how many tickets are left and, per event, either a
  "Reserve Ticket" button or a disabled "Ticket Reserved" button;
- the signed-in user's **own events** (`src/pages/user/events.js`): the same
  paginated table plus a "Create Event" modal holding a draft of a new event.

Both pages keep `currentPage`, `totalPages` and `events`. A fetch of
`currentPage` that succeeds applies a clamp rule: when the server now
reports fewer pages (`last_page < totalPages`) and the user was on the last
page (`currentPage == totalPages`), `currentPage` drops to `last_page`.
Then `totalPages := last_page` and `events := data`. A failed fetch changes
nothing. The fetch runs once when a page mounts (for page 1) and again on
every change of `currentPage`.

Modules:

- `Pagination` (pagination.dfy): the pure model shared by both pages. It
  holds the page state, `AfterFetch` (clamp then commit), the follow-up fetch
  each transition triggers, the page-button row, and whole-history lemmas.
  `Step` applies one page-button click (the state change of
  `handlePageChange`) or one fetch completion, and `Run` folds `Step` over a
  history; the whole-history lemmas are stated over `Run`.
- `EventListing` (event_listing.dfy): remaining tickets, the reservation
  lookup and ticket button, and the class `EventsPage` whose methods update
  the page's state.
- `UserEvents` (user_events.dfy): the draft (the form's object), the modal
  transition function, `ModalRun` (which folds it over a history of key
  presses, clicks and creation outcomes) with a lemma about such histories,
  and the class `UserEventsPage`.
- `EventData`, `Wrappers`: the server's records and `Option`.

The model proves what the code guarantees. It does not prove the hoped-for
invariant `1 <= currentPage <= totalPages`, because the code does not keep it:

- a user on a middle page that no longer exists stays there
  (`InRangeNotPreserved` gives the witness: page 2 of 3, then `last_page` 1);
- `last_page` 0 seen from the last page moves the user to page 0
  (`EmptyListingGivesPageZero`). The code does not clamp this case to 1.

What the code does keep is proved instead. The current page stays at least 1
while page changes come from the rendered buttons and the server reports at
least one page (`CurrentPageStaysPositive`). A user on the last page stays on
the last page while the listing only shrinks (`LastPageFollowsShrinkage`).
A clamp strictly lowers the current page (`FollowUp`). If the server reports
the same page count again, the refetch it triggers clamps nothing more
(`ClampSettles`).

After a successful creation the draft is not reset. The modal closes but the
entered values stay. The model follows the code here.

Handlers that start a fetch return an `Effect`: `FetchPage(p)` means the page
issues `GET ...?page=p`, and `NoFetch` means it does not. Setting
`currentPage` to the value it already has does not re-run the fetch effect,
so that case is `NoFetch`.

## Model

| member | source | states |
|---|---|---|
| Pagination.Initial | src/pages/events/index.js:10-12 | The initial listing is page 1 of 1 with no events; it is in range and on the last page |
| Pagination.FirstFetch | src/pages/events/index.js:14-16 | On mount the page fetches its initial page, page 1 |
| Pagination.AfterFetch | src/pages/events/index.js:35-49 | A failed fetch leaves the state as it was; a successful one sets `totalPages` to `last_page` and `events` to the data; from the last page the current page becomes the smaller of the old page count and `last_page`; from any other page it is unchanged |
| Pagination.FollowUp | src/pages/events/index.js:39-42 | A fetch completion triggers another fetch only when it clamped; that fetch is of the new current page, which is strictly below the old one; otherwise the current page is unchanged |
| Pagination.PageChangeEffect | src/pages/events/index.js:14-16 | Changing the page triggers a fetch of the new page exactly when it differs from the old one |
| Pagination.PageNumbers | src/pages/user/events.js:273 | The page numbers are 1, 2, ..., `totalPages` in increasing order (none when `totalPages` is not positive), and every one lies in `1..totalPages` |
| Pagination.PageButtons | src/pages/events/index.js:129-133 | One button per page number, in order, each highlighted iff its page is the current page |
| Pagination.OneHighlightedIffInRange | src/pages/user/events.js:273-277 | Exactly one button is highlighted when `1 <= currentPage <= totalPages`, and none otherwise |
| Pagination.SelectedPageInRange | src/pages/events/index.js:129-134 | Clicking a rendered page button lands on an existing page |
| Pagination.CurrentPageStaysPositive | src/pages/events/index.js:39-45 | Over any history of button clicks and fetch completions reporting `last_page >= 1`, a current page of at least 1 stays at least 1 |
| Pagination.LastPageFollowsShrinkage | src/pages/user/events.js:78-84 | Over any history of fetches that report no more pages than currently known, a user on the last page stays on the last page and never moves to a higher page |
| Pagination.ClampSettles | src/pages/user/events.js:79-84 | After a clamp to `last_page` the follow-up fetch is of `last_page`; the user is then on the last page, and the same `last_page` again triggers no further fetch |
| Pagination.InRangeNotPreserved | src/pages/events/index.js:39-45 | There is an in-range state and a response with `last_page >= 1` after which the current page is out of range |
| Pagination.EmptyListingGivesPageZero | src/pages/user/events.js:78-84 | From the last page of a non-empty listing, `last_page` 0 sets the current page to 0, out of range |
| EventListing.RemainingTickets | src/pages/events/index.js:104 | Tickets left plus reservations equals the attendee limit; the count is negative exactly when reservations exceed the limit |
| EventListing.SevenOfTenLeft | src/pages/events/index.js:104 | An event with limit 10 and 3 reservations shows 7 tickets left |
| EventListing.FindReservation | src/pages/events/index.js:106 | The lookup finds nothing iff no reservation's id equals the signed-in user's id; what it finds is one of the event's reservations held by the user |
| EventListing.TicketButtonFor | src/pages/events/index.js:106-117 | "Ticket Reserved" iff a user is signed in and some reservation's id equals the user's id; otherwise the button reserves this event's id |
| EventListing.NoUserReservesNothing | src/pages/events/index.js:106-112 | With no signed-in user every event shows "Reserve Ticket" |
| EventListing.EventsPage.constructor | src/pages/events/index.js:10-12 | A new page holds the initial listing |
| EventListing.EventsPage.Mount | src/pages/events/index.js:14-16 | Mounting changes no state and fetches the current page |
| EventListing.EventsPage.HandlePageChange | src/pages/events/index.js:31-33 | Sets `currentPage` to the page and changes nothing else; a fetch of that page follows iff it changed |
| EventListing.EventsPage.FetchEvents | src/pages/events/index.js:35-49 | The new listing is `AfterFetch` of the old one, and the follow-up fetch is `FollowUp`'s |
| EventListing.EventsPage.HandleReserveTicket | src/pages/events/index.js:18-29 | Changes no state; a successful reservation refetches the current page and a rejected one triggers nothing |
| UserEvents.InitialDraft | src/pages/user/events.js:10-18 | The initial draft has exactly the seven form fields, all empty |
| UserEvents.WithField | src/pages/user/events.js:51-57 | A field change gives the named field the new value, keeps every other field's value, and adds no key but the name |
| UserEvents.EditKeepsFields | src/pages/user/events.js:51-57 | Editing one of the seven inputs keeps the draft's fields exactly the seven |
| UserEvents.ModalNext | src/pages/user/events.js:24-36 | Only the trigger button opens the modal; Escape, a click on a mounted modal's outside that is not the trigger, Cancel and a successful creation close it; any other key, an inside click and a failed creation leave it as it was |
| UserEvents.ModalOpenIffNotDismissedSinceOpened | src/pages/user/events.js:24-45 | After any history the modal is open iff it was open at the start or the trigger was clicked, and nothing has dismissed it since |
| UserEvents.UserEventsPage.constructor | src/pages/user/events.js:10-22 | A new page has the empty draft, the modal closed, and the initial listing |
| UserEvents.UserEventsPage.HandleKeyPress | src/pages/user/events.js:25-30 | Escape (key code 27) closes the modal; any other key leaves it; nothing else changes |
| UserEvents.UserEventsPage.HandleClickOutside | src/pages/user/events.js:32-36 | A click closes the modal iff it is mounted, the target is outside it and is not the trigger; nothing else changes |
| UserEvents.UserEventsPage.OpenModal | src/pages/user/events.js:111-117 | The "Create Event" button opens the modal and changes nothing else |
| UserEvents.UserEventsPage.CancelModal | src/pages/user/events.js:223-228 | Cancel closes the modal and keeps the draft |
| UserEvents.UserEventsPage.HandleFormFieldChange | src/pages/user/events.js:51-57 | The draft becomes `WithField` of the old draft; nothing else changes |
| UserEvents.UserEventsPage.HandleEventCreation | src/pages/user/events.js:59-68 | Posts the draft as it stands; success closes the modal and refetches the current page; failure changes nothing and triggers nothing; the draft is never reset |
| UserEvents.UserEventsPage.Mount | src/pages/user/events.js:47-49 | Mounting changes no state and fetches the current page |
| UserEvents.UserEventsPage.HandlePageChange | src/pages/user/events.js:70-72 | Sets `currentPage` to the page and changes nothing else; a fetch of that page follows iff it changed |
| UserEvents.UserEventsPage.FetchEvents | src/pages/user/events.js:74-88 | The new listing is `AfterFetch` of the old one, and the follow-up fetch is `FollowUp`'s |

## Left out

- HTTP requests and the remote API: every response is an input, either
  `Fetched(last_page, data)` or a failure, and a mutation's outcome is a
  boolean.
- `alert` of the server's message and `console.log`/`console.error`: they
  are output only and change no state.
- `formattedDateTime`: locale date formatting through `Date` and
  `toLocaleString`, a foreign library.
- Rendering (JSX, CSS classes, `Head`, `AppLayout`), apart from the page
  buttons and the ticket column's text and button.
- Registering and removing the window `keydown`/`click` listeners, and DOM
  `contains`: "modal mounted", "target inside the modal" and "target is the
  trigger button" are boolean inputs.
- React scheduling and asynchrony: stale closure values, overlapping fetches
  and a late response overwriting newer state. Each fetch is one atomic
  transition from the state it was issued from.
- `useAuth`: the signed-in user is an optional input.
- JavaScript values outside the intended types: a `last_page` that is not an
  integer, missing response fields, and loose equality between a string and
  a number. All are modelled as integers.
- EventListing.EventsPage.HandleReserveTicket: the event id only names the
  request path, `/api/events/{id}/reserve`, so it is not a parameter.
- Reservations carry only the holder's id, the one field the page reads.

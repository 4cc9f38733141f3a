/** The server-owned records both pages display. Dates, prices and texts are
    kept as the strings the server sends; only the fields the client computes
    with are typed. */
module EventData {

  /** One entry of an event's reservation list; `id` identifies the user who
      holds the reservation. */
  datatype Reservation = Reservation(id: int)

  /** The signed-in user as the session provider reports it. */
  datatype User = User(id: int)

  datatype Event = Event(
    id: int,
    title: string,
    description: string,
    datetime: string,
    deadline: string,
    location: string,
    price: string,
    attendeeLimit: int,
    reservations: seq<Reservation>)
}

/** TicketServiceImpl: the owner-filtered ticket lookups, the QR lookup,
    `save`, and `bookTickets`, a second way to create tickets. */
module TicketService {
  import opened Common
  import opened Tables
  import opened Tickets
  import opened Purchase

  /** `listTicketsForUser`: the user's tickets (all pages together). */
  function ListTicketsForUser(tickets: TicketTable, userId: Uuid): (r: seq<Ticket>)
    reads tickets
    ensures forall t :: t in r ==> t in tickets.rows && t.purchaserId == userId
    ensures forall i :: 0 <= i < |tickets.rows| && tickets.rows[i].purchaserId == userId ==> tickets.rows[i] in r
  {
    FindByPurchaserId(tickets.rows, userId)
  }

  /** `getTicketForUser`: the ticket, only when both id and purchaser match. */
  function GetTicketForUser(tickets: TicketTable, userId: Uuid, ticketId: TicketId): (r: Option<Ticket>)
    reads tickets
    ensures r.Some? ==> r.value in tickets.rows && r.value.id == ticketId && r.value.purchaserId == userId
    ensures r.None? <==> forall i :: 0 <= i < |tickets.rows| ==> !(tickets.rows[i].id == ticketId && tickets.rows[i].purchaserId == userId)
  {
    FindByIdAndPurchaserId(tickets.rows, ticketId, userId)
  }

  /** Under the table's id invariant the ticket returned is the row with that
      id, and another user never sees it. */
  lemma GetTicketForUserIsOwnersRow(tickets: TicketTable, userId: Uuid, ticketId: TicketId)
    requires tickets.Valid()
    ensures (ticketId < |tickets.rows| && tickets.rows[ticketId].purchaserId == userId)
              ==> GetTicketForUser(tickets, userId, ticketId) == Some(tickets.rows[ticketId])
    ensures (ticketId < |tickets.rows| && tickets.rows[ticketId].purchaserId != userId)
              ==> GetTicketForUser(tickets, userId, ticketId).None?
    ensures ticketId >= |tickets.rows| ==> GetTicketForUser(tickets, userId, ticketId).None?
  {
    var r := GetTicketForUser(tickets, userId, ticketId);
    if r.Some? {
      var i :| 0 <= i < |tickets.rows| && tickets.rows[i] == r.value;
      assert i == ticketId;
    }
  }

  /** `findByQrCode`: the repository lookup by QR value. */
  function FindTicketByQrCode(tickets: TicketTable, qrCode: string): (r: Lookup)
    reads tickets
    ensures r.Missing? <==> forall i :: 0 <= i < |tickets.rows| ==> qrCode !in tickets.rows[i].qrCodes
    ensures r.Found? ==> r.index < |tickets.rows| && qrCode in tickets.rows[r.index].qrCodes
  {
    FindByQrCode(tickets.rows, qrCode)
  }

  /** `save(ticket)`: the ticket's row is replaced (or a new one added) and no
      other row changes. */
  method SaveTicket(tickets: TicketTable, ticket: Ticket)
    requires tickets.Valid()
    modifies tickets
    ensures tickets.Valid()
    ensures tickets.rows == Saved(old(tickets.rows), ticket)
    ensures ticket.id < |old(tickets.rows)| ==> tickets.rows[ticket.id] == ticket
    ensures forall i :: 0 <= i < |old(tickets.rows)| && i != ticket.id ==> tickets.rows[i] == old(tickets.rows)[i]
  {
    var _ := tickets.Save(ticket);
  }

  /** The request body of `POST /api/v1/tickets/book`: client-chosen status,
      ticket type, purchaser and quantity. */
  datatype BookingRequest = BookingRequest(status: TicketStatus, ticketType: Uuid, purchaser: Uuid, quantity: int32)

  /** `bookTickets`: builds a ticket from the request and saves it. There is
      no quantity, user or capacity check. */
  method BookTickets(tickets: TicketTable, request: BookingRequest) returns (saved: Ticket)
    requires tickets.Valid()
    modifies tickets
    ensures tickets.Valid()
    ensures saved == Ticket(|old(tickets.rows)|, request.ticketType, request.purchaser, request.status, request.quantity, [])
    ensures tickets.rows == old(tickets.rows) + [saved]
  {
    var ticket := Ticket(|tickets.rows|, request.ticketType, request.purchaser, request.status, request.quantity, []);
    saved := tickets.Insert(ticket);
  }

  /** Booking bypasses the capacity test: on a type with no capacity left, a
      booking still adds a row and breaks the invariant purchases keep. */
  lemma BookingBreaksCapacity(typeId: Uuid, organizerId: Uuid, request: BookingRequest)
    requires request.ticketType == typeId
    ensures var types := [TicketType(typeId, 0, organizerId)];
            var booked := Ticket(0, request.ticketType, request.purchaser, request.status, request.quantity, []);
            WithinCapacity([], types) && !WithinCapacity([] + [booked], types)
  {
    var types := [TicketType(typeId, 0, organizerId)];
    var booked := Ticket(0, request.ticketType, request.purchaser, request.status, request.quantity, []);
    CountByTypeAppend([], booked, typeId);
    assert CountByTicketTypeId([] + [booked], types[0].id) == 1;
  }
}

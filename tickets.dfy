/** The ticket and ticket-type tables and their repository queries
    (TicketRepository, TicketTypeRepository). */
module Tickets {
  import opened Common
  import opened Tables

  /** Ticket ids are handed out by the table when a ticket is first saved. */
  type TicketId = nat

  datatype TicketStatus = Purchased | Cancelled

  /** A ticket row. `quantity` is both the units bought and the scans left;
      `qrCodes` are the values of the QR codes attached to the ticket. */
  datatype Ticket = Ticket(
    id: TicketId,
    typeId: Uuid,
    purchaserId: Uuid,
    status: TicketStatus,
    quantity: int32,
    qrCodes: seq<string>)

  /** A ticket-type row; `organizerId` is the organizer of the type's event. */
  datatype TicketType = TicketType(id: Uuid, totalAvailable: int32, organizerId: Uuid)

  // ---------------------------------------------------------------- TicketRepository

  function OfType(typeId: Uuid): Ticket -> bool {
    (t: Ticket) => t.typeId == typeId
  }

  function HoldsQrCode(value: string): Ticket -> bool {
    (t: Ticket) => value in t.qrCodes
  }

  function OwnedBy(purchaserId: Uuid): Ticket -> bool {
    (t: Ticket) => t.purchaserId == purchaserId
  }

  /** `findByQrCode`: the ticket joined to a QR code with this value. */
  function FindByQrCode(rows: seq<Ticket>, value: string): (r: Lookup)
    ensures r.Missing? <==> forall i :: 0 <= i < |rows| ==> value !in rows[i].qrCodes
    ensures r.Found? ==> r.index < |rows| && value in rows[r.index].qrCodes
    ensures r.Found? ==> forall j :: 0 <= j < |rows| && j != r.index ==> value !in rows[j].qrCodes
  {
    FindUnique(rows, HoldsQrCode(value))
  }

  /** `countByTicketTypeId`: the number of ticket ROWS of the type. */
  function CountByTicketTypeId(rows: seq<Ticket>, typeId: Uuid): (r: nat)
    ensures r <= |rows|
    ensures r == 0 <==> forall i :: 0 <= i < |rows| ==> rows[i].typeId != typeId
  {
    CountWhere(rows, OfType(typeId))
  }

  /** Appending a ticket adds exactly one to its type's count, whatever its
      quantity, and nothing to any other type's. */
  lemma CountByTypeAppend(rows: seq<Ticket>, t: Ticket, typeId: Uuid)
    ensures CountByTicketTypeId(rows + [t], typeId)
         == CountByTicketTypeId(rows, typeId) + (if t.typeId == typeId then 1 else 0)
  {
    CountWhereAppend(rows, t, OfType(typeId));
  }

  /** The count is not weighted by quantity: changing a row's quantity (or
      anything but its type) leaves every count unchanged. */
  lemma CountByTypeIgnoresQuantity(rows: seq<Ticket>, i: nat, t: Ticket, typeId: Uuid)
    requires i < |rows| && t.typeId == rows[i].typeId
    ensures CountByTicketTypeId(rows[i := t], typeId) == CountByTicketTypeId(rows, typeId)
  {
    CountWhereUpdate(rows, i, t, OfType(typeId));
  }

  /** `findByPurchaserId`: the purchaser's tickets, in table order. */
  function FindByPurchaserId(rows: seq<Ticket>, purchaserId: Uuid): (r: seq<Ticket>)
    ensures forall t :: t in r ==> t in rows && t.purchaserId == purchaserId
    ensures forall i :: 0 <= i < |rows| && rows[i].purchaserId == purchaserId ==> rows[i] in r
  {
    Filter(rows, OwnedBy(purchaserId))
  }

  /** `findByIdAndPurchaserId`: the ticket with this id, if it is the purchaser's. */
  function FindByIdAndPurchaserId(rows: seq<Ticket>, id: TicketId, purchaserId: Uuid): (r: Option<Ticket>)
    ensures r.Some? ==> r.value in rows && r.value.id == id && r.value.purchaserId == purchaserId
    ensures r.None? <==> forall i :: 0 <= i < |rows| ==> !(rows[i].id == id && rows[i].purchaserId == purchaserId)
  {
    match FindFirst(rows, (t: Ticket) => t.id == id && t.purchaserId == purchaserId)
    case Some(i) => Some(rows[i])
    case None => None
  }

  /** The ticket type `typeId` exists and belongs to an event of `organizerId`. */
  predicate TypeOfOrganizer(types: seq<TicketType>, typeId: Uuid, organizerId: Uuid) {
    var tt := FindByIdWithLock(types, typeId);
    tt.Some? && tt.value.organizerId == organizerId
  }

  /** `countByOrganizer` over tickets: tickets whose type's event has this
      organizer (an inner join, so tickets of unknown types are not counted). */
  function CountTicketsByOrganizer(rows: seq<Ticket>, types: seq<TicketType>, organizerId: Uuid): (r: nat)
    ensures r <= |rows|
    ensures r == 0 <==> forall i :: 0 <= i < |rows| ==> !TypeOfOrganizer(types, rows[i].typeId, organizerId)
    ensures (forall k :: 0 <= k < |types| ==> types[k].organizerId != organizerId) ==> r == 0
  {
    CountWhere(rows, (t: Ticket) => TypeOfOrganizer(types, t.typeId, organizerId))
  }

  // ------------------------------------------------------------ TicketTypeRepository

  /** The primary-key constraint of the ticket-type table. */
  ghost predicate UniqueTypeIds(types: seq<TicketType>) {
    forall i, j :: 0 <= i < j < |types| ==> types[i].id != types[j].id
  }

  /** `findByIdWithLock`, read as a plain lookup by primary key. */
  function FindByIdWithLock(types: seq<TicketType>, id: Uuid): (r: Option<TicketType>)
    ensures r.Some? ==> r.value in types && r.value.id == id
    ensures r.None? <==> forall k :: 0 <= k < |types| ==> types[k].id != id
  {
    match FindFirst(types, (tt: TicketType) => tt.id == id)
    case Some(k) => Some(types[k])
    case None => None
  }

  /** Under the primary key, the lookup returns the one row with that id. */
  lemma FindByIdWithLockUnique(types: seq<TicketType>, k: nat)
    requires UniqueTypeIds(types) && k < |types|
    ensures FindByIdWithLock(types, types[k].id) == Some(types[k])
  {
    var found := FindByIdWithLock(types, types[k].id);
    var j :| 0 <= j < |types| && types[j] == found.value;
    assert j == k;
  }

  /** `countByOrganizer` over ticket types. */
  function CountTypesByOrganizer(types: seq<TicketType>, organizerId: Uuid): (r: nat)
    ensures r <= |types|
    ensures r == 0 <==> forall k :: 0 <= k < |types| ==> types[k].organizerId != organizerId
  {
    CountWhere(types, (tt: TicketType) => tt.organizerId == organizerId)
  }

  /** `sumTotalAvailableByOrganizer`: the capacities of the organizer's ticket
      types added up, 0 when there are none (COALESCE). */
  function SumTotalAvailableByOrganizer(types: seq<TicketType>, organizerId: Uuid): (r: int)
    ensures (forall k :: 0 <= k < |types| ==> types[k].organizerId != organizerId) ==> r == 0
    ensures (forall k :: 0 <= k < |types| ==> types[k].totalAvailable >= 0) ==> r >= 0
  {
    if types == [] then 0
    else
      var n := |types| - 1;
      assert forall k :: 0 <= k < n ==> types[..n][k] == types[k];
      SumTotalAvailableByOrganizer(types[..n], organizerId)
        + (if types[n].organizerId == organizerId then types[n].totalAvailable as int else 0)
  }

  /** Counting is additive over the table: a new type of the organizer adds
      its capacity and one to the count; a type of another organizer adds nothing. */
  lemma OrganizerTotalsAppend(types: seq<TicketType>, tt: TicketType, organizerId: Uuid)
    ensures SumTotalAvailableByOrganizer(types + [tt], organizerId)
         == SumTotalAvailableByOrganizer(types, organizerId) + (if tt.organizerId == organizerId then tt.totalAvailable as int else 0)
    ensures CountTypesByOrganizer(types + [tt], organizerId)
         == CountTypesByOrganizer(types, organizerId) + (if tt.organizerId == organizerId then 1 else 0)
  {
    assert (types + [tt])[..|types|] == types;
    CountWhereAppend(types, tt, (t: TicketType) => t.organizerId == organizerId);
  }

  // ---------------------------------------------------------------- the ticket table

  /** Row `i` holds the ticket with id `i`. */
  ghost predicate IdsArePositions(rows: seq<Ticket>) {
    forall i :: 0 <= i < |rows| ==> rows[i].id == i
  }

  /** The table after `save(ticket)`: an existing id is updated in place, a
      ticket without a stored row gets the next id. */
  function Saved(rows: seq<Ticket>, t: Ticket): seq<Ticket> {
    if t.id < |rows| then rows[t.id := t] else rows + [t.(id := |rows|)]
  }

  /** The ticket table, updated in place by `save`. */
  class TicketTable {
    var rows: seq<Ticket>

    ghost predicate Valid()
      reads this
    {
      IdsArePositions(rows)
    }

    constructor ()
      ensures Valid() && rows == []
    {
      rows := [];
    }

    /** `ticketRepository.save` of a ticket that has not been stored yet: the
        table assigns it the next id. */
    method Insert(t: Ticket) returns (saved: Ticket)
      requires Valid()
      modifies this
      ensures Valid()
      ensures saved == t.(id := |old(rows)|)
      ensures rows == old(rows) + [saved]
    {
      saved := t.(id := |rows|);
      rows := rows + [saved];
    }

    /** `ticketRepository.save` of a ticket object. */
    method Save(t: Ticket) returns (saved: Ticket)
      requires Valid()
      modifies this
      ensures Valid()
      ensures rows == Saved(old(rows), t)
      ensures saved.id < |rows| && saved == rows[saved.id]
      ensures t.id < |old(rows)| ==> saved == t
    {
      if t.id < |rows| {
        rows := rows[t.id := t];
        saved := t;
      } else {
        saved := Insert(t);
      }
    }
  }
}

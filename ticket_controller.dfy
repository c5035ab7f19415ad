/** TicketController: the door-scan endpoint, where a ticket's quantity is
    the number of scans left, and the booking endpoint. */
module TicketController {
  import opened Common
  import opened Tables
  import opened Tickets
  import opened Purchase
  import opened TicketService

  /** The outcome of `POST /api/v1/tickets/validate/{qrCode}`. */
  datatype ValidationResponse =
    | TicketNotFound
    | Validated(remaining: int32)
    | NoRemainingScans
    | LookupFailed   // several tickets hold the code: the query throws

  function StatusCode(r: ValidationResponse): int {
    match r
    case TicketNotFound => 404
    case Validated(_) => 200
    case NoRemainingScans => 400
    case LookupFailed => 500
  }

  /** The response body. `remaining` is never negative in a response the
      endpoint produces; the branch below only keeps `Body` total. */
  function Body(r: ValidationResponse): string {
    match r
    case TicketNotFound => "Ticket not found"
    case Validated(n) => "Ticket validated. Remaining scans: " + (if n >= 0 then Decimal(n as nat) else "-" + Decimal(-(n as int)))
    case NoRemainingScans => "No remaining scans for this ticket"
    case LookupFailed => ""
  }

  /** One scan on the ticket table: find the ticket holding the code; if it
      has scans left, take one and save it. */
  function ValidateSpec(rows: seq<Ticket>, qrCode: string): (r: (ValidationResponse, seq<Ticket>))
    ensures FindByQrCode(rows, qrCode).Missing? ==> r == (TicketNotFound, rows)
    ensures FindByQrCode(rows, qrCode).NonUnique? ==> r == (LookupFailed, rows)
    ensures FindByQrCode(rows, qrCode).Found? ==>
              var i := FindByQrCode(rows, qrCode).index;
              if rows[i].quantity > 0
              then r.0 == Validated(rows[i].quantity - 1) && r.0.remaining >= 0
                   && r.1 == rows[i := rows[i].(quantity := rows[i].quantity - 1)]
              else r == (NoRemainingScans, rows)
    ensures |r.1| == |rows|
    ensures forall j :: 0 <= j < |rows| ==> r.1[j].quantity <= rows[j].quantity
  {
    match FindByQrCode(rows, qrCode)
    case Missing => (TicketNotFound, rows)
    case NonUnique => (LookupFailed, rows)
    case Found(i) =>
      var ticket := rows[i];
      if ticket.quantity > 0 then
        var scanned := ticket.(quantity := ticket.quantity - 1);
        (Validated(scanned.quantity), rows[i := scanned])
      else (NoRemainingScans, rows)
  }

  /** `validateTicket(qrCode)`. */
  method ValidateTicket(tickets: TicketTable, qrCode: string) returns (response: ValidationResponse)
    requires tickets.Valid()
    modifies tickets
    ensures tickets.Valid()
    ensures (response, tickets.rows) == ValidateSpec(old(tickets.rows), qrCode)
  {
    var found := FindTicketByQrCode(tickets, qrCode);
    match found
    case Missing => response := TicketNotFound;
    case NonUnique => response := LookupFailed;
    case Found(i) =>
      var ticket := tickets.rows[i];
      if ticket.quantity > 0 {
        ticket := ticket.(quantity := ticket.quantity - 1);
        SaveTicket(tickets, ticket);
        response := Validated(ticket.quantity);
      } else {
        response := NoRemainingScans;
      }
  }

  /** A scan changes only a quantity, so the QR lookup finds the same ticket
      afterwards. */
  lemma FindByQrCodeAfterScan(rows: seq<Ticket>, i: nat, t: Ticket, qrCode: string)
    requires i < |rows| && t.qrCodes == rows[i].qrCodes
    ensures FindByQrCode(rows[i := t], qrCode) == FindByQrCode(rows, qrCode)
  {
    FindUniqueUpdate(rows, i, t, HoldsQrCode(qrCode));
  }

  /** `k` scans of the same code, one after another: the final table and the
      number of scans that were accepted. */
  function ScanRun(rows: seq<Ticket>, qrCode: string, k: nat): (r: (seq<Ticket>, nat))
    ensures r.1 <= k
    decreases k
  {
    if k == 0 then (rows, 0)
    else
      var step := ValidateSpec(rows, qrCode);
      var rest := ScanRun(step.1, qrCode, k - 1);
      (rest.0, rest.1 + (if step.0.Validated? then 1 else 0))
  }

  /** One scan of the ticket the code finds: it takes a scan exactly when one
      is left, and the code still finds the same ticket. */
  lemma ScanStep(rows: seq<Ticket>, qrCode: string, i: nat)
    requires FindByQrCode(rows, qrCode) == Found(i)
    ensures var step := ValidateSpec(rows, qrCode);
            && |step.1| == |rows| && FindByQrCode(step.1, qrCode) == Found(i)
            && (step.0.Validated? <==> rows[i].quantity > 0)
            && step.1[i].quantity as int == rows[i].quantity as int - (if rows[i].quantity > 0 then 1 else 0)
            && (forall j :: 0 <= j < |rows| && j != i ==> step.1[j] == rows[j])
  {
    if rows[i].quantity > 0 {
      FindByQrCodeAfterScan(rows, i, rows[i].(quantity := rows[i].quantity - 1), qrCode);
    }
  }

  /** A ticket with `n >= 0` scans left accepts exactly `min(k, n)` of `k`
      scans, ends with `n - min(k, n)` left (never below zero), and keeps its
      place as the ticket the code finds; no other ticket changes. */
  lemma {:induction false} ScansAcceptedExactlyQuantity(rows: seq<Ticket>, qrCode: string, i: nat, k: nat)
    requires FindByQrCode(rows, qrCode) == Found(i)
    requires rows[i].quantity >= 0
    ensures var run := ScanRun(rows, qrCode, k);
            var n := rows[i].quantity as int;
            && run.1 == (if k <= n then k else n)
            && |run.0| == |rows| && FindByQrCode(run.0, qrCode) == Found(i)
            && run.0[i].quantity as int == n - run.1 >= 0
            && (forall j :: 0 <= j < |rows| && j != i ==> run.0[j] == rows[j])
    decreases k
  {
    if k > 0 {
      var step := ValidateSpec(rows, qrCode);
      ScanStep(rows, qrCode, i);
      ScansAcceptedExactlyQuantity(step.1, qrCode, i, k - 1);
      var rest := ScanRun(step.1, qrCode, k - 1);
      assert ScanRun(rows, qrCode, k) == (rest.0, rest.1 + (if step.0.Validated? then 1 else 0));
    }
  }

  /** A fully used ticket rejects every further scan and stays unchanged. */
  lemma ExhaustedTicketRejects(rows: seq<Ticket>, qrCode: string, i: nat)
    requires FindByQrCode(rows, qrCode) == Found(i)
    requires rows[i].quantity == 0
    ensures ValidateSpec(rows, qrCode) == (NoRemainingScans, rows)
    ensures StatusCode(ValidateSpec(rows, qrCode).0) == 400
  {
  }

  /** Scanning never changes a ticket's type, so it never frees or uses up
      capacity: the purchase invariant survives every scan. */
  lemma {:induction false} ScanPreservesCapacity(rows: seq<Ticket>, types: seq<TicketType>, qrCode: string)
    requires WithinCapacity(rows, types)
    ensures WithinCapacity(ValidateSpec(rows, qrCode).1, types)
  {
    var found := FindByQrCode(rows, qrCode);
    if found.Found? && rows[found.index].quantity > 0 {
      var i := found.index;
      var scanned := rows[i].(quantity := rows[i].quantity - 1);
      forall k | 0 <= k < |types|
        ensures CountByTicketTypeId(rows[i := scanned], types[k].id) <= types[k].totalAvailable as int
      {
        CountByTypeIgnoresQuantity(rows, i, scanned, types[k].id);
      }
    }
  }

  /** `POST /api/v1/tickets/book`: 201 with the ticket the service saved. */
  method BookTicketsEndpoint(tickets: TicketTable, request: BookingRequest) returns (status: int, body: Ticket)
    requires tickets.Valid()
    modifies tickets
    ensures tickets.Valid()
    ensures status == 201
    ensures body == Ticket(|old(tickets.rows)|, request.ticketType, request.purchaser, request.status, request.quantity, [])
    ensures tickets.rows == old(tickets.rows) + [body]
  {
    body := BookTickets(tickets, request);
    status := 201;
  }
}

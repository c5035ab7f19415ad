/** TicketTypeServiceImpl.purchaseTicket and its endpoint in
    TicketTypeController: check the request, look up the purchaser and the
    ticket type, compare the type's ticket-row count plus the quantity with
    its capacity, insert one ticket row and attach its QR code. */
module Purchase {
  import opened Common
  import opened Tables
  import opened Users
  import opened Identity
  import opened Tickets

  datatype PurchaseError =
    | InvalidQuantity      // IllegalArgumentException("Quantity must be greater than 0")
    | UserNotFound         // UserNotFoundException
    | TicketTypeNotFound   // TicketTypeNotFoundException
    | CountNotAnInt        // the row count exceeds 2^31 - 1: narrowing the query's `long` to the declared `int` throws
    | TicketsSoldOut       // TicketsSoldOutException
    | QrCodeFailed         // an exception from the QR hook; the transaction rolls back

  /** The capacity test exactly as the source evaluates it: the sum
      `purchasedTickets + quantity` is computed in 32-bit `int`. */
  function SoldOutAsWritten(purchased: int32, quantity: int32, totalAvailable: int32): bool {
    Wrap32(purchased as int + quantity as int) > totalAvailable
  }

  /** The capacity test as intended, on exact integers. */
  function SoldOut(purchased: nat, quantity: int, totalAvailable: int): bool {
    purchased + quantity > totalAvailable
  }

  /** The two tests agree whenever the sum fits in an `int`. */
  lemma SoldOutAgreesWithinRange(purchased: int32, quantity: int32, totalAvailable: int32)
    requires purchased >= 0
    requires purchased as int + quantity as int <= Int32Max
    ensures SoldOutAsWritten(purchased, quantity, totalAvailable) == SoldOut(purchased as nat, quantity as int, totalAvailable as int)
  {
  }

  /** With 100 of 100 tickets sold, a request for 2147483600 overflows the sum
      to a negative number and passes the test the source writes. */
  lemma SoldOutAsWrittenOverflows()
    ensures !SoldOutAsWritten(100, 2147483600, 100)
    ensures SoldOut(100, 2147483600, 100)
  {
    assert Wrap32(100 + 2147483600) as int == 2147483700 - 0x1_0000_0000;
  }

  /** At the largest capacity an `int` holds, a full type still sells one
      more ticket: the row count plus one wraps to the smallest `int`. */
  lemma SoldOutAsWrittenAtIntMax()
    ensures !SoldOutAsWritten(Int32Max as int32, 1, Int32Max as int32)
    ensures SoldOut(Int32Max, 1, Int32Max)
  {
    assert Wrap32(Int32Max + 1) as int == Int32Min;
  }

  /** A call's effect on the ticket table. */
  datatype PurchaseOutcome = PurchaseOutcome(result: Result<Ticket, PurchaseError>, rows: seq<Ticket>)

  /** Which capacity test a purchase applies: the one line 46 of the service
      evaluates, or the one it evidently intends. */
  datatype CapacityTest = Int32Sum | Exact

  /** Whether a purchase of `quantity` is refused when `purchased` ticket rows
      of the type exist; the count has already been narrowed to an `int`.
      `Int32Sum` adds in 32 bits; `Exact` compares the true sum. */
  function Refused(test: CapacityTest, purchased: nat, quantity: int32, totalAvailable: int32): bool
    requires purchased <= Int32Max
  {
    match test
    case Int32Sum => SoldOutAsWritten(purchased as int32, quantity, totalAvailable)
    case Exact => SoldOut(purchased, quantity as int, totalAvailable as int)
  }

  /** `purchaseTicket(userId, ticketTypeId, quantity)` as one atomic step on
      the ticket table, under the capacity test `test`. `qrHook` is
      `qrCodeService.generateQrCode` applied to the saved ticket: the value
      of the code it creates, or `None` when it throws, which rolls the whole
      purchase back. */
  function PurchaseUnder(test: CapacityTest, rows: seq<Ticket>, users: seq<User>, types: seq<TicketType>,
                         userId: Uuid, typeId: Uuid, quantity: int32,
                         qrHook: Ticket -> Option<string>): PurchaseOutcome
  {
    if quantity <= 0 then PurchaseOutcome(Failure(InvalidQuantity), rows)
    else match FindUserById(users, userId)
      case None => PurchaseOutcome(Failure(UserNotFound), rows)
      case Some(user) =>
        match FindByIdWithLock(types, typeId)
        case None => PurchaseOutcome(Failure(TicketTypeNotFound), rows)
        case Some(ticketType) =>
          var purchased := CountByTicketTypeId(rows, ticketType.id);
          if purchased > Int32Max then PurchaseOutcome(Failure(CountNotAnInt), rows)
          else if Refused(test, purchased, quantity, ticketType.totalAvailable)
          then PurchaseOutcome(Failure(TicketsSoldOut), rows)
          else
            var saved := Ticket(|rows|, ticketType.id, user.id, Purchased, quantity, []);
            match qrHook(saved)
            case None => PurchaseOutcome(Failure(QrCodeFailed), rows)
            case Some(qr) =>
              var ticket := saved.(qrCodes := [qr]);
              PurchaseOutcome(Success(ticket), rows + [ticket])
  }

  /** The purchase as the source writes it: the count narrowed to an `int`
      (throwing above 2^31 - 1 rows), then the 32-bit sum of line 46. */
  function PurchaseSpecAsWritten(rows: seq<Ticket>, users: seq<User>, types: seq<TicketType>,
                                 userId: Uuid, typeId: Uuid, quantity: int32,
                                 qrHook: Ticket -> Option<string>): PurchaseOutcome
  {
    PurchaseUnder(Int32Sum, rows, users, types, userId, typeId, quantity, qrHook)
  }

  /** The purchase with the capacity test corrected; the rest of the model
      uses this one. */
  function PurchaseSpec(rows: seq<Ticket>, users: seq<User>, types: seq<TicketType>,
                        userId: Uuid, typeId: Uuid, quantity: int32,
                        qrHook: Ticket -> Option<string>): (r: PurchaseOutcome)
    ensures r.result.Failure? ==> r.rows == rows
    ensures quantity <= 0 ==> r.result == Failure(InvalidQuantity)
    ensures quantity > 0 && FindUserById(users, userId).None? ==> r.result == Failure(UserNotFound)
    ensures (quantity > 0 && FindUserById(users, userId).Some? && FindByIdWithLock(types, typeId).None?)
              ==> r.result == Failure(TicketTypeNotFound)
    ensures r.result == Failure(CountNotAnInt) <==>
              && quantity > 0 && FindUserById(users, userId).Some? && FindByIdWithLock(types, typeId).Some?
              && CountByTicketTypeId(rows, typeId) > Int32Max
    ensures r.result == Failure(TicketsSoldOut) <==>
              && quantity > 0 && FindUserById(users, userId).Some? && FindByIdWithLock(types, typeId).Some?
              && CountByTicketTypeId(rows, typeId) <= Int32Max
              && CountByTicketTypeId(rows, typeId) + quantity as int > FindByIdWithLock(types, typeId).value.totalAvailable as int
    ensures r.result.Success? ==>
              var t := r.result.value;
              && r.rows == rows + [t]
              && t.id == |rows| && t.status == Purchased && t.typeId == typeId
              && t.purchaserId == userId && t.quantity == quantity && quantity >= 1
              && |t.qrCodes| == 1 && qrHook(t.(qrCodes := [])) == Some(t.qrCodes[0])
    ensures r.result.Success? <==>
              && quantity > 0 && FindUserById(users, userId).Some? && FindByIdWithLock(types, typeId).Some?
              && CountByTicketTypeId(rows, typeId) + quantity as int <= FindByIdWithLock(types, typeId).value.totalAvailable as int
              && qrHook(Ticket(|rows|, typeId, userId, Purchased, quantity, [])).Some?
  {
    PurchaseUnder(Exact, rows, users, types, userId, typeId, quantity, qrHook)
  }

  /** The purchase as written and the corrected one agree whenever the
      type's row count plus the quantity fits in an `int`. */
  lemma {:induction false} AsWrittenAgreesWithinRange(rows: seq<Ticket>, users: seq<User>, types: seq<TicketType>,
                                                      userId: Uuid, typeId: Uuid, quantity: int32,
                                                      qrHook: Ticket -> Option<string>)
    requires CountByTicketTypeId(rows, typeId) + quantity as int <= Int32Max
    ensures PurchaseSpecAsWritten(rows, users, types, userId, typeId, quantity, qrHook)
         == PurchaseSpec(rows, users, types, userId, typeId, quantity, qrHook)
  {
    if quantity > 0 && FindByIdWithLock(types, typeId).Some? {
      var n := CountByTicketTypeId(rows, typeId);
      SoldOutAgreesWithinRange(n as int32, quantity, FindByIdWithLock(types, typeId).value.totalAvailable);
    }
  }

  /** More than 2^31 - 1 rows of a type make the count's narrowing throw
      before line 46 is reached, as written and corrected alike, and the
      table stays as it was. */
  lemma CountTooLargeFails(rows: seq<Ticket>, users: seq<User>, types: seq<TicketType>,
                           userId: Uuid, typeId: Uuid, quantity: int32,
                           qrHook: Ticket -> Option<string>)
    requires quantity > 0 && FindUserById(users, userId).Some? && FindByIdWithLock(types, typeId).Some?
    requires CountByTicketTypeId(rows, typeId) > Int32Max
    ensures PurchaseSpecAsWritten(rows, users, types, userId, typeId, quantity, qrHook)
         == PurchaseOutcome(Failure(CountNotAnInt), rows)
    ensures PurchaseSpec(rows, users, types, userId, typeId, quantity, qrHook)
         == PurchaseOutcome(Failure(CountNotAnInt), rows)
  {
  }

  /** Line 46 as written sells past capacity: with all 100 tickets of a type
      sold, a request for 2147483600 passes the test, stores a ticket and
      leaves the type over capacity, where the corrected purchase refuses. */
  lemma {:induction false} AsWrittenPurchaseBreaksCapacity(rows: seq<Ticket>, users: seq<User>, types: seq<TicketType>,
                                                           userId: Uuid, typeId: Uuid,
                                                           qrHook: Ticket -> Option<string>)
    requires FindUserById(users, userId).Some?
    requires FindByIdWithLock(types, typeId).Some? && FindByIdWithLock(types, typeId).value.totalAvailable == 100
    requires CountByTicketTypeId(rows, typeId) == 100
    requires qrHook(Ticket(|rows|, typeId, userId, Purchased, 2147483600, [])).Some?
    ensures PurchaseSpecAsWritten(rows, users, types, userId, typeId, 2147483600, qrHook).result.Success?
    ensures !WithinCapacity(PurchaseSpecAsWritten(rows, users, types, userId, typeId, 2147483600, qrHook).rows, types)
    ensures PurchaseSpec(rows, users, types, userId, typeId, 2147483600, qrHook).result == Failure(TicketsSoldOut)
  {
    SoldOutAsWrittenOverflows();
    var r := PurchaseSpecAsWritten(rows, users, types, userId, typeId, 2147483600, qrHook);
    CountByTypeAppend(rows, r.result.value, typeId);
    var k :| 0 <= k < |types| && types[k] == FindByIdWithLock(types, typeId).value;
    assert CountByTicketTypeId(r.rows, types[k].id) > types[k].totalAvailable as int;
  }

  /** `purchaseTicket` on the ticket table. */
  method PurchaseTicket(tickets: TicketTable, users: UserTable, types: seq<TicketType>,
                        userId: Uuid, typeId: Uuid, quantity: int32,
                        qrHook: Ticket -> Option<string>)
    returns (result: Result<Ticket, PurchaseError>)
    requires tickets.Valid()
    modifies tickets
    ensures tickets.Valid()
    ensures PurchaseOutcome(result, tickets.rows)
         == PurchaseSpec(old(tickets.rows), users.rows, types, userId, typeId, quantity, qrHook)
  {
    if quantity <= 0 {
      return Failure(InvalidQuantity);
    }
    var user := FindUserById(users.rows, userId);
    if user.None? {
      return Failure(UserNotFound);
    }
    var ticketType := FindByIdWithLock(types, typeId);
    if ticketType.None? {
      return Failure(TicketTypeNotFound);
    }
    var purchased := CountByTicketTypeId(tickets.rows, ticketType.value.id);
    if purchased > Int32Max {
      return Failure(CountNotAnInt);
    }
    var totalAvailable := ticketType.value.totalAvailable;
    if SoldOut(purchased, quantity as int, totalAvailable as int) {
      return Failure(TicketsSoldOut);
    }
    var before := tickets.rows;  // the state rollback returns to
    var ticket := Ticket(|tickets.rows|, ticketType.value.id, user.value.id, Purchased, quantity, []);
    var saved := tickets.Insert(ticket);
    var qr := qrHook(saved);
    if qr.None? {
      tickets.rows := before;
      return Failure(QrCodeFailed);
    }
    var withCode := saved.(qrCodes := saved.qrCodes + [qr.value]);
    assert withCode == saved.(qrCodes := [qr.value]);
    var stored := tickets.Save(withCode);
    assert tickets.rows == before + [withCode];
    return Success(stored);
  }

  /** The capacity invariant the row-count test maintains: no ticket type has
      more ticket rows than its `totalAvailable`. */
  ghost predicate WithinCapacity(rows: seq<Ticket>, types: seq<TicketType>) {
    forall k :: 0 <= k < |types| ==> CountByTicketTypeId(rows, types[k].id) <= types[k].totalAvailable as int
  }

  /** Every purchase keeps the invariant: a success adds one row to a type
      whose row count plus the quantity (at least 1) was within capacity. */
  lemma {:induction false} PurchasePreservesCapacity(rows: seq<Ticket>, users: seq<User>, types: seq<TicketType>,
                                                     userId: Uuid, typeId: Uuid, quantity: int32,
                                                     qrHook: Ticket -> Option<string>)
    requires UniqueTypeIds(types)
    requires WithinCapacity(rows, types)
    ensures WithinCapacity(PurchaseSpec(rows, users, types, userId, typeId, quantity, qrHook).rows, types)
  {
    var r := PurchaseSpec(rows, users, types, userId, typeId, quantity, qrHook);
    if r.result.Success? {
      var t := r.result.value;
      var tt := FindByIdWithLock(types, typeId).value;
      forall k | 0 <= k < |types|
        ensures CountByTicketTypeId(r.rows, types[k].id) <= types[k].totalAvailable as int
      {
        CountByTypeAppend(rows, t, types[k].id);
        if types[k].id == typeId {
          FindByIdWithLockUnique(types, k);
        }
      }
    }
  }

  /** `n` purchases of one ticket each, by `buyers` in order: the table
      afterwards and the number that succeeded. */
  function PurchaseRun(rows: seq<Ticket>, users: seq<User>, types: seq<TicketType>,
                       buyers: seq<Uuid>, typeId: Uuid, qrHook: Ticket -> Option<string>): (r: (seq<Ticket>, nat))
    ensures r.1 <= |buyers|
    decreases |buyers|
  {
    if buyers == [] then (rows, 0)
    else
      var step := PurchaseSpec(rows, users, types, buyers[0], typeId, 1, qrHook);
      var rest := PurchaseRun(step.rows, users, types, buyers[1..], typeId, qrHook);
      (rest.0, rest.1 + (if step.result.Success? then 1 else 0))
  }

  /** No oversell with single-unit purchases: of `M` buyers against a type
      with `K` tickets left, exactly `min(M, K)` succeed, and the row count
      ends at most at the capacity. */
  lemma {:induction false} SingleUnitPurchasesSellOutExactly(rows: seq<Ticket>, users: seq<User>, types: seq<TicketType>,
                                                             buyers: seq<Uuid>, typeId: Uuid,
                                                             qrHook: Ticket -> Option<string>)
    requires FindByIdWithLock(types, typeId).Some?
    requires forall i :: 0 <= i < |buyers| ==> FindUserById(users, buyers[i]).Some?
    requires forall t: Ticket :: qrHook(t).Some?
    requires CountByTicketTypeId(rows, typeId) <= FindByIdWithLock(types, typeId).value.totalAvailable as int
    ensures var left := FindByIdWithLock(types, typeId).value.totalAvailable as int - CountByTicketTypeId(rows, typeId);
            var run := PurchaseRun(rows, users, types, buyers, typeId, qrHook);
            && run.1 == (if |buyers| <= left then |buyers| else left)
            && CountByTicketTypeId(run.0, typeId) == CountByTicketTypeId(rows, typeId) + run.1
    decreases |buyers|
  {
    if buyers != [] {
      var step := PurchaseSpec(rows, users, types, buyers[0], typeId, 1, qrHook);
      if step.result.Success? {
        CountByTypeAppend(rows, step.result.value, typeId);
      }
      SingleUnitPurchasesSellOutExactly(step.rows, users, types, buyers[1..], typeId, qrHook);
    }
  }

  /** The test counts rows, not units: after one purchase of the whole
      capacity, a second purchase still succeeds, so more units are out than
      `totalAvailable`. */
  lemma QuantityIsNotCounted(user: User, typeId: Uuid, organizerId: Uuid, qrHook: Ticket -> Option<string>)
    requires forall t: Ticket :: qrHook(t).Some?
    ensures var types := [TicketType(typeId, 5, organizerId)];
            var first := PurchaseSpec([], [user], types, user.id, typeId, 5, qrHook);
            var second := PurchaseSpec(first.rows, [user], types, user.id, typeId, 1, qrHook);
            && first.result.Success? && second.result.Success?
            && first.result.value.quantity as int + second.result.value.quantity as int > 5
  {
    var types := [TicketType(typeId, 5, organizerId)];
    assert FindUserById([user], user.id).Some?;
    assert FindByIdWithLock(types, typeId).Some?;
    var first := PurchaseSpec([], [user], types, user.id, typeId, 5, qrHook);
    assert CountByTicketTypeId(first.rows, typeId) == 1 by {
      CountByTypeAppend([], first.result.value, typeId);
    }
  }

  // ------------------------------------------------------- TicketTypeController

  /** The optional request body `{ "quantity": … }`. */
  datatype PurchaseRequest = PurchaseRequest(quantity: Option<int32>)

  /** The quantity the endpoint passes on: the body's, or 1 when the body or
      its quantity is missing. */
  function RequestedQuantity(request: Option<PurchaseRequest>): (q: int32)
    ensures request.Some? && request.value.quantity.Some? ==> q == request.value.quantity.value
    ensures request.None? || request.value.quantity.None? ==> q == 1
  {
    match request
    case Some(PurchaseRequest(Some(q))) => q
    case _ => 1
  }

  datatype PurchaseResponse =
    | NoContent                          // 204
    | PurchaseFailed(error: PurchaseError)
    | SubjectMissing                     // parseUserId throws NullPointerException

  /** `POST /api/v1/events/{eventId}/ticket-types/{ticketTypeId}/tickets`. */
  method PurchaseEndpoint(tickets: TicketTable, users: UserTable, types: seq<TicketType>,
                          codec: UuidCodec, jwt: Jwt, typeId: Uuid, request: Option<PurchaseRequest>,
                          qrHook: Ticket -> Option<string>)
    returns (response: PurchaseResponse)
    requires tickets.Valid()
    modifies tickets
    ensures tickets.Valid()
    ensures jwt.subject.None? ==> response == SubjectMissing && tickets.rows == old(tickets.rows)
    ensures jwt.subject.Some? ==>
              var spec := PurchaseSpec(old(tickets.rows), users.rows, types, ResolveUserId(codec, jwt.subject.value),
                                       typeId, RequestedQuantity(request), qrHook);
              && tickets.rows == spec.rows
              && (response == NoContent <==> spec.result.Success?)
              && (spec.result.Failure? ==> response == PurchaseFailed(spec.result.error))
  {
    var quantity := RequestedQuantity(request);
    var userId := ParseUserId(codec, jwt);
    if userId.None? {
      return SubjectMissing;
    }
    var result := PurchaseTicket(tickets, users, types, userId.value, typeId, quantity, qrHook);
    if result.Success? {
      response := NoContent;
    } else {
      response := PurchaseFailed(result.error);
    }
  }
}

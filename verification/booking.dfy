/** The order service (internal/service/order.service.go): pricing and
    creating an order, and the copies of repository rows into response
    structs. `CreateOrder`, the repository method the service calls to
    persist an order, is not defined in order.repository.go; the
    composition modelled here is an assumption: price lookup,
    `InsertOrder`, then one `InsertOrderDetail` per seat, all undone in one
    transaction when any step fails. */
module Booking {
  import opened Wrappers
  import opened GoConv
  import opened Seqs
  import opened Ledger
  import opened Sorting

  /** The body of `POST /orders`. */
  datatype CreateOrderRequest = CreateOrderRequest(scheduleId: int, seats: seq<int>, paymentMethod: string)

  /** What the service's `CreateOrder` returns: id, booking code and
      creation time, or zeros and the error. */
  datatype Created = Created(id: int, bookingCode: string, createdAt: int, err: Option<string>)

  /** Where the database refuses a write during order creation, if it does:
      the order header (`drawn` when the refusal came after the header's id
      was taken from the serial), or the line of the `index`-th seat. */
  datatype Fault = NoFault | HeaderFails(error: string, drawn: bool) | LineFails(index: nat, error: string)

  /** What the database decides on its own: the booking code
      (`md5(random()::text)`), the `created_at` clock reading and a fault. */
  datatype Env = Env(bookingCode: string, now: int, fault: Fault)

  /** `price * len(req.Seats)` in a 64-bit Go `int`. */
  function TotalPrice(price: int, count: nat): (t: int)
    ensures InInt64(t)
    ensures (t - price * count) % TwoTo64 == 0
    ensures InInt64(price * count) ==> t == price * count
  {
    Wrap64(price * count)
  }

  /** Every seat in the list is charged, a repeated seat as often as it
      appears: one more seat adds one more price (in 64-bit arithmetic),
      and no seat costs nothing. */
  lemma TotalPerSeat(price: int, seats: seq<int>, seat: int)
    requires InInt64(price)
    ensures TotalPrice(price, |seats + [seat]|) == Wrap64(TotalPrice(price, |seats|) + price)
    ensures TotalPrice(price, 0) == 0
    ensures TotalPrice(price, |[seat, seat]|) == Wrap64(2 * price)
  {
    var n := |seats|;
    var t := TotalPrice(price, n);
    assert price * (n + 1) == price * n + price;
    assert ((price * (n + 1)) - (t + price)) % TwoTo64 == 0 by {
      assert (price * (n + 1)) - (t + price) == price * n - t;
      assert (price * n - t) % TwoTo64 == 0 by {
        ModSum(0, t - price * n, 0);
      }
    }
    Wrap64Congruent(price * (n + 1), t + price);
  }

  /** The order row the service hands to the repository: the user, the
      screening and the total, with status 'pending' and no payment method. */
  function Draft(userId: int, req: CreateOrderRequest, price: int): (o: Order)
    ensures o.userId == userId && o.scheduleId == req.scheduleId
    ensures o.totalPrice == TotalPrice(price, |req.seats|)
    ensures o.paymentStatus == Pending && o.paymentMethod.None?
  {
    Order(0, userId, req.scheduleId, "", TotalPrice(price, |req.seats|), None, Pending, ZeroTime)
  }

  function LineFailure(fault: Fault, k: nat): Option<string> {
    if fault.LineFails? && fault.index == k then Some(fault.error) else None
  }

  /** `InsertOrderDetail(orderId, seats[k])` for k = done, done + 1, ...,
      stopping at the first refused line. On success the lines are exactly
      the remaining seats, in request order, duplicates included. */
  function InsertLines(db: Db, orderId: int, seats: seq<int>, done: nat, fault: Fault): (r: (Db, Option<string>))
    requires done <= |seats|
    ensures r.0 == db.(details := r.0.details)
    ensures r.1.None? <==> !(fault.LineFails? && done <= fault.index < |seats|)
    ensures r.1.Some? ==> r.1 == Some(fault.error)
    ensures r.1.None? ==>
      && |r.0.details| == |db.details| + |seats| - done
      && r.0.details[..|db.details|] == db.details
      && forall j :: |db.details| <= j < |r.0.details| ==> r.0.details[j] == OrderDetail(orderId, seats[done + j - |db.details|])
    decreases |seats| - done
  {
    if done == |seats| then (db, None)
    else
      var (db1, err) := InsertOrderDetail(db, orderId, seats[done], LineFailure(fault, done));
      if err.Some? then (db1, err)
      else
        var r := InsertLines(db1, orderId, seats, done + 1, fault);
        if r.1.Some? then r
        else
          assert r.0.details[..|db.details|] == r.0.details[..|db1.details|][..|db.details|];
          r
  }

  /** The service's `CreateOrder`. An unknown screening fails before any
      write; a refused write leaves every table as it was (only the id
      serial may have advanced, as a PostgreSQL sequence does); success adds
      one 'pending' order carrying the database's id, booking code and time,
      and one line per requested seat. */
  function CreateOrder(db: Db, userId: int, req: CreateOrderRequest, env: Env): (r: (Db, Created))
    ensures GetPriceFromSchedule(db, req.scheduleId).1.Some? ==>
      r == (db, Created(0, "", ZeroTime, Some(ErrNoRows)))
    ensures r.1.err.Some? ==>
      && r.1 == Created(0, "", ZeroTime, r.1.err)
      && r.0 == db.(nextOrderId := r.0.nextOrderId)
      && r.0.nextOrderId >= db.nextOrderId
    ensures GetPriceFromSchedule(db, req.scheduleId).1.None? && env.fault.HeaderFails? ==>
      && r.0 == db.(nextOrderId := r.0.nextOrderId)
      && r.0.nextOrderId == (if env.fault.drawn then db.nextOrderId + 1 else db.nextOrderId)
    ensures r.1.err.None? <==>
      && GetPriceFromSchedule(db, req.scheduleId).1.None?
      && !env.fault.HeaderFails?
      && !(env.fault.LineFails? && env.fault.index < |req.seats|)
    ensures r.1.err.None? ==>
      && r.1 == Created(db.nextOrderId, env.bookingCode, env.now, None)
      && r.0.orders == db.orders + [Order(db.nextOrderId, userId, req.scheduleId, env.bookingCode,
                                          TotalPrice(GetPriceFromSchedule(db, req.scheduleId).0, |req.seats|),
                                          None, Pending, env.now)]
      && |r.0.details| == |db.details| + |req.seats|
      && r.0.details[..|db.details|] == db.details
      && (forall j :: |db.details| <= j < |r.0.details| ==> r.0.details[j] == OrderDetail(db.nextOrderId, req.seats[j - |db.details|]))
      && r.0 == db.(orders := r.0.orders, details := r.0.details, nextOrderId := db.nextOrderId + 1)
  {
    var (price, err) := GetPriceFromSchedule(db, req.scheduleId);
    if err.Some? then (db, Created(0, "", ZeroTime, err))
    else
      var headerFailure := if env.fault.HeaderFails? then Some(Refusal(env.fault.error, env.fault.drawn)) else None;
      var (db1, ins) := InsertOrder(db, Draft(userId, req, price), env.bookingCode, env.now, headerFailure);
      if ins.err.Some? then (db1, Created(0, "", ZeroTime, ins.err))
      else
        var (db2, lineErr) := InsertLines(db1, ins.id, req.seats, 0, env.fault);
        if lineErr.Some? then (db.(nextOrderId := db1.nextOrderId), Created(0, "", ZeroTime, lineErr))
        else (db2, Created(ins.id, ins.bookingCode, ins.createdAt, None))
  }

  /** The payment method of the request plays no part: two requests that
      differ only in it create the same order. */
  lemma PaymentMethodIgnored(db: Db, userId: int, req: CreateOrderRequest, pm: string, env: Env)
    ensures CreateOrder(db, userId, req, env) == CreateOrder(db, userId, req.(paymentMethod := pm), env)
  {
  }

  /** Creating an order keeps the schema's guarantees. */
  lemma CreateOrderValid(db: Db, userId: int, req: CreateOrderRequest, env: Env)
    requires Valid(db)
    ensures Valid(CreateOrder(db, userId, req, env).0)
  {
    var r := CreateOrder(db, userId, req, env);
    if r.1.err.None? {
      var db' := r.0;
      forall j | 0 <= j < |db'.details| ensures db'.details[j].orderId < db'.nextOrderId {
        if j < |db.details| {
          assert db'.details[j] == db.details[j];
        } else {
          assert db'.details[j] == OrderDetail(db.nextOrderId, req.seats[j - |db.details|]);
        }
      }
      assert forall i :: 0 <= i < |db.orders| ==> db'.orders[i] == db.orders[i];
    }
  }

  /** A pending order never occupies a seat: right after an order is created
      every screening's seat listing is what it was before. */
  lemma {:induction false} CreatedOrderSellsNothing(db: Db, userId: int, req: CreateOrderRequest, env: Env, scheduleId: int,
                                                   collate: Collate)
    requires Valid(db) && TotalPreorder(collate)
    ensures GetSeatsByScheduleID(CreateOrder(db, userId, req, env).0, scheduleId, collate) == GetSeatsByScheduleID(db, scheduleId, collate)
  {
    var db' := CreateOrder(db, userId, req, env).0;
    forall seatId ensures SeatSold(db', scheduleId, seatId) <==> SeatSold(db, scheduleId, seatId) {
      if CreateOrder(db, userId, req, env).1.err.None? {
        if SeatSold(db', scheduleId, seatId) {
          var i, j :| 0 <= i < |db'.orders| && 0 <= j < |db'.details|
            && db'.orders[i].scheduleId == scheduleId && db'.orders[i].paymentStatus == Paid
            && db'.details[j].orderId == db'.orders[i].id && db'.details[j].seatId == seatId;
          assert i < |db.orders| && db'.orders[i] == db.orders[i];
          assert db.orders[i].id < db.nextOrderId;
          assert j < |db.details|;
          assert db'.details[j] == db.details[j];
        }
        if SeatSold(db, scheduleId, seatId) {
          var i, j :| 0 <= i < |db.orders| && 0 <= j < |db.details|
            && db.orders[i].scheduleId == scheduleId && db.orders[i].paymentStatus == Paid
            && db.details[j].orderId == db.orders[i].id && db.details[j].seatId == seatId;
          assert db'.orders[i] == db.orders[i];
          assert db'.details[j] == db.details[j];
        }
      }
    }
    SameSoldSameView(db', db, scheduleId, collate);
  }

  /** The service's seat response, field for field. */
  datatype SeatResponse = SeatResponse(seatId: int, rowLetter: string, seatNumber: int, seatType: string, status: string)

  function ToSeatResponse(s: SeatRow): SeatResponse {
    SeatResponse(s.seatId, s.rowLetter, s.seatNumber, s.seatType, s.status)
  }

  function FromSeatResponse(s: SeatResponse): SeatRow {
    SeatRow(s.seatId, s.rowLetter, s.seatNumber, s.seatType, s.status)
  }

  /** The service's schedule response, field for field. */
  datatype ScheduleResponse = ScheduleResponse(
    id: int, showDate: string, showTime: string, price: int,
    cinemaId: int, cinemaName: string, cinemaLogo: string, cinemaLocation: string, cinemaCity: string)

  function ToScheduleResponse(s: ScheduleRow): ScheduleResponse {
    ScheduleResponse(s.id, s.showDate, s.showTime, s.price, s.cinemaId, s.cinemaName, s.cinemaLogo, s.cinemaLocation, s.cinemaCity)
  }

  function FromScheduleResponse(s: ScheduleResponse): ScheduleRow {
    ScheduleRow(s.id, s.showDate, s.showTime, s.price, s.cinemaId, s.cinemaName, s.cinemaLogo, s.cinemaLocation, s.cinemaCity)
  }

  /** The service's `GetSeatsByScheduleID`: a repository error is passed on;
      the rows are copied in order. */
  function GetSeats(repo: Result<seq<SeatRow>>): (r: Result<seq<SeatResponse>>)
    ensures repo.Err? <==> r.Err?
    ensures repo.Err? ==> r.error == repo.error
    ensures repo.Ok? ==> |r.value| == |repo.value| && forall k :: 0 <= k < |r.value| ==> FromSeatResponse(r.value[k]) == repo.value[k]
  {
    match repo
    case Err(e) => Err(e)
    case Ok(rows) => Ok(Map(rows, ToSeatResponse))
  }

  /** The service's `GetSchedules`, likewise. */
  function GetSchedules(repo: Result<seq<ScheduleRow>>): (r: Result<seq<ScheduleResponse>>)
    ensures repo.Err? <==> r.Err?
    ensures repo.Err? ==> r.error == repo.error
    ensures repo.Ok? ==> |r.value| == |repo.value| && forall k :: 0 <= k < |r.value| ==> FromScheduleResponse(r.value[k]) == repo.value[k]
  {
    match repo
    case Err(e) => Err(e)
    case Ok(rows) => Ok(Map(rows, ToScheduleResponse))
  }

  /** The seat responses are the repository rows: reading the fields back
      gives the rows in the same order, status included. */
  lemma SeatResponsesRoundTrip(rows: seq<SeatRow>)
    ensures Map(GetSeats(Ok(rows)).value, FromSeatResponse) == rows
  {
  }

  lemma ScheduleResponsesRoundTrip(rows: seq<ScheduleRow>)
    ensures Map(GetSchedules(Ok(rows)).value, FromScheduleResponse) == rows
  {
  }
}

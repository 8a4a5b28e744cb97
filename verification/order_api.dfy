/** The order handlers (internal/controller/order.controller.go): schedules
    and seats of a screening, order creation and payment-status update. The
    service's answers are inputs; each handler reports the call it makes. */
module OrderApi {
  import opened Wrappers
  import opened GoConv
  import opened Http
  import Booking

  /** The query value `c.Query(name)` returns ("" when absent), read as a
      filter: empty means no filter (a nil pointer), anything else is
      passed on as given. */
  function OptionalQuery(q: string): (f: Option<string>)
    ensures f.None? <==> q == ""
    ensures f.GetOr("") == q
  {
    if q == "" then None else Some(q)
  }

  /** The filter reads back as the query it came from. */
  lemma OptionalQueryRoundTrip(f: Option<string>)
    requires f.Some? ==> f.value != ""
    ensures OptionalQuery(f.GetOr("")) == f
  {
  }

  datatype SchedulesCall = SchedulesCall(movieId: int, showDate: Option<string>, city: Option<string>)

  /** `GET /orders/schedules/:id?date=&city=`. */
  function GetSchedules(idParam: string, date: string, city: string, answer: Result<seq<Booking.ScheduleResponse>>)
    : (x: Exchange<SchedulesCall, seq<Booking.ScheduleResponse>>)
    ensures x.call.Some? <==> ParseId(idParam).Some?
    ensures x.call.None? ==> x.reply == Failure(StatusBadRequest, "Invalid movie_id parameter", AtoiErrorText(idParam), EmptyList)
    ensures x.call.Some? ==> x.call.value == SchedulesCall(ParseId(idParam).value, OptionalQuery(date), OptionalQuery(city))
    ensures x.call.Some? && answer.Err? ==> x.reply == Failure(StatusInternalServerError, "Internal Server Error", answer.error, EmptyList)
    ensures x.call.Some? && answer.Ok? ==> x.reply == Success(StatusOK, "Get Schedules Success", SliceData(answer.value))
  {
    match ParseId(idParam)
    case None => Exchange(None, Failure(StatusBadRequest, "Invalid movie_id parameter", AtoiErrorText(idParam), EmptyList))
    case Some(movieId) =>
      var call := SchedulesCall(movieId, OptionalQuery(date), OptionalQuery(city));
      match answer
      case Err(e) => Exchange(Some(call), Failure(StatusInternalServerError, "Internal Server Error", e, EmptyList))
      case Ok(rows) => Exchange(Some(call), Success(StatusOK, "Get Schedules Success", SliceData(rows)))
  }

  /** End to end, as written: a `date` the database cannot read as a day
      is answered 200 "Get Schedules Success" with null data, the same
      reply as a day with no screenings, because the repository never reads
      the error the cast leaves in `rows.Err()`. */
  lemma BadDateAnswersEmpty(db: Booking.Ledger.Db, idParam: string, date: string, city: string, cast: Booking.Ledger.DateCast)
    requires ParseId(idParam).Some? && date != "" && cast(date).Err?
    ensures var x := GetSchedules(idParam, date, city,
                                  Booking.GetSchedules(Booking.Ledger.GetSchedules(db, ParseId(idParam).value, OptionalQuery(date), OptionalQuery(city), cast)));
      && x.call == Some(SchedulesCall(ParseId(idParam).value, Some(date), OptionalQuery(city)))
      && x.reply == Success(StatusOK, "Get Schedules Success", Null)
  {
  }

  /** End to end, with `rows.Err()` checked: the refused date reaches the
      handler as the query's error and is answered 500 with the cast's own
      error text; the call still carries the raw text. */
  lemma BadDateIsServerError(db: Booking.Ledger.Db, idParam: string, date: string, city: string, cast: Booking.Ledger.DateCast)
    requires ParseId(idParam).Some? && date != "" && cast(date).Err?
    ensures var x := GetSchedules(idParam, date, city,
                                  Booking.GetSchedules(Booking.Ledger.GetSchedulesChecked(db, ParseId(idParam).value, OptionalQuery(date), OptionalQuery(city), cast)));
      && x.call == Some(SchedulesCall(ParseId(idParam).value, Some(date), OptionalQuery(city)))
      && x.reply == Failure(StatusInternalServerError, "Internal Server Error", cast(date).error, EmptyList)
  {
  }

  /** `GET /orders/seats/:id`; the call carries the screening id. */
  function GetSeats(idParam: string, answer: Result<seq<Booking.SeatResponse>>): (x: Exchange<int, seq<Booking.SeatResponse>>)
    ensures x.call.Some? <==> ParseId(idParam).Some?
    ensures x.call.None? ==> x.reply == Failure(StatusBadRequest, "Invalid schedule_id parameter", AtoiErrorText(idParam), EmptyList)
    ensures x.call.Some? ==> x.call.value == ParseId(idParam).value
    ensures x.call.Some? && answer.Err? ==> x.reply == Failure(StatusInternalServerError, "Internal Server Error", answer.error, EmptyList)
    ensures x.call.Some? && answer.Ok? ==> x.reply == Success(StatusOK, "Get Seats Success", SliceData(answer.value))
  {
    match ParseId(idParam)
    case None => Exchange(None, Failure(StatusBadRequest, "Invalid schedule_id parameter", AtoiErrorText(idParam), EmptyList))
    case Some(scheduleId) =>
      match answer
      case Err(e) => Exchange(Some(scheduleId), Failure(StatusInternalServerError, "Internal Server Error", e, EmptyList))
      case Ok(rows) => Exchange(Some(scheduleId), Success(StatusOK, "Get Seats Success", SliceData(rows)))
  }

  /** The decoded `CreateOrderRequest`: `seats` is None when absent or
      `null` (a nil slice), which differs from `[]`. */
  datatype CreateOrderJson = CreateOrderJson(scheduleId: int, seats: Option<seq<int>>, paymentMethod: string)

  /** `ShouldBindJSON` with `binding:"required"` on all three fields: a zero
      schedule id, a nil seat list and an empty payment method each fail;
      an empty but present seat list passes. */
  function BindCreateOrder(body: Body<CreateOrderJson>): (r: Result<Booking.CreateOrderRequest>)
    ensures r.Ok? <==> body.Decoded? && body.value.scheduleId != 0 && body.value.seats.Some? && body.value.paymentMethod != ""
    ensures r.Ok? ==> r.value == Booking.CreateOrderRequest(body.value.scheduleId, body.value.seats.value, body.value.paymentMethod)
    ensures body.Malformed? ==> r == Err(body.message)
  {
    match body
    case Malformed(m) => Err(m)
    case Decoded(j) =>
      var failed :=
        (if j.scheduleId == 0 then [RequiredError("CreateOrderRequest", "ScheduleId")] else [])
        + (if j.seats.None? then [RequiredError("CreateOrderRequest", "Seats")] else [])
        + (if j.paymentMethod == "" then [RequiredError("CreateOrderRequest", "PaymentMethod")] else []);
      if |failed| > 0 then Err(JoinLines(failed))
      else Ok(Booking.CreateOrderRequest(j.scheduleId, j.seats.value, j.paymentMethod))
  }

  /** The data of a 201 from `CreateOrder`. */
  datatype OrderCreated = OrderCreated(id: int, bookingCode: string, createdAt: int)

  /** `POST /orders`: the user gate first, then the body, then the service;
      the service is called with the authenticated user and the bound body. */
  function CreateOrder(user: CtxValue, body: Body<CreateOrderJson>, answer: Booking.Created)
    : (x: Exchange<(int, Booking.CreateOrderRequest), OrderCreated>)
    ensures x.call.Some? <==> user.IntValue? && BindCreateOrder(body).Ok?
    ensures user.Missing? ==> x.reply.status == StatusUnauthorized
    ensures user.OtherValue? ==> x.reply.status == StatusInternalServerError
    ensures user.IntValue? && BindCreateOrder(body).Err? ==>
      x.reply == Failure(StatusBadRequest, "Bad Request", BindCreateOrder(body).error, Null)
    ensures x.call.Some? ==> x.call.value == (user.n, BindCreateOrder(body).value)
    ensures x.call.Some? && answer.err.Some? ==>
      x.reply == Failure(StatusInternalServerError, "Internal Server Error", answer.err.value, Null)
    ensures x.call.Some? && answer.err.None? ==>
      x.reply == Success(StatusCreated, "Create Order Success", Payload(OrderCreated(answer.id, answer.bookingCode, answer.createdAt)))
  {
    match UserGate(user)
    case Stop(reply) => Exchange(None, reply)
    case Pass(userId) =>
      match BindCreateOrder(body)
      case Err(e) => Exchange(None, Failure(StatusBadRequest, "Bad Request", e, Null))
      case Ok(req) =>
        if answer.err.Some? then Exchange(Some((userId, req)), Failure(StatusInternalServerError, "Internal Server Error", answer.err.value, Null))
        else Exchange(Some((userId, req)), Success(StatusCreated, "Create Order Success", Payload(OrderCreated(answer.id, answer.bookingCode, answer.createdAt))))
  }

  /** End to end: when the handler's call reaches the order service and the
      database accepts every write, the 201 carries the new order's id, the
      database's booking code and its clock reading, and the ledger holds
      that order as 'pending'. */
  lemma CreateOrderEndToEnd(db: Booking.Ledger.Db, userId: int, json: CreateOrderJson, env: Booking.Env)
    requires BindCreateOrder(Decoded(json)).Ok?
    requires Booking.CreateOrder(db, userId, BindCreateOrder(Decoded(json)).value, env).1.err.None?
    ensures var (db', created) := Booking.CreateOrder(db, userId, BindCreateOrder(Decoded(json)).value, env);
      && CreateOrder(IntValue(userId), Decoded(json), created).reply.data == Payload(OrderCreated(db.nextOrderId, env.bookingCode, env.now))
      && db'.orders[|db.orders|].paymentStatus == Booking.Ledger.Pending
      && db'.orders[|db.orders|].id == db.nextOrderId
  {
  }

  datatype UpdateOrderJson = UpdateOrderJson(paymentStatus: string)

  /** `PATCH /orders/:id`: the id, then the body (`payment_status` is
      required, so only the empty string is refused), then the service,
      which receives the status string exactly as sent. */
  function UpdatePaymentStatus(idParam: string, body: Body<UpdateOrderJson>, answer: Option<string>)
    : (x: Exchange<(int, string), ()>)
    ensures x.call.Some? <==> ParseId(idParam).Some? && body.Decoded? && body.value.paymentStatus != ""
    ensures ParseId(idParam).None? ==> x.reply == Failure(StatusBadRequest, "Invalid order_id parameter", AtoiErrorText(idParam), Null)
    ensures ParseId(idParam).Some? && body.Malformed? ==> x.reply == Failure(StatusBadRequest, "Bad Request", body.message, Null)
    ensures ParseId(idParam).Some? && body.Decoded? && body.value.paymentStatus == "" ==>
      x.reply == Failure(StatusBadRequest, "Bad Request", RequiredError("UpdateOrderRequest", "PaymentStatus"), Null)
    ensures x.call.Some? ==> x.call.value == (ParseId(idParam).value, body.value.paymentStatus)
    ensures x.call.Some? && answer.Some? ==> x.reply == Failure(StatusInternalServerError, "Internal Server Error", answer.value, Null)
    ensures x.call.Some? && answer.None? ==> x.reply == Success(StatusOK, "Update Payment Status Success", Null)
  {
    match ParseId(idParam)
    case None => Exchange(None, Failure(StatusBadRequest, "Invalid order_id parameter", AtoiErrorText(idParam), Null))
    case Some(orderId) =>
      match body
      case Malformed(m) => Exchange(None, Failure(StatusBadRequest, "Bad Request", m, Null))
      case Decoded(j) =>
        if j.paymentStatus == "" then
          Exchange(None, Failure(StatusBadRequest, "Bad Request", RequiredError("UpdateOrderRequest", "PaymentStatus"), Null))
        else
          var call := (orderId, j.paymentStatus);
          match answer
          case Some(e) => Exchange(Some(call), Failure(StatusInternalServerError, "Internal Server Error", e, Null))
          case None => Exchange(Some(call), Success(StatusOK, "Update Payment Status Success", Null))
  }

  /** Any non-empty status is forwarded, valid or not ("refunded", "PAID",
      " paid"): the handler checks nothing about its value, and Itoa-printed
      ids reach the service unchanged. */
  lemma StatusForwardedRaw(orderId: int, status: string)
    requires InInt64(orderId) && status != ""
    ensures UpdatePaymentStatus(Itoa(orderId), Decoded(UpdateOrderJson(status)), None).call == Some((orderId, status))
  {
    AtoiItoa(orderId);
  }
}

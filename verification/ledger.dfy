/** The booking ledger: the tables the order flow reads and writes and the
    statements of the order repository (internal/repository/order.repository.go)
    over them. The database is an immutable value; a write returns the new
    value together with what Go returns. */
module Ledger {
  import opened Wrappers
  import opened GoStrings
  import opened Sorting
  import opened Seqs

  /** Go's zero `time.Time`, returned beside errors. Timestamps are integers. */
  const ZeroTime: int := 0
  /** The message of pgx.ErrNoRows, which `QueryRow(...).Scan` reports when no row matches. */
  const ErrNoRows: string := "no rows in result set"
  const Paid: string := "paid"
  const Pending: string := "pending"
  const Sold: string := "sold"
  const Available: string := "available"

  datatype City = City(id: int, name: string)
  datatype Cinema = Cinema(id: int, name: string, logoUrl: string, location: string, cityId: int)
  /** A screening. Dates and times are ISO text ("2024-05-01", "19:30:00"). */
  datatype Schedule = Schedule(id: int, movieId: int, cinemaId: int, showDate: string, showTime: string, price: int)
  /** A physical seat of a cinema, independent of any screening. */
  datatype Seat = Seat(id: int, cinemaId: int, rowLetter: string, seatNumber: int, seatType: string)
  /** A row of `orders`. `paymentMethod` is None when the column was never written. */
  datatype Order = Order(
    id: int, userId: int, scheduleId: int, bookingCode: string, totalPrice: int,
    paymentMethod: Option<string>, paymentStatus: string, createdAt: int)
  /** A row of `order_details`: one seat of one order. */
  datatype OrderDetail = OrderDetail(orderId: int, seatId: int)

  /** The database: each table as its rows; `nextOrderId` is the next value
      of the `orders.id` serial sequence. */
  datatype Db = Db(
    cities: seq<City>, cinemas: seq<Cinema>, schedules: seq<Schedule>, seats: seq<Seat>,
    orders: seq<Order>, details: seq<OrderDetail>, nextOrderId: int)

  /** What the schema guarantees about orders: ids are unique and below the
      serial counter, and every order line points below it too (it refers to
      an order that was inserted). */
  predicate Valid(db: Db) {
    && (forall i :: 0 <= i < |db.orders| ==> db.orders[i].id < db.nextOrderId)
    && (forall j :: 0 <= j < |db.details| ==> db.details[j].orderId < db.nextOrderId)
    && (forall i, j :: 0 <= i < j < |db.orders| ==> db.orders[i].id != db.orders[j].id)
  }

  function ScheduleKey(s: Schedule): int { s.id }
  function CinemaKey(c: Cinema): int { c.id }
  function CityKey(c: City): int { c.id }

  // ---------------------------------------------------------------------
  // GetPriceFromSchedule

  /** `SELECT price FROM schedules WHERE id = $1`: the price, or pgx's
      no-rows error with the untouched zero price. */
  function GetPriceFromSchedule(db: Db, scheduleId: int): (r: (int, Option<string>))
    ensures r.1.None? <==> exists i :: 0 <= i < |db.schedules| && db.schedules[i].id == scheduleId
    ensures r.1.None? ==> exists i :: 0 <= i < |db.schedules| && db.schedules[i].id == scheduleId && db.schedules[i].price == r.0
    ensures r.1.Some? ==> r == (0, Some(ErrNoRows))
  {
    match FindBy(db.schedules, ScheduleKey, scheduleId)
    case Some(s) => (s.price, None)
    case None => (0, Some(ErrNoRows))
  }

  // ---------------------------------------------------------------------
  // InsertOrder, InsertOrderDetail

  /** What `InsertOrder` returns: the new id, booking code and creation time,
      or zeros and the error. */
  datatype Inserted = Inserted(id: int, bookingCode: string, createdAt: int, err: Option<string>)

  /** A refused `INSERT`: the error, and whether the statement had already
      drawn its id from the serial. A constraint violation is raised after
      `nextval`, and a sequence is never rolled back, so such a refusal
      still uses up one id. */
  datatype Refusal = Refusal(error: string, drawn: bool)

  /** `InsertOrder`: one `orders` row from the user, schedule, total and
      status of `order`; the database supplies the id (its serial), the
      booking code (`md5(random()::text)`, passed in as `bookingCode`) and
      `created_at` (passed in as `now`). `failure` is a refusal the
      database raises instead. */
  function InsertOrder(db: Db, order: Order, bookingCode: string, now: int, failure: Option<Refusal>): (r: (Db, Inserted))
    ensures failure.Some? ==>
      && r.0 == db.(nextOrderId := r.0.nextOrderId)
      && r.0.nextOrderId == (if failure.value.drawn then db.nextOrderId + 1 else db.nextOrderId)
      && r.1 == Inserted(0, "", ZeroTime, Some(failure.value.error))
    ensures failure.None? ==> r.1 == Inserted(db.nextOrderId, bookingCode, now, None)
    ensures failure.None? ==>
      && |r.0.orders| == |db.orders| + 1
      && r.0.orders[..|db.orders|] == db.orders
      && var row := r.0.orders[|db.orders|];
         && row.id == r.1.id && row.bookingCode == bookingCode && row.createdAt == now
         && row.userId == order.userId && row.scheduleId == order.scheduleId
         && row.totalPrice == order.totalPrice && row.paymentStatus == order.paymentStatus
         && row.paymentMethod.None?
    ensures r.0.details == db.details && r.0.seats == db.seats
    ensures r.0.schedules == db.schedules && r.0.cinemas == db.cinemas && r.0.cities == db.cities
  {
    if failure.Some? then
      (db.(nextOrderId := if failure.value.drawn then db.nextOrderId + 1 else db.nextOrderId), Inserted(0, "", ZeroTime, Some(failure.value.error)))
    else
      var row := Order(db.nextOrderId, order.userId, order.scheduleId, bookingCode,
                       order.totalPrice, None, order.paymentStatus, now);
      (db.(orders := db.orders + [row], nextOrderId := db.nextOrderId + 1),
       Inserted(db.nextOrderId, bookingCode, now, None))
  }

  /** The id `InsertOrder` hands out belongs to no existing order and no
      existing order line, and the schema guarantees still hold after it. */
  lemma InsertOrderFresh(db: Db, order: Order, bookingCode: string, now: int)
    requires Valid(db)
    ensures var (db', ins) := InsertOrder(db, order, bookingCode, now, None);
      && Valid(db')
      && (forall i :: 0 <= i < |db.orders| ==> db.orders[i].id != ins.id)
      && (forall j :: 0 <= j < |db.details| ==> db.details[j].orderId != ins.id)
  {
  }

  /** `InsertOrderDetail`: one `order_details` row, added without looking at
      whether the seat is already sold for the screening. */
  function InsertOrderDetail(db: Db, orderId: int, seatId: int, failure: Option<string>): (r: (Db, Option<string>))
    ensures r.1 == failure
    ensures failure.Some? ==> r.0 == db
    ensures failure.None? ==> r.0 == db.(details := db.details + [OrderDetail(orderId, seatId)])
  {
    if failure.Some? then (db, failure)
    else (db.(details := db.details + [OrderDetail(orderId, seatId)]), None)
  }

  // ---------------------------------------------------------------------
  // UpdatePaymentStatus

  function WithStatus(orderId: int, status: string): Order -> Order {
    (o: Order) => if o.id == orderId then o.(paymentStatus := status) else o
  }

  /** `UPDATE orders SET payment_status = $1 WHERE id = $2`: any string over
      any status, no transition rules, and no error when no row matches. */
  function UpdatePaymentStatus(db: Db, orderId: int, status: string, failure: Option<string>): (r: (Db, Option<string>))
    ensures r.1 == failure
    ensures failure.Some? ==> r.0 == db
    ensures r.0 == db.(orders := r.0.orders)
    ensures |r.0.orders| == |db.orders|
    ensures failure.None? ==> forall i :: 0 <= i < |db.orders| ==>
      && (db.orders[i].id == orderId ==> r.0.orders[i] == db.orders[i].(paymentStatus := status))
      && (db.orders[i].id != orderId ==> r.0.orders[i] == db.orders[i])
  {
    if failure.Some? then (db, failure)
    else (db.(orders := Map(db.orders, WithStatus(orderId, status))), None)
  }

  /** An update of an id no order has succeeds and changes nothing. */
  lemma UpdateUnknownOrder(db: Db, orderId: int, status: string)
    requires forall i :: 0 <= i < |db.orders| ==> db.orders[i].id != orderId
    ensures UpdatePaymentStatus(db, orderId, status, None) == (db, None)
  {
    assert UpdatePaymentStatus(db, orderId, status, None).0.orders == db.orders;
  }

  /** Writing an order's previous status back restores the database: the
      update touches nothing but that status. */
  lemma {:induction false} UpdateUndo(db: Db, i: nat, status: string)
    requires Valid(db) && i < |db.orders|
    ensures var o := db.orders[i];
      UpdatePaymentStatus(UpdatePaymentStatus(db, o.id, status, None).0, o.id, o.paymentStatus, None).0 == db
  {
    var o := db.orders[i];
    var db1 := UpdatePaymentStatus(db, o.id, status, None).0;
    var db2 := UpdatePaymentStatus(db1, o.id, o.paymentStatus, None).0;
    forall k | 0 <= k < |db.orders| ensures db2.orders[k] == db.orders[k] {
      if db.orders[k].id == o.id {
        assert k == i;
      }
    }
    assert db2.orders == db.orders;
  }

  // ---------------------------------------------------------------------
  // GetSeatsByScheduleID

  /** The `EXISTS` subquery: some order of this screening whose status is
      exactly 'paid' has a line for the seat. */
  predicate SeatSold(db: Db, scheduleId: int, seatId: int) {
    exists i, j :: 0 <= i < |db.orders| && 0 <= j < |db.details|
      && db.orders[i].scheduleId == scheduleId && db.orders[i].paymentStatus == Paid
      && db.details[j].orderId == db.orders[i].id && db.details[j].seatId == seatId
  }

  /** One row of the seat listing. */
  datatype SeatRow = SeatRow(seatId: int, rowLetter: string, seatNumber: int, seatType: string, status: string)

  function Tag(db: Db, scheduleId: int, seat: Seat): SeatRow {
    SeatRow(seat.id, seat.rowLetter, seat.seatNumber, seat.seatType,
            if SeatSold(db, scheduleId, seat.id) then Sold else Available)
  }

  function Tagger(db: Db, scheduleId: int): Seat -> SeatRow {
    (seat: Seat) => Tag(db, scheduleId, seat)
  }

  function InCinema(cinemaId: int): Seat -> bool {
    (seat: Seat) => seat.cinemaId == cinemaId
  }

  /** The seats the join `schedules ⋈ cinemas ⋈ seats` yields for the
      screening: those of its cinema, in table order; none when the
      screening or its cinema does not exist. */
  function Roster(db: Db, scheduleId: int): (r: seq<Seat>)
    ensures FindBy(db.schedules, ScheduleKey, scheduleId).None? ==> r == []
    ensures forall seat :: seat in r <==>
      && FindBy(db.schedules, ScheduleKey, scheduleId).Some?
      && var sch := FindBy(db.schedules, ScheduleKey, scheduleId).value;
         && FindBy(db.cinemas, CinemaKey, sch.cinemaId).Some?
         && seat in db.seats && seat.cinemaId == sch.cinemaId
  {
    match FindBy(db.schedules, ScheduleKey, scheduleId)
    case None => []
    case Some(sch) =>
      if FindBy(db.cinemas, CinemaKey, sch.cinemaId).None? then []
      else Filter(db.seats, InCinema(sch.cinemaId))
  }

  /** The comparison a collation puts on text, which decides how `ORDER BY`
      sorts a text column. The schema does not fix the collation, so it is
      a parameter; every use asks only that it be a total preorder (every
      two strings compare, and the comparison chains). */
  type Collate = (string, string) -> bool

  /** PostgreSQL's C collation, code point by code point, is one. */
  lemma CCollation()
    ensures TotalPreorder(StrLeq)
  {
    forall a: string, b: string ensures StrLeq(a, b) || StrLeq(b, a) {
      StrLeqTotal(a, b);
    }
    forall a: string, b: string, c: string | StrLeq(a, b) && StrLeq(b, c) ensures StrLeq(a, c) {
      StrLeqTransitive(a, b, c);
    }
  }

  /** `ORDER BY se.row_letter, se.seat_number` under a collation: the row
      letter that sorts strictly first, and between row letters the
      collation ranks alike, the lower seat number. */
  predicate KeyLeq(collate: Collate, rowA: string, numA: int, rowB: string, numB: int) {
    || (collate(rowA, rowB) && !collate(rowB, rowA))
    || (collate(rowA, rowB) && collate(rowB, rowA) && numA <= numB)
  }

  function SeatLeq(collate: Collate): (Seat, Seat) -> bool {
    (a: Seat, b: Seat) => KeyLeq(collate, a.rowLetter, a.seatNumber, b.rowLetter, b.seatNumber)
  }

  function SeatRowLeq(collate: Collate): (SeatRow, SeatRow) -> bool {
    (a: SeatRow, b: SeatRow) => KeyLeq(collate, a.rowLetter, a.seatNumber, b.rowLetter, b.seatNumber)
  }

  /** Under any collation that is a total preorder, ordering seats by row
      letter, then seat number, is one too. */
  lemma SeatOrder(collate: Collate)
    requires TotalPreorder(collate)
    ensures TotalPreorder(SeatLeq(collate))
  {
    forall a: Seat, b: Seat ensures SeatLeq(collate)(a, b) || SeatLeq(collate)(b, a) {
      assert collate(a.rowLetter, b.rowLetter) || collate(b.rowLetter, a.rowLetter);
    }
    forall a: Seat, b: Seat, c: Seat | SeatLeq(collate)(a, b) && SeatLeq(collate)(b, c)
      ensures SeatLeq(collate)(a, c)
    {
      KeyChain(collate, a.rowLetter, a.seatNumber, b.rowLetter, b.seatNumber, c.rowLetter, c.seatNumber);
    }
  }

  lemma KeyChain(collate: Collate, ra: string, na: int, rb: string, nb: int, rc: string, nc: int)
    requires TotalPreorder(collate)
    requires KeyLeq(collate, ra, na, rb, nb) && KeyLeq(collate, rb, nb, rc, nc)
    ensures KeyLeq(collate, ra, na, rc, nc)
  {
    assert collate(ra, rc);
    if collate(rc, ra) {
      assert collate(rb, ra) && collate(rc, rb);
    }
  }

  /** `GetSeatsByScheduleID`: every seat of the screening's cinema, tagged
      'sold' exactly when a paid order of this screening holds it and
      'available' otherwise, ordered by row letter then seat number. An
      unknown screening gives an empty list, not an error. `collate` is
      the database's collation of the row letters. */
  function GetSeatsByScheduleID(db: Db, scheduleId: int, collate: Collate): (view: seq<SeatRow>)
    requires TotalPreorder(collate)
    ensures |view| == |Roster(db, scheduleId)|
    ensures multiset(view) == multiset(Map(Roster(db, scheduleId), Tagger(db, scheduleId)))
    ensures SortedBy(view, SeatRowLeq(collate))
    ensures forall k :: 0 <= k < |view| ==>
      && (view[k].status == Sold <==> SeatSold(db, scheduleId, view[k].seatId))
      && (view[k].status == Sold || view[k].status == Available)
  {
    SeatOrder(collate);
    var sorted := InsertionSort(Roster(db, scheduleId), SeatLeq(collate));
    MapPermutation(sorted, Roster(db, scheduleId), Tagger(db, scheduleId));
    TaggedView(db, scheduleId, collate, sorted);
    Map(sorted, Tagger(db, scheduleId))
  }

  /** Tagging keeps the seats' order, and every tag is the sold rule. */
  lemma TaggedView(db: Db, scheduleId: int, collate: Collate, seats: seq<Seat>)
    requires SortedBy(seats, SeatLeq(collate))
    ensures SortedBy(Map(seats, Tagger(db, scheduleId)), SeatRowLeq(collate))
    ensures var view := Map(seats, Tagger(db, scheduleId));
      forall k :: 0 <= k < |view| ==>
        && (view[k].status == Sold <==> SeatSold(db, scheduleId, view[k].seatId))
        && (view[k].status == Sold || view[k].status == Available)
  {
    var view := Map(seats, Tagger(db, scheduleId));
    forall i, j | 0 <= i < j < |view| ensures SeatRowLeq(collate)(view[i], view[j]) {
      assert SeatLeq(collate)(seats[i], seats[j]);
    }
  }

  /** The listing depends on orders only through which seats are sold: two
      databases with the same seats, screenings and cinemas that agree on
      every seat's sold status give the same listing. */
  lemma SameSoldSameView(db1: Db, db2: Db, scheduleId: int, collate: Collate)
    requires TotalPreorder(collate)
    requires db1.seats == db2.seats && db1.schedules == db2.schedules && db1.cinemas == db2.cinemas
    requires forall seatId :: SeatSold(db1, scheduleId, seatId) <==> SeatSold(db2, scheduleId, seatId)
    ensures GetSeatsByScheduleID(db1, scheduleId, collate) == GetSeatsByScheduleID(db2, scheduleId, collate)
  {
    var v1, v2 := GetSeatsByScheduleID(db1, scheduleId, collate), GetSeatsByScheduleID(db2, scheduleId, collate);
    assert Roster(db1, scheduleId) == Roster(db2, scheduleId);
    forall k | 0 <= k < |v1| ensures v1[k] == v2[k] {
    }
  }

  /** A paid order other than `orderId` of this screening holds the seat. */
  predicate SoldByOthers(db: Db, orderId: int, scheduleId: int, seatId: int) {
    exists i, j :: 0 <= i < |db.orders| && 0 <= j < |db.details|
      && db.orders[i].id != orderId
      && db.orders[i].scheduleId == scheduleId && db.orders[i].paymentStatus == Paid
      && db.details[j].orderId == db.orders[i].id && db.details[j].seatId == seatId
  }

  /** Order `orderId` is an order of this screening with a line for the seat. */
  predicate OrderHolds(db: Db, orderId: int, scheduleId: int, seatId: int) {
    && (exists i :: 0 <= i < |db.orders| && db.orders[i].id == orderId && db.orders[i].scheduleId == scheduleId)
    && (exists j :: 0 <= j < |db.details| && db.details[j].orderId == orderId && db.details[j].seatId == seatId)
  }

  /** Setting an order's status decides its own seats and no others: after
      the update a seat of the screening is sold exactly when another paid
      order holds it, or the new status is 'paid' and this order holds it. */
  lemma {:induction false} StatusUpdateSold(db: Db, orderId: int, status: string, scheduleId: int, seatId: int)
    ensures var db' := UpdatePaymentStatus(db, orderId, status, None).0;
      SeatSold(db', scheduleId, seatId) <==>
        SoldByOthers(db, orderId, scheduleId, seatId) || (status == Paid && OrderHolds(db, orderId, scheduleId, seatId))
  {
    var db' := UpdatePaymentStatus(db, orderId, status, None).0;
    if SeatSold(db', scheduleId, seatId) {
      var i, j :| 0 <= i < |db'.orders| && 0 <= j < |db'.details|
        && db'.orders[i].scheduleId == scheduleId && db'.orders[i].paymentStatus == Paid
        && db'.details[j].orderId == db'.orders[i].id && db'.details[j].seatId == seatId;
      if db.orders[i].id != orderId {
        assert SoldByOthers(db, orderId, scheduleId, seatId);
      } else {
        assert OrderHolds(db, orderId, scheduleId, seatId);
      }
    }
    if SoldByOthers(db, orderId, scheduleId, seatId) {
      var i, j :| 0 <= i < |db.orders| && 0 <= j < |db.details|
        && db.orders[i].id != orderId
        && db.orders[i].scheduleId == scheduleId && db.orders[i].paymentStatus == Paid
        && db.details[j].orderId == db.orders[i].id && db.details[j].seatId == seatId;
      assert db'.orders[i] == db.orders[i];
    }
    if status == Paid && OrderHolds(db, orderId, scheduleId, seatId) {
      var i :| 0 <= i < |db.orders| && db.orders[i].id == orderId && db.orders[i].scheduleId == scheduleId;
      var j :| 0 <= j < |db.details| && db.details[j].orderId == orderId && db.details[j].seatId == seatId;
      assert db'.orders[i].paymentStatus == Paid;
    }
  }

  /** Before the update, a seat the order does not hold is sold exactly when
      another paid order holds it. */
  lemma {:induction false} SoldWithoutOrder(db: Db, orderId: int, scheduleId: int, seatId: int)
    requires !OrderHolds(db, orderId, scheduleId, seatId)
    ensures SeatSold(db, scheduleId, seatId) <==> SoldByOthers(db, orderId, scheduleId, seatId)
  {
    if SeatSold(db, scheduleId, seatId) {
      var i, j :| 0 <= i < |db.orders| && 0 <= j < |db.details|
        && db.orders[i].scheduleId == scheduleId && db.orders[i].paymentStatus == Paid
        && db.details[j].orderId == db.orders[i].id && db.details[j].seatId == seatId;
      if db.orders[i].id == orderId {
        assert OrderHolds(db, orderId, scheduleId, seatId);
      }
    }
  }

  /** Marking an order paid, or taking 'paid' away, flips the listing of
      its own seats only: the listing keeps its rows and order, each row
      keeps every field but status, a seat the order holds is sold after
      marking it paid and is available after un-paying it unless another
      paid order holds it too, and every other seat keeps its status. */
  lemma {:induction false} PaymentFlipsSeats(db: Db, orderId: int, status: string, scheduleId: int, collate: Collate)
    requires TotalPreorder(collate)
    ensures var before := GetSeatsByScheduleID(db, scheduleId, collate);
      var after := GetSeatsByScheduleID(UpdatePaymentStatus(db, orderId, status, None).0, scheduleId, collate);
      && |after| == |before|
      && forall k :: 0 <= k < |after| ==>
        && after[k] == before[k].(status := after[k].status)
        && (status == Paid && OrderHolds(db, orderId, scheduleId, after[k].seatId) ==> after[k].status == Sold)
        && (status != Paid && !SoldByOthers(db, orderId, scheduleId, after[k].seatId) ==> after[k].status == Available)
        && (!OrderHolds(db, orderId, scheduleId, after[k].seatId) ==> after[k].status == before[k].status)
  {
    var db' := UpdatePaymentStatus(db, orderId, status, None).0;
    var before, after := GetSeatsByScheduleID(db, scheduleId, collate), GetSeatsByScheduleID(db', scheduleId, collate);
    assert Roster(db', scheduleId) == Roster(db, scheduleId);
    forall k | 0 <= k < |after|
      ensures after[k] == before[k].(status := after[k].status)
      ensures status == Paid && OrderHolds(db, orderId, scheduleId, after[k].seatId) ==> after[k].status == Sold
      ensures status != Paid && !SoldByOthers(db, orderId, scheduleId, after[k].seatId) ==> after[k].status == Available
      ensures !OrderHolds(db, orderId, scheduleId, after[k].seatId) ==> after[k].status == before[k].status
    {
      StatusUpdateSold(db, orderId, status, scheduleId, after[k].seatId);
      if !OrderHolds(db, orderId, scheduleId, after[k].seatId) {
        SoldWithoutOrder(db, orderId, scheduleId, after[k].seatId);
      }
    }
  }

  // ---------------------------------------------------------------------
  // GetSchedules

  /** One row of the schedule listing: the screening joined with its cinema
      and the cinema's city. */
  datatype ScheduleRow = ScheduleRow(
    id: int, showDate: string, showTime: string, price: int,
    cinemaId: int, cinemaName: string, cinemaLogo: string, cinemaLocation: string, cinemaCity: string)

  /** The inner joins `schedules ⋈ cinemas ⋈ cities` for one screening. */
  function JoinSchedule(db: Db, s: Schedule): Option<ScheduleRow> {
    match FindBy(db.cinemas, CinemaKey, s.cinemaId)
    case None => None
    case Some(c) =>
      match FindBy(db.cities, CityKey, c.cityId)
      case None => None
      case Some(ci) => Some(ScheduleRow(s.id, s.showDate, s.showTime, s.price, c.id, c.name, c.logoUrl, c.location, ci.name))
  }

  /** The cast `$2::DATE`: PostgreSQL's date input routine, which accepts
      several spellings of one day ("2024-05-01", "2024-5-1", "May 1,
      2024", depending on `DateStyle`) and yields that day, written here as
      the ISO text the `show_date` column holds. A refusal carries the
      error pgx reports, which depends on why the text is refused: `invalid
      input syntax for type date` (SQLSTATE 22007) for text that is no date,
      `date/time field value out of range` (SQLSTATE 22008) for a well-formed
      but impossible one such as "2024-02-30". Its grammar is a parameter of
      the model. */
  type DateCast = string -> Result<string>

  /** The day a date filter narrows to: none without the filter, and the
      cast day when the cast accepts it. */
  function CastDay(showDate: Option<string>, cast: DateCast): Option<string> {
    if showDate.Some? then cast(showDate.value).ToOption() else None
  }

  /** The `WHERE` clause: the movie's screenings, narrowed to the day `day`
      (the cast date) and to the city name only when those filters are not
      NULL. */
  predicate Listed(db: Db, s: Schedule, movieId: int, day: Option<string>, city: Option<string>) {
    && s.movieId == movieId
    && JoinSchedule(db, s).Some?
    && (day.None? || s.showDate == day.value)
    && (city.None? || JoinSchedule(db, s).value.cinemaCity == city.value)
  }

  function Matching(db: Db, schedules: seq<Schedule>, movieId: int, day: Option<string>, city: Option<string>): (r: seq<ScheduleRow>)
    ensures forall row :: row in r <==>
      exists i :: 0 <= i < |schedules| && Listed(db, schedules[i], movieId, day, city) && row == JoinSchedule(db, schedules[i]).value
    decreases |schedules|
  {
    if |schedules| == 0 then []
    else
      var rest := Matching(db, schedules[1..], movieId, day, city);
      var s := schedules[0];
      assert forall i :: 1 <= i < |schedules| ==> schedules[i] == schedules[1..][i - 1];
      if Listed(db, s, movieId, day, city) then [JoinSchedule(db, s).value] + rest else rest
  }

  /** `ORDER BY s.show_date, s.show_time`: a DATE and a TIME column, whose
      chronological order is the code-point order of their ISO text. */
  predicate ScheduleRowLeq(a: ScheduleRow, b: ScheduleRow) {
    || (StrLeq(a.showDate, b.showDate) && a.showDate != b.showDate)
    || (a.showDate == b.showDate && StrLeq(a.showTime, b.showTime))
  }

  lemma ScheduleOrder()
    ensures TotalPreorder(ScheduleRowLeq)
  {
    forall a: ScheduleRow, b: ScheduleRow ensures ScheduleRowLeq(a, b) || ScheduleRowLeq(b, a) {
      StrLeqTotal(a.showDate, b.showDate);
      StrLeqTotal(a.showTime, b.showTime);
    }
    forall a: ScheduleRow, b: ScheduleRow, c: ScheduleRow | ScheduleRowLeq(a, b) && ScheduleRowLeq(b, c)
      ensures ScheduleRowLeq(a, c)
    {
      if a.showDate != b.showDate && b.showDate != c.showDate {
        StrLeqTransitive(a.showDate, b.showDate, c.showDate);
        if a.showDate == c.showDate {
          StrLeqAntisymmetric(a.showDate, b.showDate);
        }
      } else if a.showDate == b.showDate && b.showDate == c.showDate {
        StrLeqTransitive(a.showTime, b.showTime, c.showTime);
      }
    }
  }

  /** `GetSchedules` as written: the listed screenings of the movie on the
      cast day, each joined with its cinema and city, ordered by show date
      then show time. The cast runs when the server binds the parameter,
      after `Query` has returned, so its refusal only ends the `rows.Next()`
      loop and sits in `rows.Err()`, which the method never reads: a refused
      date lists nothing and reports no error. */
  function GetSchedules(db: Db, movieId: int, showDate: Option<string>, city: Option<string>, cast: DateCast)
    : (r: Result<seq<ScheduleRow>>)
    ensures r.Ok?
    ensures showDate.Some? && cast(showDate.value).Err? ==> r.value == []
    ensures !(showDate.Some? && cast(showDate.value).Err?) ==>
      && multiset(r.value) == multiset(Matching(db, db.schedules, movieId, CastDay(showDate, cast), city))
      && SortedBy(r.value, ScheduleRowLeq)
  {
    if showDate.Some? && cast(showDate.value).Err? then Ok([])
    else
      ScheduleOrder();
      Ok(InsertionSort(Matching(db, db.schedules, movieId, CastDay(showDate, cast), city), ScheduleRowLeq))
  }

  /** `GetSchedules` with `rows.Err()` checked after the loop: a date the
      cast refuses fails the query with the cast's own error; every other
      call lists what the written method lists. */
  function GetSchedulesChecked(db: Db, movieId: int, showDate: Option<string>, city: Option<string>, cast: DateCast)
    : (r: Result<seq<ScheduleRow>>)
    ensures r.Err? <==> showDate.Some? && cast(showDate.value).Err?
    ensures r.Err? ==> r.error == cast(showDate.value).error
    ensures r.Ok? ==>
      && multiset(r.value) == multiset(Matching(db, db.schedules, movieId, CastDay(showDate, cast), city))
      && SortedBy(r.value, ScheduleRowLeq)
  {
    if showDate.Some? && cast(showDate.value).Err? then Err(cast(showDate.value).error)
    else GetSchedules(db, movieId, showDate, city, cast)
  }

  /** The refused date as written: even when the movie has a screening the
      query would list without the date filter, a date the cast refuses
      lists nothing and reports success, where the checked query fails. */
  lemma RefusedDateListsNothing(db: Db, movieId: int, date: string, city: Option<string>, cast: DateCast, i: nat)
    requires cast(date).Err?
    requires i < |db.schedules| && Listed(db, db.schedules[i], movieId, None, city)
    ensures GetSchedules(db, movieId, None, city, cast).value != []
    ensures GetSchedules(db, movieId, Some(date), city, cast) == Ok([])
    ensures GetSchedulesChecked(db, movieId, Some(date), city, cast) == Err(cast(date).error)
  {
    var m := Matching(db, db.schedules, movieId, None, city);
    assert JoinSchedule(db, db.schedules[i]).value in m;
    assert JoinSchedule(db, db.schedules[i]).value in multiset(GetSchedules(db, movieId, None, city, cast).value);
  }

  /** Two spellings of the same day list the same screenings. */
  lemma SameDaySameListing(db: Db, movieId: int, v1: string, v2: string, city: Option<string>, cast: DateCast)
    requires cast(v1).Ok? && cast(v1) == cast(v2)
    ensures GetSchedules(db, movieId, Some(v1), city, cast) == GetSchedules(db, movieId, Some(v2), city, cast)
  {
  }

  /** Every listed row is a screening of the requested movie on the cast
      day and in the city; with no filter, every screening of the movie
      whose cinema and city exist is listed. */
  lemma GetSchedulesFilters(db: Db, movieId: int, showDate: Option<string>, city: Option<string>, cast: DateCast)
    ensures var r := GetSchedules(db, movieId, showDate, city, cast);
      r.Ok? ==> forall row :: row in r.value ==>
        && (exists i :: 0 <= i < |db.schedules| && db.schedules[i].id == row.id && db.schedules[i].movieId == movieId)
        && (showDate.Some? ==> row.showDate == cast(showDate.value).value)
        && (city.Some? ==> row.cinemaCity == city.value)
    ensures showDate.None? && city.None? ==>
      && GetSchedules(db, movieId, showDate, city, cast).Ok?
      && forall i :: 0 <= i < |db.schedules| && db.schedules[i].movieId == movieId && JoinSchedule(db, db.schedules[i]).Some? ==>
           JoinSchedule(db, db.schedules[i]).value in GetSchedules(db, movieId, showDate, city, cast).value
  {
    var r := GetSchedules(db, movieId, showDate, city, cast);
    if r.Ok? {
      var day := CastDay(showDate, cast);
      var rows := r.value;
      forall row | row in rows
        ensures exists i :: 0 <= i < |db.schedules| && db.schedules[i].id == row.id && db.schedules[i].movieId == movieId
        ensures showDate.Some? ==> row.showDate == cast(showDate.value).value
        ensures city.Some? ==> row.cinemaCity == city.value
      {
        assert row in multiset(rows);
        assert row in Matching(db, db.schedules, movieId, day, city);
      }
      if showDate.None? && city.None? {
        forall i | 0 <= i < |db.schedules| && db.schedules[i].movieId == movieId && JoinSchedule(db, db.schedules[i]).Some?
          ensures JoinSchedule(db, db.schedules[i]).value in rows
        {
          var m := Matching(db, db.schedules, movieId, day, city);
          var row := JoinSchedule(db, db.schedules[i]).value;
          assert Listed(db, db.schedules[i], movieId, day, city) && row == JoinSchedule(db, db.schedules[i]).value;
          assert row in m;
          assert row in multiset(m);
        }
      }
    }
  }
}

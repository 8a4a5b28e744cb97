/** The public movie handlers (internal/controller/movies.controller.go) and
    the pagination arithmetic of the filtered listing
    (internal/service/movies.service.go). Repository answers are inputs;
    each handler reports the call it makes. */
module MovieListing {
  import opened Wrappers
  import opened GoConv
  import opened Http
  import opened Seqs
  import GenreIds

  /** The query of `GET /movies`: `search` as `c.Query` returns it ("" when
      absent), every `genre_id` value in order, and `page` / `limit`, which
      `c.DefaultQuery` tells apart as absent or present (possibly empty). */
  datatype FilterQuery = FilterQuery(search: string, genreValues: seq<string>, page: Option<string>, limit: Option<string>)

  /** `strconv.Atoi(c.DefaultQuery(name, default))` with the error dropped:
      an absent parameter reads as the default; a present one that is not a
      number reads as 0, one out of range as the nearest 64-bit bound. */
  function QueryInt(q: Option<string>, default: string): (n: int)
    ensures InInt64(n)
    ensures q.None? ==> n == AtoiIgnoringError(default)
    ensures q.Some? && ParseId(q.value).Some? ==> n == ParseId(q.value).value
    ensures q.Some? && Atoi(q.value).SyntaxError? ==> n == 0
  {
    AtoiIgnoringError(q.GetOr(default))
  }

  lemma AtoiOfItoa(n: int)
    requires InInt64(n)
    ensures Atoi(Itoa(n)) == Parsed(n)
  {
    AtoiItoa(n);
  }

  /** `page` defaults to 1 and `limit` to 16; a present but empty or
      non-numeric value is 0, not the default. */
  lemma QueryDefaults(q: Option<string>)
    ensures q.None? ==> QueryInt(q, "1") == 1 && QueryInt(q, "16") == 16
    ensures q == Some("") ==> QueryInt(q, "1") == 0 && QueryInt(q, "16") == 0
  {
    AtoiOfItoa(1);
    assert Itoa(1) == "1";
    AtoiOfItoa(16);
    assert NatToDecimal(16) == NatToDecimal(1) + [DigitChar(6)];
    assert Itoa(16) == "16";
  }

  /** Go's `(page - 1) * limit` on 64-bit ints: both steps wrap. */
  function Offset(page: int, limit: int): (offset: int)
    requires InInt64(page) && InInt64(limit)
    ensures InInt64(offset)
    ensures offset == Wrap64((page - 1) * limit)
    ensures InInt64((page - 1) * limit) ==> offset == (page - 1) * limit
  {
    var p := Wrap64(page - 1);
    MulCongruent(p, page - 1, limit);
    Wrap64Congruent(p * limit, (page - 1) * limit);
    Wrap64(p * limit)
  }

  /** Multiplying two numbers that agree modulo 2^64 by the same factor
      keeps them in agreement. */
  lemma MulCongruent(x: int, y: int, k: int)
    requires (x - y) % TwoTo64 == 0
    ensures (x * k - y * k) % TwoTo64 == 0
  {
    var d := (x - y) / TwoTo64;
    assert x - y == TwoTo64 * d;
    assert x * k - y * k == (x - y) * k;
    assert x * k - y * k == TwoTo64 * (d * k);
  }

  /** No guard on the page: page 1 starts at row 0, page 0 asks for a
      negative offset. */
  lemma OffsetEdges(limit: int)
    requires 0 <= limit <= MaxInt64
    ensures Offset(1, limit) == 0
    ensures Offset(0, limit) == -limit
  {
  }

  /** Ceiling of `total / limit` in exact arithmetic, for a non-zero limit;
      a negative limit flips the bounds. */
  function CeilDiv(total: nat, limit: int): (q: int)
    requires limit != 0
    ensures limit > 0 ==> (q - 1) * limit < total <= q * limit
    ensures limit < 0 ==> q * limit <= total < (q - 1) * limit
  {
    if limit > 0 then
      var q := (total + limit - 1) / limit;
      var r := (total + limit - 1) % limit;
      assert total + limit - 1 == q * limit + r;
      assert (q - 1) * limit == q * limit - limit;
      q
    else
      var m := -limit;
      var d := total / m;
      var r := total % m;
      assert total == d * m + r;
      assert -d * limit == d * m;
      assert (-d - 1) * limit == d * m + m;
      -d
  }

  /** `int(math.Ceil(float64(total) / float64(limit)))`. A zero limit makes
      the quotient infinite or NaN, whose conversion to int is left to the
      platform: `nonFinite` stands for it. */
  function TotalPage(total: nat, limit: int, nonFinite: int): (pages: int)
    ensures limit > 0 ==> (pages - 1) * limit < total <= pages * limit
    ensures limit < 0 ==> pages * limit <= total < (pages - 1) * limit
    ensures limit == 0 ==> pages == nonFinite
  {
    if limit == 0 then nonFinite else CeilDiv(total, limit)
  }

  /** With a positive limit the page count is the least number of pages of
      `limit` rows that hold all rows. */
  lemma TotalPageLeast(total: nat, limit: int, nonFinite: int, k: int)
    requires limit > 0 && k * limit >= total
    ensures TotalPage(total, limit, nonFinite) <= k
  {
    var p := TotalPage(total, limit, nonFinite);
    if p > k {
      MulMonotone(k, p - 1, limit);
      assert false;
    }
  }

  /** No rows make no pages, a single partial page makes one. */
  lemma TotalPageSmall(total: nat, limit: int, nonFinite: int)
    requires limit > 0
    ensures total == 0 ==> TotalPage(total, limit, nonFinite) == 0
    ensures 0 < total <= limit ==> TotalPage(total, limit, nonFinite) == 1
  {
    var p := TotalPage(total, limit, nonFinite);
    if p < 1 {
      MulMonotone(p, 0, limit);
    } else {
      MulMonotone(1, p, limit);
      if p > 1 {
        MulMonotone(1, p - 1, limit);
      }
    }
  }

  lemma MulMonotone(a: int, b: int, c: int)
    requires a <= b && c >= 0
    ensures a * c <= b * c
  {
    assert b * c - a * c == (b - a) * c;
  }

  /** A row of the filtered listing as the repository returns it. */
  datatype ListedMovie = ListedMovie(id: int, title: string, posterUrl: string, genresName: string, synopsis: string)

  /** `dto.GetMovieWitFilter`: the four members the service copies. */
  datatype MovieCard = MovieCard(id: int, title: string, posterUrl: string, genresName: string)

  function ToCard(m: ListedMovie): MovieCard {
    MovieCard(m.id, m.title, m.posterUrl, m.genresName)
  }

  /** The two repository calls of the listing. */
  datatype ListCall = ListCall(search: Option<string>, genreIds: seq<int>, limit: int, offset: int)
  datatype CountCall = CountCall(search: Option<string>, genreIds: seq<int>)

  /** What `MovieService.GetMovieWithFilter` does: the calls it makes and
      its `(data, meta, err)` triple. */
  datatype Listing = Listing(list: ListCall, count: Option<CountCall>, cards: seq<MovieCard>, meta: PaginationMeta, err: Option<string>)

  /** The service: offset from page and limit, the list query, then the
      count query only if the list succeeded; either error gives no rows
      and a zero meta. */
  function FilterService(search: Option<string>, genreIds: seq<int>, page: int, limit: int,
                         rows: Result<seq<ListedMovie>>, total: Result<nat>, nonFinite: int): (l: Listing)
    requires InInt64(page) && InInt64(limit)
    ensures l.list == ListCall(search, genreIds, limit, Wrap64((page - 1) * limit))
    ensures l.count.Some? <==> rows.Ok?
    ensures l.count.Some? ==> l.count.value == CountCall(search, genreIds)
    ensures l.err.None? <==> rows.Ok? && total.Ok?
    ensures l.err.Some? ==> l.cards == [] && l.meta == PaginationMeta(0, 0)
    ensures rows.Err? ==> l.err == Some(rows.error)
    ensures rows.Ok? && total.Err? ==> l.err == Some(total.error)
    ensures l.err.None? ==> |l.cards| == |rows.value|
    ensures l.err.None? ==> forall i :: 0 <= i < |rows.value| ==> l.cards[i] == ToCard(rows.value[i])
    ensures l.err.None? ==> l.meta.page == page
    ensures l.err.None? && limit > 0 ==> (l.meta.totalPage - 1) * limit < total.value <= l.meta.totalPage * limit
  {
    var list := ListCall(search, genreIds, limit, Offset(page, limit));
    match rows
    case Err(e) => Listing(list, None, [], PaginationMeta(0, 0), Some(e))
    case Ok(ms) =>
      var count := Some(CountCall(search, genreIds));
      match total
      case Err(e) => Listing(list, count, [], PaginationMeta(0, 0), Some(e))
      case Ok(n) => Listing(list, count, Map(ms, ToCard), PaginationMeta(page, TotalPage(n, limit, nonFinite)), None)
  }

  /** The arguments the handler hands to the service. */
  datatype FilterArgs = FilterArgs(search: Option<string>, genreIds: seq<int>, page: int, limit: int)

  /** The handler's reading of the query: empty search is no search,
      `genre_id` parsed leniently, page and limit with their defaults. */
  function FilterArgsOf(q: FilterQuery): (a: FilterArgs)
    ensures a.search.None? <==> q.search == ""
    ensures a.search.Some? ==> a.search.value == q.search
    ensures a.genreIds == GenreIds.LenientGenreIds(q.genreValues)
    ensures a.page == QueryInt(q.page, "1") && a.limit == QueryInt(q.limit, "16")
    ensures InInt64(a.page) && InInt64(a.limit)
  {
    FilterArgs(if q.search == "" then None else Some(q.search),
               GenreIds.LenientGenreIds(q.genreValues), QueryInt(q.page, "1"), QueryInt(q.limit, "16"))
  }

  /** `GET /movies`: the service is always called; an error is a 500 with
      `[]`, no rows a 404 that still reports success and carries the meta,
      anything else a 200 with the rows and the meta. */
  function GetMovieWithFilter(q: FilterQuery, answer: Listing): (x: Exchange<FilterArgs, seq<MovieCard>>)
    ensures x.call == Some(FilterArgsOf(q))
    ensures answer.err.Some? ==> x.reply == Failure(StatusInternalServerError, "Internal Server Error", answer.err.value, EmptyList)
    ensures answer.err.None? && |answer.cards| == 0 ==>
      x.reply == Reply(StatusNotFound, "Data not found", true, "", Null, Some(answer.meta))
    ensures answer.err.None? && |answer.cards| > 0 ==>
      x.reply == Reply(StatusOK, "Get Filter Movie Success", true, "", Payload(answer.cards), Some(answer.meta))
    ensures x.reply.success <==> answer.err.None?
  {
    var call := Some(FilterArgsOf(q));
    if answer.err.Some? then Exchange(call, Failure(StatusInternalServerError, "Internal Server Error", answer.err.value, EmptyList))
    else if |answer.cards| == 0 then Exchange(call, Reply(StatusNotFound, "Data not found", true, "", Null, Some(answer.meta)))
    else Exchange(call, Reply(StatusOK, "Get Filter Movie Success", true, "", Payload(answer.cards), Some(answer.meta)))
  }

  /** End to end, with no query parameters at all: the repository is asked
      for the first 16 rows of all movies, and a successful reply reports
      page 1. */
  lemma BareListing(rows: Result<seq<ListedMovie>>, total: Result<nat>, nonFinite: int)
    ensures var a := FilterArgsOf(FilterQuery("", [], None, None));
      && a == FilterArgs(None, [], 1, 16)
      && var l := FilterService(a.search, a.genreIds, a.page, a.limit, rows, total, nonFinite);
      && l.list == ListCall(None, [], 16, 0)
      && (GetMovieWithFilter(FilterQuery("", [], None, None), l).reply.meta.Some? ==> l.meta.page == 1)
  {
    QueryDefaults(None);
  }

  /** End to end, a non-numeric page ("abc") is page 0 and reaches the
      repository as offset `-limit`. */
  lemma NonNumericPage(q: FilterQuery, rows: Result<seq<ListedMovie>>, total: Result<nat>, nonFinite: int)
    requires q.page.Some? && Atoi(q.page.value).SyntaxError?
    requires 0 <= FilterArgsOf(q).limit
    ensures var a := FilterArgsOf(q);
      FilterService(a.search, a.genreIds, a.page, a.limit, rows, total, nonFinite).list.offset == -a.limit
  {
  }

  /** `GET /movies/detail/:id`: the parse error is dropped, so the service
      is always called, with 0 for an id that is not a number. */
  function GetMovieDetail<D>(idParam: string, answer: Result<seq<D>>): (x: Exchange<int, seq<D>>)
    ensures x.call.Some?
    ensures ParseId(idParam).Some? ==> x.call.value == ParseId(idParam).value
    ensures Atoi(idParam).SyntaxError? ==> x.call.value == 0
    ensures answer.Err? ==> x.reply == Failure(StatusInternalServerError, "Internal Server Error", answer.error, EmptyList)
    ensures answer.Ok? && |answer.value| == 0 ==> x.reply == Success(StatusNotFound, "Data not found", Null)
    ensures answer.Ok? && |answer.value| > 0 ==> x.reply == Success(StatusOK, "Get Detail Movie Succes", Payload(answer.value))
  {
    var call := Some(AtoiIgnoringError(idParam));
    match answer
    case Err(e) => Exchange(call, Failure(StatusInternalServerError, "Internal Server Error", e, EmptyList))
    case Ok(rows) =>
      if |rows| == 0 then Exchange(call, Success(StatusNotFound, "Data not found", Null))
      else Exchange(call, Success(StatusOK, "Get Detail Movie Succes", Payload(rows)))
  }

  /** A detail request for "abc" asks for movie 0. */
  lemma DetailOfWord<D>(answer: Result<seq<D>>)
    ensures GetMovieDetail("abc", answer).call == Some(0)
  {
    assert !IsDecimal("abc");
  }

  /** The reply the movie list handlers share: 500 with `[]` on an error,
      a 404 that reports success (with `notFound` as its message) for no
      rows, and a 200 with the rows otherwise. */
  function ListReply<D>(answer: Result<seq<D>>, notFound: string): (r: Reply<seq<D>>)
    ensures answer.Err? ==> r == Failure(StatusInternalServerError, "Internal Server Error", answer.error, EmptyList)
    ensures answer.Ok? && |answer.value| == 0 ==> r == Success(StatusNotFound, notFound, Null)
    ensures answer.Ok? && |answer.value| > 0 ==> r == Success(StatusOK, "Get Upcoming Movies Success", Payload(answer.value))
    ensures r.success <==> answer.Ok?
  {
    match answer
    case Err(e) => Failure(StatusInternalServerError, "Internal Server Error", e, EmptyList)
    case Ok(rows) =>
      if |rows| == 0 then Success(StatusNotFound, notFound, Null)
      else Success(StatusOK, "Get Upcoming Movies Success", Payload(rows))
  }

  /** `GET /movies/upcoming`: the shared list reply, "Data not found" for no
      rows. */
  function GetUpcomingMovies<D>(answer: Result<seq<D>>): (r: Reply<seq<D>>)
    ensures answer.Err? ==> r == Failure(StatusInternalServerError, "Internal Server Error", answer.error, EmptyList)
    ensures answer.Ok? && |answer.value| == 0 ==> r == Success(StatusNotFound, "Data not found", Null)
    ensures answer.Ok? && |answer.value| > 0 ==> r == Success(StatusOK, "Get Upcoming Movies Success", Payload(answer.value))
  {
    ListReply(answer, "Data not found")
  }

  /** `GET /movies/popular` as written: the writes it makes, in order. The
      empty-result branch writes a 302 and, lacking a `return`, falls
      through to the 200 write as well, whose data is the service's nil
      slice. */
  function GetPopularMovieAsWritten<D>(answer: Result<seq<D>>): (writes: seq<Reply<seq<D>>>)
    ensures |writes| >= 1
    ensures answer.Err? ==> writes == [Failure(StatusInternalServerError, "Internal Server Error", answer.error, EmptyList)]
    ensures answer.Ok? && |answer.value| > 0 ==> writes == [Success(StatusOK, "Get Upcoming Movies Success", Payload(answer.value))]
    ensures answer.Ok? ==> writes[|writes| - 1].status == StatusOK
  {
    match answer
    case Err(e) => [Failure(StatusInternalServerError, "Internal Server Error", e, EmptyList)]
    case Ok(rows) =>
      var found := if |rows| == 0 then [Success(StatusFound, "data not found", Null)] else [];
      found + [Success(StatusOK, "Get Upcoming Movies Success", SliceData(rows))]
  }

  /** The empty list is answered twice: first a 302 redirect status with no
      location, then a 200 body whose data is null; the client receives the
      302 status with both bodies concatenated. */
  lemma PopularEmptyWritesTwice<D>()
    ensures var w := GetPopularMovieAsWritten<D>(Ok([]));
      && |w| == 2
      && w[0] == Success(StatusFound, "data not found", Null)
      && w[1] == Success(StatusOK, "Get Upcoming Movies Success", Null)
  {
  }

  /** `GET /movies/popular` as its siblings answer: exactly one reply, a
      404 that reports success when there is nothing to show. */
  function GetPopularMovie<D>(answer: Result<seq<D>>): (r: Reply<seq<D>>)
    ensures answer.Err? ==> r == Failure(StatusInternalServerError, "Internal Server Error", answer.error, EmptyList)
    ensures answer.Ok? && |answer.value| == 0 ==> r == Success(StatusNotFound, "data not found", Null)
    ensures answer.Ok? && |answer.value| > 0 ==> r == Success(StatusOK, "Get Upcoming Movies Success", Payload(answer.value))
  {
    ListReply(answer, "data not found")
  }

  /** The corrected handler writes once and differs from the written one
      only on the empty list, where it answers like the upcoming list. */
  lemma PopularCorrected<D>(answer: Result<seq<D>>)
    ensures answer.Err? || |answer.value| > 0 ==> GetPopularMovieAsWritten(answer) == [GetPopularMovie(answer)]
    ensures answer.Ok? && |answer.value| == 0 ==>
      GetPopularMovie(answer).status == GetUpcomingMovies(answer).status && GetPopularMovie(answer).data == Null
  {
  }
}

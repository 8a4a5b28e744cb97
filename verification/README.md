# Tickitz backend: booking ledger, catalogue patches, request parsing and access gates

A Dafny model of the logic under the HTTP, SQL and cache plumbing of the
Tickitz movie-ticket backend (Go, gin, PostgreSQL). It has four parts.

- **Booking ledger.** The database is an immutable value: cities, cinemas,
  screenings (schedules), seats, orders and order lines, plus the `orders.id`
  serial.
  - The model covers price lookup, order insertion, line insertion and the
    payment-status update.
  - The seat view is a pure function of that value. A seat is `sold` exactly
    when a `paid` order of the same screening holds it.
  - Order creation is the service's composition: price lookup, header insert,
    then one line per seat.
- **Catalogue.** The admin repository's field-wise COALESCE patch, the
  transactional create of a movie and its genre links, the delete, and the
  newest-first listing.
- **Request handling.** Each controller is a pure function. It takes the
  request and the service's answer as inputs and returns an exchange: the
  service call it makes, if any, and the reply it writes.
  - Upload handlers also report the files they leave on disk.
  - Shared pieces are modelled as Go defines them: `strconv.Atoi` (64-bit,
    with syntax and range errors told apart), `strings.Split`,
    `strings.TrimSpace`, `path.Ext`, and gin's `binding:"required"` rule.
  - The strict (admin) and lenient (listing) genre-id parsers, the two image
    whitelists, stored file names, and the listing's pagination arithmetic
    with 64-bit wrap-around.
- **Access.** The CORS origin decision with its headers, and the role gate.

Clock readings, the database's booking code, the outcome of disk writes and
the point where a database write fails are all parameters.

Modules: `Wrappers`, `GoConv`, `GoStrings`, `Seqs`, `Sorting` (support);
`Ledger`, `Booking`, `Catalogue` (data); `Http`, `GenreIds`, `Uploads`,
`OrderApi`, `MovieListing`, `AdminApi`, `UserApi`, `Access` (handlers).

## Model

| member | source | states |
|---|---|---|
| Ledger.GetPriceFromSchedule | internal/repository/order.repository.go:158-163 | Succeeds exactly when a screening has the id, and then returns that screening's price. Otherwise it returns the no-rows error with price 0. |
| Ledger.InsertOrder | internal/repository/order.repository.go:85-102 | On success, appends one row carrying the given user, screening, total and status. The database supplies the id (its serial), the booking code and the time; the payment method is NULL. On a refusal, returns (0, "", zero time) and changes no table; the id serial still advances by one when the refusal came after the id was drawn (a constraint violation), and stays put otherwise. No other table changes. |
| Ledger.InsertOrderFresh | internal/repository/order.repository.go:85-102 | The new id belongs to no earlier order and to no existing order line, and the schema invariant still holds. |
| Ledger.InsertOrderDetail | internal/repository/order.repository.go:104-112 | Appends exactly one (order, seat) line, without checking whether the seat is taken. An error changes nothing. |
| Ledger.UpdatePaymentStatus | internal/repository/order.repository.go:165-173 | Sets the status of the rows with that id to any string, with no transition rule. Every other row and table is unchanged. |
| Ledger.UpdateUnknownOrder | internal/repository/order.repository.go:165-173 | An id no order has is still a success and changes nothing. |
| Ledger.UpdateUndo | internal/repository/order.repository.go:165-173 | Writing the old status back restores the database exactly. |
| Ledger.Roster | internal/repository/order.repository.go:133-136 | The seats listed for a screening are exactly those of its cinema. An unknown screening or cinema gives none. |
| Ledger.GetSeatsByScheduleID | internal/repository/order.repository.go:114-156 | One row per seat of the screening's cinema, as a permutation of the roster. Rows are sorted by row letter under the database collation (any total preorder), then seat number. Status is `sold` iff a `paid` order of this screening has a line for the seat, and `available` otherwise. |
| Ledger.TaggedView | internal/repository/order.repository.go:118-137 | Tagging seats with their status keeps their order, and each tag is `sold` exactly when a paid order of the screening holds the seat, `available` otherwise. |
| Ledger.SameSoldSameView | internal/repository/order.repository.go:122-132 | Under any collation, the view depends on orders only through the sold rule. |
| Ledger.StatusUpdateSold | internal/repository/order.repository.go:122-132 | After a status update, a seat is sold iff another paid order holds it, or the new status is `paid` and this order holds it. |
| Ledger.SoldWithoutOrder | internal/repository/order.repository.go:122-132 | For a seat the order does not hold, sold means sold by another order. |
| Ledger.PaymentFlipsSeats | internal/repository/order.repository.go:122-137 | Under any collation, marking an order paid or unpaid keeps the listing's rows and order. Its own seats become sold, or available unless another paid order holds them. Every other seat keeps its status. |
| Ledger.Matching | internal/repository/order.repository.go:34-83 | A joined row is listed iff its screening is of the movie, has a cinema and a city, falls on the day the date parameter casts to (when set) and is in the city (when set). |
| Ledger.GetSchedules | internal/repository/order.repository.go:34-83 | Never reports an error. A date the `::DATE` cast refuses lists nothing, because that error only ends the `rows.Next()` loop and `rows.Err()` is never read. Otherwise a permutation of the screenings matching the cast day, sorted by show date, then show time. |
| Ledger.GetSchedulesChecked | internal/repository/order.repository.go:55-82 | With `rows.Err()` checked: fails iff a date is given and the cast refuses it, carrying the cast's own error (invalid syntax, or a field out of range); otherwise the same sorted listing. |
| Ledger.RefusedDateListsNothing | internal/repository/order.repository.go:63-82 | Even when the movie has a listable screening, a refused date gives success with no rows as written, and the cast's error once `rows.Err()` is checked. |
| Ledger.SameDaySameListing | internal/repository/order.repository.go:50 | Two date spellings that cast to the same day list exactly the same screenings. |
| Ledger.GetSchedulesFilters | internal/repository/order.repository.go:49-52 | Each listed row belongs to the movie, shows on the day the date parameter casts to, and is in the given city. With no filter, the query succeeds and every joinable screening of the movie is listed. |
| Ledger.SeatOrder | internal/repository/order.repository.go:137 | For any collation that is a total preorder, ordering by row letter under it, then by seat number, is a total preorder. |
| Ledger.CCollation | internal/repository/order.repository.go:137 | The byte-wise (C) collation of row letters is a total preorder, so the seat order above holds for it. |
| Ledger.ScheduleOrder | internal/repository/order.repository.go:53 | Ordering by show date, then show time, is a total preorder. |
| Booking.TotalPrice | internal/service/order.service.go:74 | Equals price × seat count reduced to 64 bits, and is exact whenever the product fits. |
| Booking.TotalPerSeat | internal/service/order.service.go:74 | Each seat adds one price, a duplicate seat counts twice, and no seats cost 0. |
| Booking.Draft | internal/service/order.service.go:76-81 | The order handed on has the user, the screening and the total. Its status is `pending` and it has no payment method. |
| Booking.InsertLines | internal/service/order.service.go:83 | One line per seat in request order, or the first failing line's error. Only the lines table changes. |
| Booking.CreateOrder | internal/service/order.service.go:67-90 | A failed price lookup persists nothing and returns (0, "", zero time, err). Success holds iff the price is found and no write fails. Success appends one `pending` order with the database's id, code and time and the computed total, plus one line per requested seat. On failure nothing persists, except that the serial may advance; a header refusal advances it exactly when the id was drawn. |
| Booking.PaymentMethodIgnored | internal/service/order.service.go:76-81 | Two requests that differ only in payment method give the same result. |
| Booking.CreateOrderValid | internal/service/order.service.go:67-90 | Order creation keeps the schema invariant. |
| Booking.CreatedOrderSellsNothing | internal/repository/order.repository.go:122-132 | Creating a (pending) order changes no seat's status on any screening. |
| Booking.GetSeats | internal/service/order.service.go:47-65 | A repository error is passed on. Otherwise there is one response per row, in order, and every field reads back. |
| Booking.GetSchedules | internal/service/order.service.go:23-45 | A repository error is passed on. Otherwise there is one response per row, in order, and every field reads back. |
| Booking.SeatResponsesRoundTrip | internal/service/order.service.go:54-64 | Mapping the responses back gives the repository's rows exactly. |
| Booking.ScheduleResponsesRoundTrip | internal/service/order.service.go:30-44 | Mapping the responses back gives the repository's rows exactly. |
| OrderApi.OptionalQuery | internal/controller/order.controller.go:48-58 | An empty query value is no filter. Any other value is passed on unchanged. |
| OrderApi.OptionalQueryRoundTrip | internal/controller/order.controller.go:48-58 | A filter reads back from the query it came from. |
| OrderApi.GetSchedules | internal/controller/order.controller.go:35-76 | A non-integer id gives 400 and no call. Otherwise the call carries the id and both filters; an error gives 500, and success gives 200 with the rows, null when empty. |
| OrderApi.BadDateAnswersEmpty | internal/controller/order.controller.go:35-76 | As written, a date the `::DATE` cast refuses is answered 200 "Get Schedules Success" with null data, like a day with no screenings. |
| OrderApi.BadDateIsServerError | internal/controller/order.controller.go:35-76 | Once the repository checks `rows.Err()`, a refused date reaches the client as 500 "Internal Server Error", carrying the error text the cast gave for that date. |
| OrderApi.GetSeats | internal/controller/order.controller.go:89-118 | A non-integer id gives 400 and no call. Otherwise the call carries the id; an error gives 500, and success gives 200 with the rows. |
| OrderApi.BindCreateOrder | internal/dto/order.dto.go:17-21 | Binding succeeds iff the body decodes, schedule_id ≠ 0, seats is present (`[]` counts) and payment_method ≠ "". The request then holds exactly those values. |
| OrderApi.CreateOrder | internal/controller/order.controller.go:133-187 | A missing user_id gives 401 and a non-int one 500, both before the body is read. A bad body gives 400. The call carries the user and the bound request. The 201 carries exactly the service's id, code and time; an error gives 500. |
| OrderApi.CreateOrderEndToEnd | internal/controller/order.controller.go:167-186 | Handler plus ledger: the 201 carries the new order's id, code and time, and the stored order is `pending`. |
| OrderApi.UpdatePaymentStatus | internal/controller/order.controller.go:203-243 | A non-integer id gives 400 and a bad or empty body 400, both without a call. Otherwise the call gets (id, status) exactly as sent; an error gives 500 and success 200. |
| OrderApi.StatusForwardedRaw | internal/controller/order.controller.go:216-227 | Any non-empty status string reaches the service unchanged. |
| Catalogue.Patch | internal/repository/admin.repository.go:101-110 | Each of the eight columns takes the request value when non-null, and keeps the stored one otherwise. |
| Catalogue.PatchLaws | internal/repository/admin.repository.go:101-110 | The empty patch is the identity, patching twice equals patching once, and two patches compose into one. |
| Catalogue.FullPatch | internal/repository/admin.repository.go:101-110 | A patch naming every column replaces all fields. |
| Catalogue.UpdateMovie | internal/repository/admin.repository.go:99-144 | Only rows with the id change: they are patched, and updated_at is set. It returns the id and the patched columns that `RETURNING` lists, without timestamps. An unknown id gives the no-rows error and the zero result. A database error changes nothing. |
| Catalogue.EmptyPatchTouches | internal/repository/admin.repository.go:111 | An empty update still refreshes updated_at and changes nothing else. |
| Catalogue.CreateMovie | internal/repository/admin.repository.go:146-214 | Success holds iff no step fails. It adds the movie (created and updated now) and then one genre link per id in list order, none for an empty list, and returns the new id with the inserted fields. Any failure returns the zero result and leaves both tables as they were; a refused movie insert advances the serial exactly when the id was drawn. |
| Catalogue.GenresOfAppend | internal/repository/admin.repository.go:197-206 | Reading the genres of appended links reads each part in turn. |
| Catalogue.GenresOfLinks | internal/repository/admin.repository.go:197-206 | The links written for a list of genre ids read back as that list. |
| Catalogue.CreatedGenres | internal/repository/admin.repository.go:146-214 | A created movie's genres read back as exactly the requested list, in order. |
| Catalogue.DeleteMovie | internal/repository/admin.repository.go:84-97 | Only a database error is reported. Otherwise the movies remaining are exactly those without the id. |
| Catalogue.DeleteUnknown | internal/repository/admin.repository.go:90-96 | Deleting an absent id succeeds and changes nothing. |
| Catalogue.GetAllMovies | internal/repository/admin.repository.go:47 | Returns a permutation of the movies, with created_at non-increasing. |
| GenreIds.StrictWith | internal/controller/admin.controller.go:259-272 | Ok iff every piece parses, and then the ids are the pieces' ids in order. Otherwise the error names the first bad piece. |
| GenreIds.StrictPieces | internal/controller/admin.controller.go:259-272 | As StrictWith, with trim-then-Atoi as the piece parser; the error text is "invalid genre_id format: " plus the untrimmed piece. |
| GenreIds.StrictGenreIds | internal/controller/admin.controller.go:258-273 | The empty string gives no genres. Anything else is split on ',' and parsed strictly. |
| GenreIds.FirstBad | internal/controller/admin.controller.go:260-270 | The piece the loop stops at is refused, and every piece before it parses. |
| GenreIds.LenientPieces | internal/controller/movies.controller.go:115-121 | Yields at most one id per piece, and every id comes from a piece that parses. When every piece parses, the ids are the pieces' values in order; when none does, there are none. |
| GenreIds.LenientPiecesAppend | internal/controller/movies.controller.go:117-121 | Pieces contribute in order. |
| GenreIds.LenientValuesAppend | internal/controller/movies.controller.go:114-122 | Repeated `genre_id` values contribute in query order. |
| GenreIds.StrictAgreesWithLenient | internal/controller/movies.controller.go:113-122 | Where the strict parser accepts a list, the lenient parser reads the same ids. |
| GenreIds.StrictAgreesWithLenientString | internal/controller/admin.controller.go:258-273 | The same holds for a whole query value, the empty string included. |
| GenreIds.TrailingComma | internal/controller/admin.controller.go:261-270 | "7," is refused by the admin parser (empty piece), while the listing parser reads [7]. |
| Uploads.WhitelistsCompared | internal/controller/users.controller.go:258-260 | Every accepted profile picture passes the movie check. The two checks differ only on ".jpeg". |
| Uploads.JpegSeparates | internal/controller/admin.controller.go:151-152 | "x.jpeg" is a movie image but not a profile picture. |
| Uploads.CaseSensitive | internal/controller/admin.controller.go:151-152 | "x.JPG" is refused. |
| Uploads.LastExtensionCounts | internal/controller/admin.controller.go:151-153 | Only the last extension counts, so "x.jpg.exe" is refused. |
| Uploads.AcceptedNameEndsWithExt | internal/controller/admin.controller.go:151-153 | An accepted name ends with its accepted extension. |
| Uploads.MovieUrl | internal/controller/admin.controller.go:175 | A stored movie URL starts with "/movie/". |
| Uploads.MovieUrlInjective | internal/controller/admin.controller.go:164-176 | A movie URL determines the clock reading and the original file name. |
| Uploads.ProfilePath | internal/controller/users.controller.go:281 | A stored profile path starts with "/profile/". |
| Uploads.ProfilePathInjective | internal/controller/users.controller.go:270-282 | A profile path determines the clock reading, the user and the extension. |
| Uploads.ExtOfSuffix | internal/controller/admin.controller.go:151 | A name ending in '.' plus text free of '.' and '/' has that ending as its extension. |
| Http.UserGate | internal/controller/users.controller.go:224-244 | Only an int user_id passes, unchanged. Missing gives 401 "User Id Not Found" and another type gives 500 "Invalid User Id". |
| Http.SliceData | internal/service/order.service.go:30-44 | An appended-to nil slice is JSON null exactly when empty. |
| MovieListing.QueryInt | internal/controller/movies.controller.go:124-125 | Absent means the default. Present and numeric means its value. Present and not numeric means 0, since the error is dropped. |
| MovieListing.QueryDefaults | internal/controller/movies.controller.go:124-125 | page defaults to 1 and limit to 16. An empty value reads as 0. |
| MovieListing.Offset | internal/service/movies.service.go:126 | Equals (page − 1) × limit reduced to 64 bits, and is exact when it fits. |
| MovieListing.OffsetEdges | internal/service/movies.service.go:126 | Page 1 starts at 0, and page 0 gives offset −limit. |
| MovieListing.TotalPage | internal/service/movies.service.go:139 | The ceiling of total / limit: (p−1)·limit < total ≤ p·limit for a positive limit, with mirrored bounds for a negative one. |
| MovieListing.TotalPageLeast | internal/service/movies.service.go:139 | With a positive limit, the page count is the least count of pages that hold every row. |
| MovieListing.TotalPageSmall | internal/service/movies.service.go:139 | No rows give 0 pages, and at most one full page gives 1. |
| MovieListing.FilterService | internal/service/movies.service.go:125-157 | The list call gets the offset. The count call happens only after a successful list. Either error gives no rows, a zero meta and that error. Otherwise there is one card per row in order, meta.page is the page, and the page count is the ceiling. |
| MovieListing.FilterArgsOf | internal/controller/movies.controller.go:107-125 | An empty search is no search. Genres are parsed leniently, and page and limit get their defaults. |
| MovieListing.GetMovieWithFilter | internal/controller/movies.controller.go:127-153 | An error gives 500 with []. No rows give 404 with success true, null data and the meta. Otherwise the reply is 200 with the rows and the meta. |
| MovieListing.BareListing | internal/controller/movies.controller.go:124-127 | With no query, the repository is asked for 16 rows at offset 0 and the meta reports page 1. |
| MovieListing.NonNumericPage | internal/service/movies.service.go:126 | A non-numeric page reaches the repository as offset −limit. |
| MovieListing.GetMovieDetail | internal/controller/movies.controller.go:165-193 | The service is always called, with 0 for a non-numeric id. An error gives 500, no rows 404, and otherwise 200. |
| MovieListing.DetailOfWord | internal/controller/movies.controller.go:168-169 | A detail request for "abc" queries movie 0. |
| MovieListing.ListReply | internal/controller/movies.controller.go:32-57 | The shared listing reply: success iff the service answered; an error gives 500 with [], no rows give 404 with the given message and null data, and rows give 200 with the rows. |
| MovieListing.GetUpcomingMovies | internal/controller/movies.controller.go:32-57 | An error gives 500 with []. No rows give 404 with success true. Otherwise the reply is 200 with the rows. |
| MovieListing.GetPopularMovieAsWritten | internal/controller/movies.controller.go:68-92 | An error gives one 500 write and rows give one 200 write. With no rows, the handler writes twice. Rows are written through the slice itself, so an empty list is null. |
| MovieListing.PopularEmptyWritesTwice | internal/controller/movies.controller.go:79-91 | With no rows, the handler writes a 302 with null data and then a 200 whose data is also null, the empty slice being nil. |
| MovieListing.GetPopularMovie | internal/controller/movies.controller.go:68-92 | Exactly one reply: 500 on error, 404 with success true on no rows, and 200 otherwise. |
| MovieListing.PopularCorrected | internal/controller/movies.controller.go:79-85 | The corrected handler agrees with the written one except on no rows, where it answers like the upcoming list. |
| AdminApi.StoreImage | internal/controller/admin.controller.go:151-177 | An absent image does nothing. A bad extension is refused before saving. A failed save is reported. A stored image's URL is "/movie/" + "<nanos>_<kind>_<name>". |
| AdminApi.ImagePhase | internal/controller/admin.controller.go:151-205 | The poster is handled before the backdrop, and the first refusal stops the request. Files saved before a refusal stay. Stored URLs are handed on. |
| AdminApi.WithImages | internal/controller/admin.controller.go:176 | Stored URLs replace the bound URL fields. Nothing else changes. |
| AdminApi.GetAllMovieAdmin | internal/controller/admin.controller.go:42-59 | An error gives 500 with []. Success gives 200 with the rows, never null. |
| AdminApi.DeleteMovieAdmin | internal/controller/admin.controller.go:74-103 | A non-integer id gives 400 and no call. Otherwise the call carries the id; an error gives 500 "Failed to delete movie" and success gives 200 with null data. |
| AdminApi.DeleteUnknownSucceeds | internal/repository/admin.repository.go:90-96 | Deleting an id no movie has gives a 200. |
| AdminApi.UpdateMovieAdmin | internal/controller/admin.controller.go:126-223 | A bad id gives 400 and so does a bad form. Then come the image checks, with message "Invalid image extension". The call gets the id and the fields with the image URLs. An error gives 500 and success 200 with the movie. |
| AdminApi.OrphanPoster | internal/controller/admin.controller.go:164-190 | A saved poster stays on disk when the backdrop is refused. |
| AdminApi.UploadedPosterStored | internal/controller/admin.controller.go:175-176 | Handler plus repository: the movie ends up with the poster's URL, and its other fields are patched from the form. |
| AdminApi.CreateMovieAdmin | internal/controller/admin.controller.go:246-347 | A bad form gives 400. A bad genre list gives 400 with the parser's error, before any file is saved. Then come the image checks, with message "invalid file extension". The call gets the fields and the bound genres followed by the parsed ones. Success gives 201 with a one-element list. |
| AdminApi.BadGenresSaveNothing | internal/controller/admin.controller.go:258-275 | A bad genre list is refused with no file saved and no call. |
| AdminApi.CreatedMovieGenres | internal/controller/admin.controller.go:258-273 | Handler plus repository: the new movie's genres read back as the bound ones, then those of genre_ids, in order. |
| UserApi.GetProfile | internal/controller/users.controller.go:40-78 | The gate comes first. The call carries the user; an error gives 500 and success 200 with the profile. |
| UserApi.GetHistory | internal/controller/users.controller.go:91-130 | The gate comes first. The call carries the user; success gives 200 "Get Seats Success" with null for no bookings. |
| UserApi.UpdatePassword | internal/controller/users.controller.go:145-205 | The gate runs before the body. Any bad body gives 400 "Invalid request body". A service error gives 400 iff its text is exactly "invalid old password", and 500 otherwise. |
| UserApi.PasswordErrorExact | internal/controller/users.controller.go:181 | Only the exact text gives 400; a capitalised variant gives 500. |
| UserApi.UpdateProfile | internal/controller/users.controller.go:223-301 | The gate runs before the form. A picture is accepted iff its extension is exactly ".jpg" or ".png". It is saved as "<nanos>_profile_<user><ext>" and "/profile/<name>" is handed on. With no picture the form is passed unchanged. Success gives 200 with a one-element list. |
| UserApi.JpegProfileRefused | internal/controller/users.controller.go:258-268 | A ".jpeg" picture gives 400 with no file and no call, though the movie check accepts it. |
| UserApi.ProfilePathsPerUser | internal/controller/users.controller.go:270-282 | Two different users never get the same stored picture path. |
| Access.IsWhitelisted | internal/middleware/cors.go:24-29 | The loop finds the origin iff it equals one of the five entries. |
| Access.Cors | internal/middleware/cors.go:10-50 | An empty or whitelisted origin is admitted: the origin is echoed if non-empty and the three fixed headers are set. OPTIONS then aborts with 204, and anything else continues. Any other origin aborts with 403 and no headers. |
| Access.AllowOriginEchoes | internal/middleware/cors.go:33-38 | Allow-Origin is present iff the origin is non-empty, and it echoes the origin. Credentials are always granted. |
| Access.CheckRole | internal/middleware/rbac.go:11-47 | Continues iff the token holds exactly the required role. No token gives 403, another type 500, and another role 403. |
| Access.NoRoleHierarchy | internal/middleware/rbac.go:35-43 | Admin does not pass a user route, nor user an admin route, and "Admin" is not "admin". |

## Left out

- Redis caching of profiles, histories and movie lists, and its invalidation. The cache has no behaviour of its own; its answers are not modelled.
- Password hashing, JWT issuing and the auth handlers. `pkg` is not part of this model, and the service's password error is an input.
- File I/O and clocks. `SaveUploadedFile` is a success flag and `time.Now().UnixNano()` is a parameter.
- Routers and `main`, which are wiring only.
- Logging: the `log.Println` calls of the repositories, services and controllers, and the "CORS Blocked" line of the CORS middleware have no effect on any reply, and are not modelled.
- Ledger.Schedule: `show_date` and `show_time` are kept as ISO text. The Go model scans them into `time.Time`, so the JSON the client receives carries RFC 3339 timestamps; that rendering is not modelled.
- The concurrent double-booking race. Operations are sequential. Order creation, like the source, does not check seat availability.
- Booking.CreateOrder: `order.service.go:83` calls a repository `CreateOrder` that order.repository.go does not define. The composition modelled (price lookup, `InsertOrder`, one `InsertOrderDetail` per seat, rollback on failure) is an assumption.
- OrderApi.UpdatePaymentStatus: the controller calls a service `UpdatePaymentStatus` that is not part of this model. Its outcome is an input; `Ledger.UpdatePaymentStatus` models the repository.
- The admin service's update and create are not part of this model. `AdminApi` hands its call to `Catalogue` unchanged in the end-to-end lemmas.
- `UpdateMovieRequest`, `CreateMovieRequest`, `UpdateProfileRequest` and `GetMovieWitFilter` are not part of this model. Their fields are inferred from the handlers.
- Booking code generation (`md5(random()::text)`) is an opaque parameter with no uniqueness guarantee.
- MovieListing.TotalPage: computed exactly, not in float64. Rounding for totals or limits above 2^53 is not modelled. A zero limit yields a platform-specific conversion of ±Inf or NaN, taken as the `nonFinite` parameter.
- Http.AtoiErrorText: Go quotes the input with `strconv.Quote`; the model shows it between plain double quotes without escaping.
- Scan errors from NULL columns, transport errors of read queries, and aggregated display columns (`STRING_AGG`, schedule counts, cast) are not modelled.
- The `movie_genres` foreign-key behaviour on delete is left to the schema.
- The popularity score is a float in the database; it is kept as an opaque number.
- Nothing in the order module rejects an empty seat list `[]`: it passes `binding:"required"` and creates an order with total 0. Nor is `payment_status` ever validated. The model keeps both behaviours.
- Ledger.GetSchedules: the date grammar of PostgreSQL's `::DATE` cast is not modelled. It is the `DateCast` parameter, which maps accepted text to its ISO day and refuses the rest with the error PostgreSQL reports for it (SQLSTATE 22007 for bad syntax, 22008 for an out-of-range field). That the refusal arrives through `rows.Err()` and not from `Query` follows pgx v5's documented behaviour for errors raised while the server binds parameters.
- Ledger.GetSeatsByScheduleID: the database collation of `ORDER BY se.row_letter, se.seat_number` is a parameter required to be a total preorder. `Ledger.StrLeq` is the C collation; locale collations are not spelled out.

## Findings

| source | as written | input that shows it | evidently intended | confidence | as-written member | corrected member |
|---|---|---|---|---|---|---|
| internal/controller/movies.controller.go:79-85 | On an empty popular list the handler writes `302 Found` "data not found" without returning. It then also writes the 200 "Get Upcoming Movies Success" reply, so the client gets status 302 and two JSON bodies. | The popular-movie service answers an empty list | One reply, 404 "data not found" with success true, like the sibling listing handlers | not executed | MovieListing.GetPopularMovieAsWritten, MovieListing.PopularEmptyWritesTwice | MovieListing.GetPopularMovie, MovieListing.PopularCorrected |
| internal/repository/order.repository.go:63-82 | The `rows.Next()` loop ends without reading `rows.Err()`, so the error of the `$2::DATE` cast, raised when the server binds the parameter, is dropped and the method returns no rows and no error. The handler answers 200 "Get Schedules Success" with null data. | `GET /orders/schedules/1?date=abc` | The cast's error is returned, and the handler answers 500 with it | not executed | Ledger.GetSchedules, Ledger.RefusedDateListsNothing, OrderApi.BadDateAnswersEmpty | Ledger.GetSchedulesChecked, OrderApi.BadDateIsServerError |

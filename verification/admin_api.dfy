/** The admin movie handlers (internal/controller/admin.controller.go):
    listing, delete, update and create. Uploaded images are checked against
    the movie whitelist and saved before the service is called; the clock
    reading of each save and whether the disk write succeeds are inputs. */
module AdminApi {
  import opened Wrappers
  import opened GoConv
  import opened Http
  import opened Uploads
  import GenreIds
  import Catalogue

  /** One image field after the handler looked at it. */
  datatype ImageStep = NoImage | Stored(file: string, url: string) | BadExtension | SaveFailed

  /** Check the extension, then save under `<nanos>_<kind>_<name>`; the URL
      handed on is "/movie/" and that name. */
  function StoreImage(image: Option<Upload>, kind: string, disk: Saving): (s: ImageStep)
    ensures s.NoImage? <==> image.None?
    ensures s.BadExtension? <==> image.Some? && !MovieImageOk(image.value.filename)
    ensures s.SaveFailed? <==> image.Some? && MovieImageOk(image.value.filename) && !disk.ok
    ensures s.Stored? ==> s.file == MovieFileName(disk.nanos, kind, image.value.filename)
    ensures s.Stored? ==> s.url == MovieUrl(disk.nanos, kind, image.value.filename)
  {
    match image
    case None => NoImage
    case Some(u) =>
      if !MovieImageOk(u.filename) then BadExtension
      else if !disk.ok then SaveFailed
      else Stored(MovieFileName(disk.nanos, kind, u.filename), MovieUrl(disk.nanos, kind, u.filename))
  }

  /** A reply that ends the request early, with `data` null. */
  datatype Refusal = Refusal(status: int, msg: string, error: string)

  function Refuse<D>(r: Refusal): (reply: Reply<D>)
    ensures !reply.success && reply.status == r.status && reply.data.Null?
  {
    Failure(r.status, r.msg, r.error, Null)
  }

  /** The image phase shared by update and create: poster first, then
      backdrop. The first refusal ends the request; files saved before it
      stay on disk. `badExt` is the message of an extension refusal, which
      differs between the two handlers. */
  datatype Images = Images(files: seq<string>, stop: Option<Refusal>, posterUrl: Option<string>, backdropUrl: Option<string>)

  function StepFiles(s: ImageStep): seq<string> {
    if s.Stored? then [s.file] else []
  }

  function StepUrl(s: ImageStep): Option<string> {
    if s.Stored? then Some(s.url) else None
  }

  function StepRefusal(s: ImageStep, badExt: string, saveError: string): Option<Refusal> {
    match s
    case BadExtension => Some(Refusal(StatusBadRequest, badExt, "Bad Request"))
    case SaveFailed => Some(Refusal(StatusInternalServerError, "Internal Server Error", saveError))
    case NoImage => None
    case Stored(_, _) => None
  }

  function ImagePhase(poster: Option<Upload>, backdrop: Option<Upload>, posterDisk: Saving, backdropDisk: Saving, badExt: string)
    : (p: Images)
    ensures var ps := StoreImage(poster, "poster", posterDisk);
      && (ps.BadExtension? ==> p == Images([], Some(Refusal(StatusBadRequest, badExt, "Bad Request")), None, None))
      && (ps.SaveFailed? ==> p == Images([], Some(Refusal(StatusInternalServerError, "Internal Server Error", "failed to save poster")), None, None))
    ensures var ps, bs := StoreImage(poster, "poster", posterDisk), StoreImage(backdrop, "backdrop", backdropDisk);
      (ps.NoImage? || ps.Stored?) ==>
        && p.files == StepFiles(ps) + StepFiles(bs)
        && (bs.BadExtension? ==> p.stop == Some(Refusal(StatusBadRequest, badExt, "Bad Request")))
        && (bs.SaveFailed? ==> p.stop == Some(Refusal(StatusInternalServerError, "Internal Server Error", "failed to save backdrop")))
        && (p.stop.None? <==> bs.NoImage? || bs.Stored?)
        && (p.stop.None? ==> p.posterUrl == StepUrl(ps) && p.backdropUrl == StepUrl(bs))
  {
    var ps := StoreImage(poster, "poster", posterDisk);
    match StepRefusal(ps, badExt, "failed to save poster")
    case Some(r) => Images([], Some(r), None, None)
    case None =>
      var bs := StoreImage(backdrop, "backdrop", backdropDisk);
      match StepRefusal(bs, badExt, "failed to save backdrop")
      case Some(r) => Images(StepFiles(ps) + StepFiles(bs), Some(r), None, None)
      case None => Images(StepFiles(ps) + StepFiles(bs), None, StepUrl(ps), StepUrl(bs))
  }

  /** The image URLs of a request replace the bound URL fields only where a
      file was stored. */
  function WithImages(fields: Catalogue.MovieFields, p: Images): (f: Catalogue.MovieFields)
    ensures f.posterUrl == (if p.posterUrl.Some? then p.posterUrl else fields.posterUrl)
    ensures f.backdropUrl == (if p.backdropUrl.Some? then p.backdropUrl else fields.backdropUrl)
    ensures f.(posterUrl := fields.posterUrl, backdropUrl := fields.backdropUrl) == fields
  {
    fields.(posterUrl := if p.posterUrl.Some? then p.posterUrl else fields.posterUrl,
            backdropUrl := if p.backdropUrl.Some? then p.backdropUrl else fields.backdropUrl)
  }

  /** `GET /admin/movies`: the service builds its slice with `make`, so an
      empty catalogue is `[]`, never null. */
  function GetAllMovieAdmin(answer: Result<seq<Catalogue.Movie>>): (r: Reply<seq<Catalogue.Movie>>)
    ensures answer.Err? ==> r == Failure(StatusInternalServerError, "Internal Server Error", answer.error, EmptyList)
    ensures answer.Ok? ==> r == Success(StatusOK, "Get All Movies Success", Payload(answer.value))
    ensures r.success ==> r.data.Payload?
  {
    match answer
    case Err(e) => Failure(StatusInternalServerError, "Internal Server Error", e, EmptyList)
    case Ok(rows) => Success(StatusOK, "Get All Movies Success", Payload(rows))
  }

  /** `DELETE /admin/movies/:id`: a 400 for an id that is not a number,
      otherwise the service is called and only its error turns the 200 into
      a 500. */
  function DeleteMovieAdmin(idParam: string, answer: Option<string>): (x: Exchange<int, ()>)
    ensures x.call.Some? <==> ParseId(idParam).Some?
    ensures x.call.None? ==> x.reply == Failure(StatusBadRequest, "Invalid movie id", AtoiErrorText(idParam), EmptyList)
    ensures x.call.Some? ==> x.call.value == ParseId(idParam).value
    ensures x.call.Some? && answer.Some? ==> x.reply == Failure(StatusInternalServerError, "Failed to delete movie", answer.value, EmptyList)
    ensures x.call.Some? && answer.None? ==> x.reply == Success(StatusOK, "Delete Movie Success", Null)
  {
    match ParseId(idParam)
    case None => Exchange(None, Failure(StatusBadRequest, "Invalid movie id", AtoiErrorText(idParam), EmptyList))
    case Some(id) =>
      match answer
      case Some(e) => Exchange(Some(id), Failure(StatusInternalServerError, "Failed to delete movie", e, EmptyList))
      case None => Exchange(Some(id), Success(StatusOK, "Delete Movie Success", Null))
  }

  /** End to end: deleting an id no movie has is still a 200. */
  lemma DeleteUnknownSucceeds(cat: Catalogue.Catalogue, id: int)
    requires InInt64(id)
    requires forall i :: 0 <= i < |cat.movies| ==> cat.movies[i].id != id
    ensures Catalogue.DeleteMovie(cat, id, None) == (cat, None)
    ensures DeleteMovieAdmin(Itoa(id), Catalogue.DeleteMovie(cat, id, None).1).reply.status == StatusOK
  {
    Catalogue.DeleteUnknown(cat, id);
    AtoiItoa(id);
  }

  /** The bound multipart form of an update. */
  datatype UpdateForm = UpdateForm(fields: Catalogue.MovieFields, poster: Option<Upload>, backdrop: Option<Upload>)

  /** `PATCH /admin/movies/:id`: the id, the form, the poster, the backdrop,
      then the service with the id and the fields, image URLs included. */
  function UpdateMovieAdmin(idParam: string, form: Body<UpdateForm>, posterDisk: Saving, backdropDisk: Saving,
                            answer: Result<Catalogue.Saved>): (u: Upshot<(int, Catalogue.MovieFields), Catalogue.Saved>)
    ensures ParseId(idParam).None? ==>
      u == Upshot([], Exchange(None, Failure(StatusBadRequest, "Invalid movie id", AtoiErrorText(idParam), Null)))
    ensures ParseId(idParam).Some? && form.Malformed? ==>
      u == Upshot([], Exchange(None, Failure(StatusBadRequest, "Bad Request", form.message, Null)))
    ensures ParseId(idParam).Some? && form.Decoded? ==>
      var p := ImagePhase(form.value.poster, form.value.backdrop, posterDisk, backdropDisk, "Invalid image extension");
      && u.files == p.files
      && (p.stop.Some? ==> u.exchange == Exchange(None, Refuse(p.stop.value)))
      && (p.stop.None? ==> u.exchange.call == Some((ParseId(idParam).value, WithImages(form.value.fields, p))))
    ensures u.exchange.call.Some? && answer.Err? ==>
      u.exchange.reply == Failure(StatusInternalServerError, "Internal Server Error", answer.error, Null)
    ensures u.exchange.call.Some? && answer.Ok? ==>
      u.exchange.reply == Success(StatusOK, "Update Movie Success", Payload(answer.value))
  {
    match ParseId(idParam)
    case None => Upshot([], Exchange(None, Failure(StatusBadRequest, "Invalid movie id", AtoiErrorText(idParam), Null)))
    case Some(id) =>
      match form
      case Malformed(m) => Upshot([], Exchange(None, Failure(StatusBadRequest, "Bad Request", m, Null)))
      case Decoded(f) =>
        var p := ImagePhase(f.poster, f.backdrop, posterDisk, backdropDisk, "Invalid image extension");
        if p.stop.Some? then Upshot(p.files, Exchange(None, Refuse(p.stop.value)))
        else
          var call := Some((id, WithImages(f.fields, p)));
          match answer
          case Err(e) => Upshot(p.files, Exchange(call, Failure(StatusInternalServerError, "Internal Server Error", e, Null)))
          case Ok(m) => Upshot(p.files, Exchange(call, Success(StatusOK, "Update Movie Success", Payload(m))))
  }

  /** A poster that is saved while the backdrop is refused stays on disk:
      the request fails with 400 but leaves an unreferenced file behind. */
  lemma OrphanPoster(idParam: string, fields: Catalogue.MovieFields, poster: string, backdrop: string,
                     posterDisk: Saving, backdropDisk: Saving, answer: Result<Catalogue.Saved>)
    requires ParseId(idParam).Some? && posterDisk.ok
    requires MovieImageOk(poster) && !MovieImageOk(backdrop)
    ensures var u := UpdateMovieAdmin(idParam, Decoded(UpdateForm(fields, Some(Upload(poster)), Some(Upload(backdrop)))),
                                      posterDisk, backdropDisk, answer);
      && u.files == [MovieFileName(posterDisk.nanos, "poster", poster)]
      && u.exchange.call.None? && u.exchange.reply.status == StatusBadRequest
  {
  }

  /** End to end: an update that stores a poster, applied to a movie that
      exists, leaves that movie with the poster's URL and every other
      field patched from the form. */
  lemma UploadedPosterStored(cat: Catalogue.Catalogue, i: nat, form: UpdateForm, posterDisk: Saving, backdropDisk: Saving,
                             answer: Result<Catalogue.Saved>, now: int)
    requires i < |cat.movies| && InInt64(cat.movies[i].id)
    requires form.poster.Some? && MovieImageOk(form.poster.value.filename) && posterDisk.ok
    requires form.backdrop.None?
    ensures var u := UpdateMovieAdmin(Itoa(cat.movies[i].id), Decoded(form), posterDisk, backdropDisk, answer);
      && u.exchange.call.Some?
      && var (id, patch) := u.exchange.call.value;
      && id == cat.movies[i].id
      && var (cat', m, err) := Catalogue.UpdateMovie(cat, id, patch, now, None);
      && err.None?
      && cat'.movies[i].fields.posterUrl == Some(MovieUrl(posterDisk.nanos, "poster", form.poster.value.filename))
      && cat'.movies[i].fields.title == (if form.fields.title.Some? then form.fields.title else cat.movies[i].fields.title)
  {
    AtoiItoa(cat.movies[i].id);
  }

  /** The bound multipart form of a create: `genres` holds whatever the
      binder put there, `genreIds` the raw `genre_ids` text. */
  datatype CreateForm = CreateForm(fields: Catalogue.MovieFields, genreIds: string, genres: seq<int>,
                                   poster: Option<Upload>, backdrop: Option<Upload>)

  /** `err.ErrInvalidExt`. */
  const ErrInvalidExt: string := "invalid file extension"

  /** `POST /admin/movies`: the form, the strict `genre_ids` list (appended
      to the bound genres), the poster, the backdrop, then the service; the
      201 wraps the new movie in a one-element list. */
  function CreateMovieAdmin(form: Body<CreateForm>, posterDisk: Saving, backdropDisk: Saving,
                            answer: Result<Catalogue.Saved>): (u: Upshot<(Catalogue.MovieFields, seq<int>), seq<Catalogue.Saved>>)
    ensures form.Malformed? ==> u == Upshot([], Exchange(None, Failure(StatusBadRequest, "Bad Request", form.message, Null)))
    ensures form.Decoded? && GenreIds.StrictGenreIds(form.value.genreIds).Err? ==>
      u == Upshot([], Exchange(None, Failure(StatusBadRequest, "Bad Request", GenreIds.StrictGenreIds(form.value.genreIds).error, Null)))
    ensures form.Decoded? && GenreIds.StrictGenreIds(form.value.genreIds).Ok? ==>
      var p := ImagePhase(form.value.poster, form.value.backdrop, posterDisk, backdropDisk, ErrInvalidExt);
      && u.files == p.files
      && (p.stop.Some? ==> u.exchange == Exchange(None, Refuse(p.stop.value)))
      && (p.stop.None? ==>
            u.exchange.call == Some((WithImages(form.value.fields, p), form.value.genres + GenreIds.StrictGenreIds(form.value.genreIds).value)))
    ensures u.exchange.call.Some? && answer.Err? ==>
      u.exchange.reply == Failure(StatusInternalServerError, "Internal Server Error", answer.error, Null)
    ensures u.exchange.call.Some? && answer.Ok? ==>
      u.exchange.reply == Success(StatusCreated, "Create Movie Success", Payload([answer.value]))
  {
    match form
    case Malformed(m) => Upshot([], Exchange(None, Failure(StatusBadRequest, "Bad Request", m, Null)))
    case Decoded(f) =>
      match GenreIds.StrictGenreIds(f.genreIds)
      case Err(e) => Upshot([], Exchange(None, Failure(StatusBadRequest, "Bad Request", e, Null)))
      case Ok(ids) =>
        var p := ImagePhase(f.poster, f.backdrop, posterDisk, backdropDisk, ErrInvalidExt);
        if p.stop.Some? then Upshot(p.files, Exchange(None, Refuse(p.stop.value)))
        else
          var call := Some((WithImages(f.fields, p), f.genres + ids));
          match answer
          case Err(e) => Upshot(p.files, Exchange(call, Failure(StatusInternalServerError, "Internal Server Error", e, Null)))
          case Ok(m) => Upshot(p.files, Exchange(call, Success(StatusCreated, "Create Movie Success", Payload([m]))))
  }

  /** A bad genre list is refused before any file is saved. */
  lemma BadGenresSaveNothing(form: CreateForm, posterDisk: Saving, backdropDisk: Saving, answer: Result<Catalogue.Saved>)
    requires GenreIds.StrictGenreIds(form.genreIds).Err?
    ensures var u := CreateMovieAdmin(Decoded(form), posterDisk, backdropDisk, answer);
      u.files == [] && u.exchange.call.None? && u.exchange.reply.status == StatusBadRequest
  {
  }

  /** End to end: a created movie without images, read back from the
      catalogue, has exactly the genres of the form, bound ones first, then
      those of `genre_ids` in order. */
  lemma CreatedMovieGenres(cat: Catalogue.Catalogue, form: CreateForm, posterDisk: Saving, backdropDisk: Saving,
                           answer: Result<Catalogue.Saved>, now: int)
    requires GenreIds.StrictGenreIds(form.genreIds).Ok?
    requires form.poster.None? && form.backdrop.None?
    requires Catalogue.GenresOf(cat.movieGenres, cat.nextMovieId) == []
    ensures var u := CreateMovieAdmin(Decoded(form), posterDisk, backdropDisk, answer);
      && u.files == []
      && u.exchange.call.Some?
      && var (fields, genres) := u.exchange.call.value;
      && fields == form.fields
      && var (cat', m, err) := Catalogue.CreateMovie(cat, fields, genres, now, Catalogue.NoTxFault);
      && err.None?
      && Catalogue.GenresOf(cat'.movieGenres, m.id) == form.genres + GenreIds.StrictGenreIds(form.genreIds).value
  {
    var u := CreateMovieAdmin(Decoded(form), posterDisk, backdropDisk, answer);
    var (fields, genres) := u.exchange.call.value;
    Catalogue.CreatedGenres(cat, fields, genres, now);
  }
}

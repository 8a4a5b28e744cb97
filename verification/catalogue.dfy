/** The movie catalogue as the admin repository
    (internal/repository/admin.repository.go) writes it: the `movies` and
    `movie_genres` tables, the COALESCE patch of an update, the
    transactional create and the delete. */
module Catalogue {
  import opened Wrappers
  import opened Sorting
  import opened Seqs

  const ErrNoRows: string := "no rows in result set"

  /** The eight columns an admin writes, each NULL-able (None). The
      popularity score, a float in the database, is kept as an opaque
      number: nothing here computes with it. */
  datatype MovieFields = MovieFields(
    title: Option<string>, synopsis: Option<string>, duration: Option<int>, releaseDate: Option<string>,
    directorId: Option<int>, posterUrl: Option<string>, backdropUrl: Option<string>, popularityScore: Option<int>)

  /** A row of `movies`. Timestamps are integers. */
  datatype Movie = Movie(id: int, fields: MovieFields, createdAt: int, updatedAt: int)

  datatype MovieGenre = MovieGenre(movieId: int, genreId: int)

  /** The catalogue tables and the next value of the `movies.id` serial. */
  datatype Catalogue = Catalogue(movies: seq<Movie>, movieGenres: seq<MovieGenre>, nextMovieId: int)

  const NoFields: MovieFields := MovieFields(None, None, None, None, None, None, None, None)

  /** What `RETURNING id, title, …, popularity_score` scans into
      `model.Movie`: the id and the eight written columns. No timestamp is
      returned, though the row keeps its own. */
  datatype Saved = Saved(id: int, fields: MovieFields)

  /** Go's `model.Movie{}`, returned beside every error. */
  const ZeroSaved: Saved := Saved(0, NoFields)

  /** `col = COALESCE($k, col)` for all eight columns: a given value
      replaces the stored one, a NULL keeps it. */
  function Patch(stored: MovieFields, patch: MovieFields): (r: MovieFields)
    ensures r.title == (if patch.title.Some? then patch.title else stored.title)
    ensures r.synopsis == (if patch.synopsis.Some? then patch.synopsis else stored.synopsis)
    ensures r.duration == (if patch.duration.Some? then patch.duration else stored.duration)
    ensures r.releaseDate == (if patch.releaseDate.Some? then patch.releaseDate else stored.releaseDate)
    ensures r.directorId == (if patch.directorId.Some? then patch.directorId else stored.directorId)
    ensures r.posterUrl == (if patch.posterUrl.Some? then patch.posterUrl else stored.posterUrl)
    ensures r.backdropUrl == (if patch.backdropUrl.Some? then patch.backdropUrl else stored.backdropUrl)
    ensures r.popularityScore == (if patch.popularityScore.Some? then patch.popularityScore else stored.popularityScore)
  {
    MovieFields(
      Coalesce(patch.title, stored.title), Coalesce(patch.synopsis, stored.synopsis),
      Coalesce(patch.duration, stored.duration), Coalesce(patch.releaseDate, stored.releaseDate),
      Coalesce(patch.directorId, stored.directorId), Coalesce(patch.posterUrl, stored.posterUrl),
      Coalesce(patch.backdropUrl, stored.backdropUrl), Coalesce(patch.popularityScore, stored.popularityScore))
  }

  /** SQL `COALESCE(a, b)`. */
  function Coalesce<T>(a: Option<T>, b: Option<T>): Option<T> {
    if a.Some? then a else b
  }

  /** The empty patch changes nothing, a patch applied twice is applied
      once, and two patches in a row are one patch whose later fields win. */
  lemma PatchLaws(f: MovieFields, p: MovieFields, q: MovieFields)
    ensures Patch(f, NoFields) == f
    ensures Patch(Patch(f, p), p) == Patch(f, p)
    ensures Patch(Patch(f, p), q) == Patch(f, Patch(p, q))
  {
  }

  /** A patch that names every column replaces the whole row's fields. */
  lemma FullPatch(f: MovieFields, p: MovieFields)
    requires p.title.Some? && p.synopsis.Some? && p.duration.Some? && p.releaseDate.Some?
    requires p.directorId.Some? && p.posterUrl.Some? && p.backdropUrl.Some? && p.popularityScore.Some?
    ensures Patch(f, p) == p
  {
  }

  function Updater(id: int, patch: MovieFields, now: int): Movie -> Movie {
    (m: Movie) => if m.id == id then m.(fields := Patch(m.fields, patch), updatedAt := now) else m
  }

  /** `UpdateMovieAdmin`: patches the row with the id, sets its
      `updated_at` to the clock reading `now`, and returns the id and the
      patched columns; an unknown id is pgx's no-rows error with the zero
      movie. `failure` is an error the database raises instead. */
  function UpdateMovie(cat: Catalogue, id: int, patch: MovieFields, now: int, failure: Option<string>): (r: (Catalogue, Saved, Option<string>))
    ensures failure.Some? ==> r == (cat, ZeroSaved, failure)
    ensures failure.None? && (forall i :: 0 <= i < |cat.movies| ==> cat.movies[i].id != id) ==>
      r == (cat, ZeroSaved, Some(ErrNoRows))
    ensures r.2.None? ==>
      && (exists i :: 0 <= i < |cat.movies| && cat.movies[i].id == id
            && r.1 == Saved(id, Patch(cat.movies[i].fields, patch)))
    ensures r.0 == cat.(movies := r.0.movies) && |r.0.movies| == |cat.movies|
    ensures r.2.None? ==> forall i :: 0 <= i < |cat.movies| ==>
      && (cat.movies[i].id != id ==> r.0.movies[i] == cat.movies[i])
      && (cat.movies[i].id == id ==> r.0.movies[i] == cat.movies[i].(fields := Patch(cat.movies[i].fields, patch), updatedAt := now))
  {
    if failure.Some? then (cat, ZeroSaved, failure)
    else
      match FindBy(cat.movies, MovieKey, id)
      case None => (cat, ZeroSaved, Some(ErrNoRows))
      case Some(m) =>
        (cat.(movies := Map(cat.movies, Updater(id, patch, now))), Saved(id, Patch(m.fields, patch)), None)
  }

  function MovieKey(m: Movie): int { m.id }

  /** An update with nothing to change still refreshes `updated_at`: the
      row keeps all its columns and only its timestamp moves. */
  lemma EmptyPatchTouches(cat: Catalogue, i: nat, now: int)
    requires i < |cat.movies|
    ensures var (cat', m, err) := UpdateMovie(cat, cat.movies[i].id, NoFields, now, None);
      err.None? && cat'.movies[i] == cat.movies[i].(updatedAt := now)
  {
    PatchLaws(cat.movies[i].fields, NoFields, NoFields);
  }

  /** Where the transaction of `CreateMovieAdmin` fails, if it does: at
      `Begin`, at the movie insert (`drawn` when the refusal came after the
      movie's id was taken from the serial), at the `index`-th genre link,
      or at `Commit`. */
  datatype TxFault = NoTxFault | BeginFails(error: string) | InsertFails(error: string, drawn: bool)
                   | GenreFails(index: nat, error: string) | CommitFails(error: string)

  function LinkTo(movieId: int): int -> MovieGenre {
    (g: int) => MovieGenre(movieId, g)
  }

  /** Whether the transaction reaches `Commit` and commits. */
  predicate Commits(genres: seq<int>, fault: TxFault) {
    && !fault.BeginFails? && !fault.InsertFails? && !fault.CommitFails?
    && !(fault.GenreFails? && fault.index < |genres|)
  }

  /** `CreateMovieAdmin`: in one transaction, the movie (created and updated
      at `now`) and one `movie_genres` row per genre id in list order, none
      for an empty list; it returns the new id and the written columns.
      Any failure returns the zero movie and the error, and the deferred
      rollback leaves both tables as they were (the id serial may have
      moved on once the insert ran). */
  function CreateMovie(cat: Catalogue, fields: MovieFields, genres: seq<int>, now: int, fault: TxFault): (r: (Catalogue, Saved, Option<string>))
    ensures r.2.None? <==> Commits(genres, fault)
    ensures r.2.Some? ==>
      && r.1 == ZeroSaved
      && r.0.movies == cat.movies && r.0.movieGenres == cat.movieGenres
      && r.0.nextMovieId >= cat.nextMovieId
    ensures fault.BeginFails? ==> r.0 == cat
    ensures fault.InsertFails? ==>
      r.0 == cat.(nextMovieId := if fault.drawn then cat.nextMovieId + 1 else cat.nextMovieId)
    ensures r.2.None? ==>
      && r.1 == Saved(cat.nextMovieId, fields)
      && r.0.movies == cat.movies + [Movie(cat.nextMovieId, fields, now, now)]
      && |r.0.movieGenres| == |cat.movieGenres| + |genres|
      && r.0.movieGenres[..|cat.movieGenres|] == cat.movieGenres
      && (forall j :: |cat.movieGenres| <= j < |r.0.movieGenres| ==>
            r.0.movieGenres[j] == MovieGenre(cat.nextMovieId, genres[j - |cat.movieGenres|]))
      && r.0.nextMovieId == cat.nextMovieId + 1
  {
    if fault.BeginFails? then (cat, ZeroSaved, Some(fault.error))
    else if fault.InsertFails? then
      (cat.(nextMovieId := if fault.drawn then cat.nextMovieId + 1 else cat.nextMovieId), ZeroSaved, Some(fault.error))
    else
      var m := Movie(cat.nextMovieId, fields, now, now);
      var rolledBack := cat.(nextMovieId := cat.nextMovieId + 1);
      match fault
      case GenreFails(k, e) =>
        if k < |genres| then (rolledBack, ZeroSaved, Some(e)) else Committed(cat, m, genres)
      case CommitFails(e) => (rolledBack, ZeroSaved, Some(e))
      case NoTxFault => Committed(cat, m, genres)
  }

  function Committed(cat: Catalogue, m: Movie, genres: seq<int>): (Catalogue, Saved, Option<string>) {
    (cat.(movies := cat.movies + [m], movieGenres := cat.movieGenres + Map(genres, LinkTo(m.id)),
          nextMovieId := cat.nextMovieId + 1),
     Saved(m.id, m.fields), None)
  }

  /** The genres linked to a movie, in table order. */
  function GenresOf(links: seq<MovieGenre>, movieId: int): (gs: seq<int>)
    ensures |gs| <= |links|
    decreases |links|
  {
    if |links| == 0 then []
    else (if links[0].movieId == movieId then [links[0].genreId] else []) + GenresOf(links[1..], movieId)
  }

  lemma {:induction false} GenresOfAppend(a: seq<MovieGenre>, b: seq<MovieGenre>, movieId: int)
    ensures GenresOf(a + b, movieId) == GenresOf(a, movieId) + GenresOf(b, movieId)
    decreases |a|
  {
    if |a| > 0 {
      assert (a + b)[1..] == a[1..] + b;
      GenresOfAppend(a[1..], b, movieId);
    } else {
      assert a + b == b;
    }
  }

  lemma {:induction false} GenresOfLinks(genres: seq<int>, movieId: int)
    ensures GenresOf(Map(genres, LinkTo(movieId)), movieId) == genres
    decreases |genres|
  {
    if |genres| > 0 {
      var links := Map(genres, LinkTo(movieId));
      assert links[1..] == Map(genres[1..], LinkTo(movieId));
      GenresOfLinks(genres[1..], movieId);
      assert genres == [genres[0]] + genres[1..];
    }
  }

  /** Reading back a created movie: its genres are exactly the requested
      ones, in order, provided no stale link rows already point at the new
      id (the schema keeps links to existing movies only). */
  lemma {:induction false} CreatedGenres(cat: Catalogue, fields: MovieFields, genres: seq<int>, now: int)
    requires GenresOf(cat.movieGenres, cat.nextMovieId) == []
    ensures var (cat', m, err) := CreateMovie(cat, fields, genres, now, NoTxFault);
      err.None? && GenresOf(cat'.movieGenres, m.id) == genres
  {
    var (cat', m, err) := CreateMovie(cat, fields, genres, now, NoTxFault);
    assert cat'.movieGenres == cat.movieGenres + Map(genres, LinkTo(m.id));
    GenresOfAppend(cat.movieGenres, Map(genres, LinkTo(m.id)), m.id);
    GenresOfLinks(genres, m.id);
  }

  function NotId(id: int): Movie -> bool {
    (m: Movie) => m.id != id
  }

  /** `DELETE FROM movies WHERE id = $1`: success whether or not a row
      matched; only a database error is reported. Links in `movie_genres`
      are left to the schema. */
  function DeleteMovie(cat: Catalogue, id: int, failure: Option<string>): (r: (Catalogue, Option<string>))
    ensures r.1 == failure
    ensures failure.Some? ==> r.0 == cat
    ensures failure.None? ==>
      && r.0 == cat.(movies := r.0.movies)
      && (forall m :: m in r.0.movies <==> m in cat.movies && m.id != id)
  {
    if failure.Some? then (cat, failure) else (cat.(movies := Filter(cat.movies, NotId(id))), None)
  }

  /** Deleting an id no movie has succeeds and leaves the catalogue as it
      was. */
  lemma {:induction false} DeleteUnknown(cat: Catalogue, id: int)
    requires forall i :: 0 <= i < |cat.movies| ==> cat.movies[i].id != id
    ensures DeleteMovie(cat, id, None) == (cat, None)
  {
    FilterKeepsAll(cat.movies, NotId(id));
  }

  lemma {:induction false} FilterKeepsAll<T(!new)>(s: seq<T>, p: T -> bool)
    requires forall i :: 0 <= i < |s| ==> p(s[i])
    ensures Filter(s, p) == s
    decreases |s|
  {
    if |s| > 0 {
      FilterKeepsAll(s[1..], p);
      assert s == [s[0]] + s[1..];
    }
  }

  /** `ORDER BY m.created_at DESC`. */
  predicate NewerFirst(a: Movie, b: Movie) {
    a.createdAt >= b.createdAt
  }

  lemma NewerFirstOrder()
    ensures TotalPreorder(NewerFirst)
  {
  }

  /** `GetAllMovieAdmin`: every movie, newest first. */
  function GetAllMovies(cat: Catalogue): (rows: seq<Movie>)
    ensures multiset(rows) == multiset(cat.movies)
    ensures forall i, j :: 0 <= i < j < |rows| ==> rows[i].createdAt >= rows[j].createdAt
  {
    NewerFirstOrder();
    var rows := InsertionSort(cat.movies, NewerFirst);
    assert SortedBy(rows, NewerFirst);
    rows
  }
}

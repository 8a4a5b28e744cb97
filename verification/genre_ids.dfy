/** The two ways the handlers read a comma-separated list of genre ids:
    strictly in the admin controller (one bad piece refuses the request)
    and leniently in the movie listing (bad pieces are dropped). Both split
    on ',', trim white space around each piece and parse it with
    `strconv.Atoi`. */
module GenreIds {
  import opened Wrappers
  import opened GoConv
  import opened GoStrings

  /** The id a piece stands for, if it parses once trimmed. */
  function PieceId(piece: string): Option<int> {
    ParseId(TrimSpace(piece))
  }

  const GenreIdError: string := "invalid genre_id format: "

  /** Where the admin loop stops: the first piece the parser refuses. */
  function FirstBad(pieces: seq<string>, parse: string -> Option<int>): (k: nat)
    requires exists i :: 0 <= i < |pieces| && parse(pieces[i]).None?
    ensures k < |pieces| && parse(pieces[k]).None?
    ensures forall j :: 0 <= j < k ==> parse(pieces[j]).Some?
    decreases |pieces|
  {
    if parse(pieces[0]).None? then 0
    else
      var i :| 0 <= i < |pieces| && parse(pieces[i]).None?;
      assert parse(pieces[1..][i - 1]).None?;
      1 + FirstBad(pieces[1..], parse)
  }

  /** The admin loop over the pieces with a given piece parser: each parsed
      id appended in order; the first refused piece stops it with an error
      naming that piece as it was. */
  function StrictWith(pieces: seq<string>, parse: string -> Option<int>): (r: Result<seq<int>>)
    ensures r.Ok? <==> forall i :: 0 <= i < |pieces| ==> parse(pieces[i]).Some?
    ensures r.Ok? ==> |r.value| == |pieces| && forall i :: 0 <= i < |pieces| ==> r.value[i] == parse(pieces[i]).value
    ensures r.Err? ==> r.error == GenreIdError + pieces[FirstBad(pieces, parse)]
    decreases |pieces|
  {
    if |pieces| == 0 then Ok([])
    else if parse(pieces[0]).None? then Err(GenreIdError + pieces[0])
    else
      var rest := StrictWith(pieces[1..], parse);
      if rest.Err? then Err(rest.error)
      else Ok([parse(pieces[0]).value] + rest.value)
  }

  /** The admin loop itself: pieces are trimmed and parsed by `strconv.Atoi`. */
  function StrictPieces(pieces: seq<string>): (r: Result<seq<int>>)
    ensures r.Ok? <==> forall i :: 0 <= i < |pieces| ==> PieceId(pieces[i]).Some?
    ensures r.Ok? ==> |r.value| == |pieces| && forall i :: 0 <= i < |pieces| ==> r.value[i] == PieceId(pieces[i]).value
    ensures r.Err? ==> r.error == GenreIdError + pieces[FirstBad(pieces, PieceId)]
  {
    StrictWith(pieces, PieceId)
  }

  /** `genre_ids` of the admin form: the empty string is no genres at all;
      anything else is split on ',' and parsed strictly, so an empty piece
      (",,", a trailing ',') is an error. */
  function StrictGenreIds(s: string): (r: Result<seq<int>>)
    ensures s == "" ==> r == Ok([])
    ensures s != "" ==> r == StrictPieces(Split(s, ','))
  {
    if s == "" then Ok([]) else StrictPieces(Split(s, ','))
  }

  /** The movie-listing loop over the pieces with a given piece parser:
      the ids of the pieces it accepts, in order; the others are dropped
      silently. */
  function LenientWith(pieces: seq<string>, parse: string -> Option<int>): (ids: seq<int>)
    ensures |ids| <= |pieces|
    ensures forall x :: x in ids ==> exists i :: 0 <= i < |pieces| && parse(pieces[i]) == Some(x)
    ensures |pieces| == 1 ==> ids == (if parse(pieces[0]).Some? then [parse(pieces[0]).value] else [])
    ensures (forall i :: 0 <= i < |pieces| ==> parse(pieces[i]).Some?) ==>
      |ids| == |pieces| && forall i :: 0 <= i < |pieces| ==> ids[i] == parse(pieces[i]).value
    ensures (forall i :: 0 <= i < |pieces| ==> parse(pieces[i]).None?) ==> ids == []
    decreases |pieces|
  {
    if |pieces| == 0 then []
    else
      var rest := LenientWith(pieces[1..], parse);
      assert forall i :: 1 <= i < |pieces| ==> pieces[i] == pieces[1..][i - 1];
      (if parse(pieces[0]).Some? then [parse(pieces[0]).value] else []) + rest
  }

  /** The movie-listing loop itself: pieces are trimmed and parsed by
      `strconv.Atoi`. */
  function LenientPieces(pieces: seq<string>): (ids: seq<int>)
    ensures |ids| <= |pieces|
    ensures forall x :: x in ids ==> exists i :: 0 <= i < |pieces| && PieceId(pieces[i]) == Some(x)
    ensures |pieces| == 1 ==> ids == (if PieceId(pieces[0]).Some? then [PieceId(pieces[0]).value] else [])
    ensures (forall i :: 0 <= i < |pieces| ==> PieceId(pieces[i]).Some?) ==>
      |ids| == |pieces| && forall i :: 0 <= i < |pieces| ==> ids[i] == PieceId(pieces[i]).value
    ensures (forall i :: 0 <= i < |pieces| ==> PieceId(pieces[i]).None?) ==> ids == []
  {
    LenientWith(pieces, PieceId)
  }

  /** `genre_id` of the movie listing, which may be repeated: every value
      split on ',' and parsed leniently, values in query order. */
  function LenientGenreIds(values: seq<string>): (ids: seq<int>)
  {
    EachValue(values, ValueIds)
  }

  /** The ids one `genre_id` value contributes. */
  function ValueIds(value: string): seq<int> {
    LenientPieces(Split(value, ','))
  }

  /** The ids of every value, in order. */
  function EachValue(values: seq<string>, ids: string -> seq<int>): seq<int>
    decreases |values|
  {
    if |values| == 0 then [] else ids(values[0]) + EachValue(values[1..], ids)
  }

  /** Lenient parsing goes piece by piece: the pieces of a longer list add
      their ids after those of the shorter one, and one piece contributes
      its id or nothing. */
  lemma {:induction false} LenientWithAppend(a: seq<string>, b: seq<string>, parse: string -> Option<int>)
    ensures LenientWith(a + b, parse) == LenientWith(a, parse) + LenientWith(b, parse)
    decreases |a|
  {
    if |a| == 0 {
      assert a + b == b;
    } else {
      assert (a + b)[1..] == a[1..] + b;
      LenientWithAppend(a[1..], b, parse);
    }
  }

  lemma LenientPiecesAppend(a: seq<string>, b: seq<string>)
    ensures LenientPieces(a + b) == LenientPieces(a) + LenientPieces(b)
  {
    LenientWithAppend(a, b, PieceId);
  }

  lemma LenientPiece(piece: string)
    ensures LenientPieces([piece]) == (if PieceId(piece).Some? then [PieceId(piece).value] else [])
  {
    assert [piece][1..] == [];
  }

  /** Repeated `genre_id` values contribute in query order. */
  lemma {:induction false} EachValueAppend(a: seq<string>, b: seq<string>, ids: string -> seq<int>)
    ensures EachValue(a + b, ids) == EachValue(a, ids) + EachValue(b, ids)
    decreases |a|
  {
    if |a| == 0 {
      assert a + b == b;
    } else {
      assert (a + b)[0] == a[0];
      assert (a + b)[1..] == a[1..] + b;
      EachValueAppend(a[1..], b, ids);
    }
  }

  lemma LenientValuesAppend(a: seq<string>, b: seq<string>)
    ensures LenientGenreIds(a + b) == LenientGenreIds(a) + LenientGenreIds(b)
  {
    EachValueAppend(a, b, ValueIds);
  }

  /** Where the strict parser accepts a list, the lenient one reads the same
      ids from it: the two differ only on lists with a bad piece. */
  lemma {:induction false} StrictWithAgrees(pieces: seq<string>, parse: string -> Option<int>)
    requires StrictWith(pieces, parse).Ok?
    ensures LenientWith(pieces, parse) == StrictWith(pieces, parse).value
    decreases |pieces|
  {
    if |pieces| > 0 {
      StrictWithAgrees(pieces[1..], parse);
    }
  }

  lemma StrictAgreesWithLenient(pieces: seq<string>)
    requires StrictPieces(pieces).Ok?
    ensures LenientPieces(pieces) == StrictPieces(pieces).value
  {
    StrictWithAgrees(pieces, PieceId);
  }

  lemma TrimEmpty()
    ensures TrimSpace("") == ""
  {
  }

  /** For one query value the same holds of the whole string, the empty
      string included (no ids either way). */
  lemma StrictAgreesWithLenientString(s: string)
    requires StrictGenreIds(s).Ok?
    ensures LenientGenreIds([s]) == StrictGenreIds(s).value
  {
    OneValue(s);
    if s == "" {
      EmptyValue();
    } else {
      StrictAgreesWithLenient(Split(s, ','));
    }
  }

  lemma OneValue(s: string)
    ensures LenientGenreIds([s]) == ValueIds(s)
  {
    assert [s][1..] == [];
    assert EachValue([s], ValueIds) == ValueIds(s) + EachValue([], ValueIds);
  }

  /** The empty value is one empty piece, which gives no id. */
  lemma EmptyValue()
    ensures ValueIds("") == []
  {
    assert Split("", ',') == [""];
    TrimEmpty();
    assert PieceId("").None?;
    LenientPiece("");
  }

  /** "7," splits into "7" and an empty piece. */
  lemma SplitTrailingComma()
    ensures Split("7,", ',') == ["7", ""]
  {
    assert Split("", ',') == [""];
    assert ","[1..] == "";
    assert Split(",", ',') == ["", ""];
    assert "7,"[1..] == ",";
    assert ['7'] + "" == "7";
    assert ["", ""][1..] == [""];
  }

  /** "7" is the id 7, and the empty piece is no id. */
  lemma SevenAndEmpty()
    ensures PieceId("7") == Some(7)
    ensures PieceId("").None?
  {
    TrimEmpty();
    assert TrimSpace("7") == "7";
    assert Atoi("7") == Parsed(7) by { AtoiItoa(7); assert Itoa(7) == "7"; }
  }

  /** The admin parser refuses "7," naming the empty piece. */
  lemma StrictTrailingComma()
    ensures StrictGenreIds("7,") == Err(GenreIdError)
  {
    SplitTrailingComma();
    SevenAndEmpty();
    var pieces := ["7", ""];
    assert PieceId(pieces[0]).Some? && PieceId(pieces[1]).None?;
    var k := FirstBad(pieces, PieceId);
    assert k == 1;
    assert GenreIdError + "" == GenreIdError;
  }

  /** The listing parser reads "7," as the one id 7. */
  lemma LenientTrailingComma()
    ensures LenientGenreIds(["7,"]) == [7]
  {
    SplitTrailingComma();
    SevenAndEmpty();
    OneValue("7,");
    assert ["7"] + [""] == ["7", ""];
    LenientPiecesAppend(["7"], [""]);
    LenientPiece("7");
    LenientPiece("");
  }

  /** A trailing comma is refused by the admin parser with an error naming
      the empty piece, while the listing parser just drops it. */
  lemma TrailingComma()
    ensures StrictGenreIds("7,") == Err(GenreIdError)
    ensures LenientGenreIds(["7,"]) == [7]
  {
    StrictTrailingComma();
    LenientTrailingComma();
  }
}

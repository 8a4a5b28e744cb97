/** Image uploads: the extension whitelists of the admin and user
    handlers, and the names under which accepted files are stored
    (internal/controller/admin.controller.go,
    internal/controller/users.controller.go). The nanosecond clock reading
    in each name is a parameter. */
module Uploads {
  import opened GoConv
  import opened GoStrings

  /** A multipart file part, known by its client-side name. */
  datatype Upload = Upload(filename: string)

  /** The clock reading that names a saved file and whether writing it to
      disk succeeds. */
  datatype Saving = Saving(nanos: int, ok: bool)

  /** `^[.](jpg|png|jpeg)$` against `path.Ext(filename)`: the whole
      extension, case included, must be one of the three. */
  predicate MovieExtOk(ext: string) {
    ext in {".jpg", ".png", ".jpeg"}
  }

  /** `^[.](jpg|png)$`: profile pictures allow no ".jpeg". */
  predicate ProfileExtOk(ext: string) {
    ext in {".jpg", ".png"}
  }

  predicate MovieImageOk(filename: string) {
    MovieExtOk(PathExt(filename))
  }

  predicate ProfileImageOk(filename: string) {
    ProfileExtOk(PathExt(filename))
  }

  /** The two whitelists differ in exactly ".jpeg": every profile picture
      would pass as a movie image, and no other extension separates them. */
  lemma WhitelistsCompared(filename: string)
    ensures ProfileImageOk(filename) ==> MovieImageOk(filename)
    ensures MovieImageOk(filename) && !ProfileImageOk(filename) ==> PathExt(filename) == ".jpeg"
  {
  }

  /** A name that ends in a '.' followed by neither '.' nor '/' has that
      ending as its extension, whatever precedes it. */
  lemma {:induction false} ExtOfSuffix(stem: string, ext: string)
    requires |ext| > 0 && ext[0] == '.'
    requires forall k :: 0 < k < |ext| ==> ext[k] != '.' && ext[k] != '/'
    ensures PathExt(stem + ext) == ext
    decreases |ext|
  {
    var p := stem + ext;
    if |ext| > 1 {
      var init := ext[..|ext| - 1];
      assert p[..|p| - 1] == stem + init;
      ExtOfSuffix(stem, init);
      assert ext == init + [ext[|ext| - 1]];
    }
  }

  /** "x.jpeg" is a movie image but not a profile picture. */
  lemma JpegSeparates()
    ensures MovieImageOk("x.jpeg") && !ProfileImageOk("x.jpeg")
  {
    ExtOfSuffix("x", ".jpeg");
    assert "x" + ".jpeg" == "x.jpeg";
  }

  /** The match is case-sensitive: "x.JPG" is refused. */
  lemma CaseSensitive()
    ensures !MovieImageOk("x.JPG")
  {
    ExtOfSuffix("x", ".JPG");
    assert "x" + ".JPG" == "x.JPG";
  }

  /** Only the last extension counts: "x.jpg.exe" is refused. */
  lemma LastExtensionCounts()
    ensures !MovieImageOk("x.jpg.exe")
  {
    ExtOfSuffix("x.jpg", ".exe");
    assert "x.jpg" + ".exe" == "x.jpg.exe";
  }

  /** An accepted file name ends with its accepted extension. */
  lemma AcceptedNameEndsWithExt(filename: string)
    requires MovieImageOk(filename)
    ensures var e := PathExt(filename); |e| <= |filename| && filename[|filename| - |e|..] == e && MovieExtOk(e)
  {
  }

  /** `fmt.Sprintf("%d_<kind>_%s", nanos, filename)`: a movie image keeps
      its whole original name after the stamp. */
  function MovieFileName(nanos: int, kind: string, filename: string): string {
    Itoa(nanos) + "_" + (kind + "_" + filename)
  }

  /** `fmt.Sprintf("/movie/%s", name)`, the URL stored in the database. */
  function MovieUrl(nanos: int, kind: string, filename: string): (url: string)
    ensures |url| >= 7 && url[..7] == "/movie/"
  {
    "/movie/" + MovieFileName(nanos, kind, filename)
  }

  /** `fmt.Sprintf("%d_profile_%d%s", nanos, userId, ext)`: a profile
      picture keeps only its extension. */
  function ProfileFileName(nanos: int, userId: int, ext: string): string {
    Itoa(nanos) + "_" + ("profile_" + Itoa(userId) + ext)
  }

  /** `fmt.Sprintf("/profile/%s", name)`. */
  function ProfilePath(nanos: int, userId: int, ext: string): (p: string)
    ensures |p| >= 9 && p[..9] == "/profile/"
  {
    "/profile/" + ProfileFileName(nanos, userId, ext)
  }

  /** Two strings that each start with a marker character cannot be
      glued behind two different marker-free prefixes into one string. */
  lemma SplitAtMark(a1: string, b1: string, a2: string, b2: string, c: char)
    requires c !in a1 && c !in a2
    requires |b1| > 0 && b1[0] == c && |b2| > 0 && b2[0] == c
    requires a1 + b1 == a2 + b2
    ensures a1 == a2 && b1 == b2
  {
    FirstMark(a1, b1, c);
    FirstMark(a2, b2, c);
    assert |a1| == |a2|;
    assert a1 == (a1 + b1)[..|a1|];
    assert a2 == (a2 + b2)[..|a2|];
    assert b1 == (a1 + b1)[|a1|..];
    assert b2 == (a2 + b2)[|a2|..];
  }

  /** The first marker of `a + b` is where `b` starts. */
  lemma FirstMark(a: string, b: string, c: char)
    requires c !in a && |b| > 0 && b[0] == c
    ensures (a + b)[|a|] == c
    ensures forall i :: 0 <= i < |a| ==> (a + b)[i] != c
  {
    forall i | 0 <= i < |a| ensures (a + b)[i] != c {
      assert (a + b)[i] == a[i];
    }
  }

  lemma ItoaHasNo(n: int, c: char)
    requires c != '-' && !IsDigit(c)
    ensures c !in Itoa(n)
  {
  }

  /** A stored movie URL names its upload unambiguously: the same URL for
      the same kind means the same clock reading and the same original
      file name. */
  lemma MovieUrlInjective(n1: int, f1: string, n2: int, f2: string, kind: string)
    requires MovieUrl(n1, kind, f1) == MovieUrl(n2, kind, f2)
    ensures n1 == n2 && f1 == f2
  {
    StripPrefix("/movie/", MovieFileName(n1, kind, f1), MovieFileName(n2, kind, f2));
    StampInjective(n1, kind + "_" + f1, n2, kind + "_" + f2);
    StripPrefix(kind + "_", f1, f2);
  }

  /** A stored profile path names its owner: the same path means the same
      clock reading, the same user and the same accepted extension, so two
      users never share a picture path. */
  lemma ProfilePathInjective(n1: int, u1: int, e1: string, n2: int, u2: int, e2: string)
    requires ProfileExtOk(e1) && ProfileExtOk(e2)
    requires ProfilePath(n1, u1, e1) == ProfilePath(n2, u2, e2)
    ensures n1 == n2 && u1 == u2 && e1 == e2
  {
    StripPrefix("/profile/", ProfileFileName(n1, u1, e1), ProfileFileName(n2, u2, e2));
    ProfileFileNameInjective(n1, u1, e1, n2, u2, e2);
  }

  lemma ProfileFileNameInjective(n1: int, u1: int, e1: string, n2: int, u2: int, e2: string)
    requires ProfileExtOk(e1) && ProfileExtOk(e2)
    requires ProfileFileName(n1, u1, e1) == ProfileFileName(n2, u2, e2)
    ensures n1 == n2 && u1 == u2 && e1 == e2
  {
    StampInjective(n1, "profile_" + Itoa(u1) + e1, n2, "profile_" + Itoa(u2) + e2);
    assert "profile_" + Itoa(u1) + e1 == "profile_" + (Itoa(u1) + e1);
    assert "profile_" + Itoa(u2) + e2 == "profile_" + (Itoa(u2) + e2);
    StripPrefix("profile_", Itoa(u1) + e1, Itoa(u2) + e2);
    ItoaHasNo(u1, '.');
    ItoaHasNo(u2, '.');
    SplitAtMark(Itoa(u1), e1, Itoa(u2), e2, '.');
    ItoaInjective(u1, u2);
  }

  /** A name that starts with a stamp and '_' gives back the stamp and the
      rest. */
  lemma StampInjective(n1: int, rest1: string, n2: int, rest2: string)
    requires Itoa(n1) + "_" + rest1 == Itoa(n2) + "_" + rest2
    ensures n1 == n2 && rest1 == rest2
  {
    ItoaHasNo(n1, '_');
    ItoaHasNo(n2, '_');
    assert Itoa(n1) + "_" + rest1 == Itoa(n1) + ("_" + rest1);
    assert Itoa(n2) + "_" + rest2 == Itoa(n2) + ("_" + rest2);
    SplitAtMark(Itoa(n1), "_" + rest1, Itoa(n2), "_" + rest2, '_');
    ItoaInjective(n1, n2);
    StripPrefix("_", rest1, rest2);
  }

  lemma StripPrefix(p: string, a: string, b: string)
    requires p + a == p + b
    ensures a == b
  {
    assert a == (p + a)[|p|..];
    assert b == (p + b)[|p|..];
  }
}

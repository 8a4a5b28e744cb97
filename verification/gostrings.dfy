/** The parts of Go's `strings` and `path` packages the handlers rely on:
    `strings.Split` with a one-character separator, `strings.TrimSpace`,
    `path.Ext`, and the byte-wise ordering PostgreSQL applies to text under
    the C collation. */
module GoStrings {

  /** `strings.Split(s, string(sep))`: the pieces between separators, in
      order. The empty string gives one empty piece, a leading, trailing or
      doubled separator gives an empty piece. */
  function Split(s: string, sep: char): (parts: seq<string>)
    ensures |parts| >= 1
    ensures forall i :: 0 <= i < |parts| ==> sep !in parts[i]
    decreases |s|
  {
    if |s| == 0 then [""]
    else
      var rest := Split(s[1..], sep);
      if s[0] == sep then [""] + rest
      else [[s[0]] + rest[0]] + rest[1..]
  }

  /** `strings.Join(parts, string(sep))`. */
  function Join(parts: seq<string>, sep: char): string
    decreases |parts|
  {
    if |parts| == 0 then ""
    else if |parts| == 1 then parts[0]
    else parts[0] + [sep] + Join(parts[1..], sep)
  }

  /** Splitting loses nothing: joining the pieces back gives the input. */
  lemma {:induction false} JoinSplit(s: string, sep: char)
    ensures Join(Split(s, sep), sep) == s
    decreases |s|
  {
    if |s| > 0 {
      var rest := Split(s[1..], sep);
      JoinSplit(s[1..], sep);
      if s[0] == sep {
        assert Split(s, sep) == [""] + rest;
        assert ([""] + rest)[1..] == rest;
      } else {
        var parts := Split(s, sep);
        assert parts == [[s[0]] + rest[0]] + rest[1..];
        if |rest| == 1 {
          assert Join(parts, sep) == [s[0]] + rest[0];
        } else {
          assert parts[1..] == rest[1..];
          assert Join(rest, sep) == rest[0] + [sep] + Join(rest[1..], sep);
        }
      }
    }
  }

  /** Splitting a join gives the pieces back, provided no piece contains the
      separator. */
  lemma {:induction false} SplitJoin(parts: seq<string>, sep: char)
    requires |parts| >= 1
    requires forall i :: 0 <= i < |parts| ==> sep !in parts[i]
    ensures Split(Join(parts, sep), sep) == parts
    decreases |parts|, |parts[0]|
  {
    if |parts[0]| > 0 {
      var p := parts[0];
      var tail := [p[1..]] + parts[1..];
      assert sep !in p[1..] by {
        forall k | 0 <= k < |p[1..]| ensures p[1..][k] != sep {
          assert p[1..][k] == p[k + 1];
        }
      }
      assert forall i :: 0 <= i < |tail| ==> sep !in tail[i] by {
        forall i | 0 <= i < |tail| ensures sep !in tail[i] {
          if i > 0 { assert tail[i] == parts[i]; }
        }
      }
      SplitJoin(tail, sep);
      var j := Join(parts, sep);
      assert j == [p[0]] + Join(tail, sep) by {
        if |parts| == 1 {
          assert p == [p[0]] + p[1..];
        } else {
          assert tail[1..] == parts[1..];
          assert p == [p[0]] + p[1..];
        }
      }
      assert j[1..] == Join(tail, sep);
      assert p[0] != sep by { assert p[0] in p; }
      var rest := Split(j[1..], sep);
      assert Split(j, sep) == [[j[0]] + rest[0]] + rest[1..];
      assert rest == tail;
      assert [p[0]] + p[1..] == p;
      assert parts == [p] + parts[1..];
    } else if |parts| > 1 {
      var tail := parts[1..];
      assert forall i :: 0 <= i < |tail| ==> sep !in tail[i] by {
        forall i | 0 <= i < |tail| ensures sep !in tail[i] {
          assert tail[i] == parts[i + 1];
        }
      }
      SplitJoin(tail, sep);
      var j := Join(parts, sep);
      assert j == [sep] + Join(tail, sep);
      assert j[1..] == Join(tail, sep);
      assert parts == [""] + tail;
    }
  }

  /** `unicode.IsSpace`: the Latin-1 white space characters and the Unicode
      space separators Go's `strings.TrimSpace` removes. */
  predicate IsSpace(c: char) {
    || c == ' ' || c == '\t' || c == '\n' || c == '\r'
    || c == '\U{000B}' || c == '\U{000C}' || c == '\U{0085}' || c == '\U{00A0}'
    || c == '\U{1680}' || ('\U{2000}' <= c <= '\U{200A}')
    || c == '\U{2028}' || c == '\U{2029}' || c == '\U{202F}' || c == '\U{205F}'
    || c == '\U{3000}'
  }

  /** The first index at or after `lo` that holds no white space, or `|s|`:
      where `strings.TrimSpace`'s result starts when `lo` is 0. */
  function TrimStart(s: string, lo: nat): (i: nat)
    requires lo <= |s|
    ensures lo <= i <= |s|
    ensures forall k :: lo <= k < i ==> IsSpace(s[k])
    ensures i < |s| ==> !IsSpace(s[i])
    decreases |s| - lo
  {
    if lo < |s| && IsSpace(s[lo]) then TrimStart(s, lo + 1) else lo
  }

  /** The least index above `lo`, and at most `hi`, after which `s[..hi]`
      holds only white space: where the result ends. */
  function TrimEnd(s: string, lo: nat, hi: nat): (j: nat)
    requires lo <= hi <= |s|
    ensures lo <= j <= hi
    ensures forall k :: j <= k < hi ==> IsSpace(s[k])
    ensures j > lo ==> !IsSpace(s[j - 1])
    decreases hi
  {
    if hi > lo && IsSpace(s[hi - 1]) then TrimEnd(s, lo, hi - 1) else hi
  }

  /** `strings.TrimSpace`: the slice `s[lo..hi]` left after removing white
      space at both ends; only white space is dropped, and none is left at
      either end. */
  function TrimSpace(s: string): (r: string)
    ensures exists lo, hi ::
              && 0 <= lo <= hi <= |s| && r == s[lo..hi]
              && (forall k :: 0 <= k < lo ==> IsSpace(s[k]))
              && (forall k :: hi <= k < |s| ==> IsSpace(s[k]))
    ensures |r| > 0 ==> !IsSpace(r[0]) && !IsSpace(r[|r| - 1])
    ensures |r| == 0 ==> forall k :: 0 <= k < |s| ==> IsSpace(s[k])
  {
    var lo := TrimStart(s, 0);
    var hi := TrimEnd(s, lo, |s|);
    s[lo..hi]
  }

  /** Trimming twice is trimming once. */
  lemma TrimSpaceIdempotent(s: string)
    ensures TrimSpace(TrimSpace(s)) == TrimSpace(s)
  {
    var t := TrimSpace(s);
    if |t| > 0 {
      assert TrimStart(t, 0) == 0;
      assert TrimEnd(t, 0, |t|) == |t|;
    }
  }

  /** `path.Ext`: the suffix of `p` starting at the last '.' of its final
      '/'-separated element, or "" when that element has no '.'. */
  function PathExt(p: string): (e: string)
    ensures |e| <= |p| && e == p[|p| - |e|..]
    ensures |e| > 0 ==> e[0] == '.'
    ensures forall k :: 0 < k < |e| ==> e[k] != '.' && e[k] != '/'
    ensures |e| == 0 ==> forall k :: 0 <= k < |p| && p[k] == '.' ==> exists j :: k < j < |p| && p[j] == '/'
    decreases |p|
  {
    if |p| == 0 || p[|p| - 1] == '/' then ""
    else if p[|p| - 1] == '.' then "."
    else
      var e := PathExt(p[..|p| - 1]);
      if |e| == 0 then ""
      else e + [p[|p| - 1]]
  }

  /** The ordering PostgreSQL's C collation puts on text: code point by
      code point, a proper prefix first. */
  predicate StrLeq(a: string, b: string)
    decreases |a|
  {
    |a| == 0 || (|b| > 0 && (a[0] < b[0] || (a[0] == b[0] && StrLeq(a[1..], b[1..]))))
  }

  lemma {:induction false} StrLeqTotal(a: string, b: string)
    ensures StrLeq(a, b) || StrLeq(b, a)
    decreases |a|
  {
    if |a| > 0 && |b| > 0 && a[0] == b[0] {
      StrLeqTotal(a[1..], b[1..]);
    }
  }

  lemma {:induction false} StrLeqTransitive(a: string, b: string, c: string)
    requires StrLeq(a, b) && StrLeq(b, c)
    ensures StrLeq(a, c)
    decreases |a|
  {
    if |a| > 0 && a[0] == b[0] && b[0] == c[0] {
      StrLeqTransitive(a[1..], b[1..], c[1..]);
    }
  }

  lemma {:induction false} StrLeqAntisymmetric(a: string, b: string)
    requires StrLeq(a, b) && StrLeq(b, a)
    ensures a == b
    decreases |a|
  {
    if |a| > 0 {
      StrLeqAntisymmetric(a[1..], b[1..]);
      assert a == [a[0]] + a[1..];
      assert b == [b[0]] + b[1..];
    }
  }
}

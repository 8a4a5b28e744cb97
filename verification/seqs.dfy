/** Generic operations on table rows: mapping (the services copying
    repository rows into response structs), filtering (a `WHERE` clause) and
    lookup by primary key (`QueryRow ... WHERE id = $1`). */
module Seqs {
  import opened Wrappers

  function Map<T, U>(s: seq<T>, f: T -> U): (r: seq<U>)
    ensures |r| == |s|
    ensures forall i :: 0 <= i < |s| ==> r[i] == f(s[i])
  {
    seq(|s|, i requires 0 <= i < |s| => f(s[i]))
  }

  lemma MapConcat<T, U>(x: seq<T>, y: seq<T>, f: T -> U)
    ensures Map(x + y, f) == Map(x, f) + Map(y, f)
  {
  }

  /** Mapping respects permutation: rows that are a reordering of each
      other map to rows that are a reordering of each other. */
  lemma {:induction false} MapPermutation<T, U>(a: seq<T>, b: seq<T>, f: T -> U)
    requires multiset(a) == multiset(b)
    ensures multiset(Map(a, f)) == multiset(Map(b, f))
    decreases |a|
  {
    if |a| == 0 {
      assert |multiset(b)| == 0;
    } else {
      var k := MatchHead(a, b);
      MapPermutation(a[1..], b[..k] + b[k + 1..], f);
      MapAround(a, 0, f);
      MapAround(b, k, f);
      assert a[..0] == [];
      assert Map(a, f) == [f(a[0])] + Map(a[1..], f);
      MapConcat(b[..k], b[k + 1..], f);
      Regroup(Map(a, f), Map(b, f), f(a[0]), Map(a[1..], f), Map(b[..k], f), Map(b[k + 1..], f));
    }
  }

  /** Where the head of `a` sits in a reordering `b` of it; the rest of `a`
      reorders `b` without that element. */
  lemma MatchHead<T>(a: seq<T>, b: seq<T>) returns (k: nat)
    requires |a| > 0 && multiset(a) == multiset(b)
    ensures k < |b| && b[k] == a[0]
    ensures multiset(a[1..]) == multiset(b[..k] + b[k + 1..])
  {
    assert a[0] in multiset(b);
    k :| 0 <= k < |b| && b[k] == a[0];
    RemoveAt(a, 0);
    assert a[..0] + a[1..] == a[1..];
    RemoveAt(b, k);
  }

  /** Mapping a row list is mapping the rows before, at and after `k`. */
  lemma MapAround<T, U>(s: seq<T>, k: nat, f: T -> U)
    requires k < |s|
    ensures Map(s, f) == Map(s[..k], f) + [f(s[k])] + Map(s[k + 1..], f)
  {
    assert s == s[..k] + [s[k]] + s[k + 1..];
    MapConcat(s[..k] + [s[k]], s[k + 1..], f);
    MapConcat(s[..k], [s[k]], f);
  }

  lemma Regroup<U>(ma: seq<U>, mb: seq<U>, y: U, m1: seq<U>, ml: seq<U>, mr: seq<U>)
    requires ma == [y] + m1 && mb == ml + [y] + mr
    requires multiset(m1) == multiset(ml + mr)
    ensures multiset(ma) == multiset(mb)
  {
  }

  lemma RemoveAt<T>(s: seq<T>, k: nat)
    requires k < |s|
    ensures multiset(s[..k] + s[k + 1..]) == multiset(s) - multiset{s[k]}
  {
    assert s == s[..k] + [s[k]] + s[k + 1..];
  }

  function Filter<T(!new)>(s: seq<T>, p: T -> bool): (r: seq<T>)
    ensures |r| <= |s|
    ensures forall x :: x in r <==> x in s && p(x)
    ensures forall i :: 0 <= i < |r| ==> p(r[i])
    decreases |s|
  {
    if |s| == 0 then []
    else (if p(s[0]) then [s[0]] else []) + Filter(s[1..], p)
  }

  /** The first row whose key is `id`, or None when no row has it. */
  function FindBy<T>(s: seq<T>, key: T -> int, id: int): (r: Option<T>)
    ensures r.Some? ==> r.value in s && key(r.value) == id
    ensures r.None? <==> forall i :: 0 <= i < |s| ==> key(s[i]) != id
    decreases |s|
  {
    if |s| == 0 then None
    else if key(s[0]) == id then Some(s[0])
    else FindBy(s[1..], key, id)
  }
}

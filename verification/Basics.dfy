/** Small things that several of the models share. */
module Basics {

  datatype Option<T> = None | Some(value: T)

  type byte = x: int | 0 <= x < 256 witness 0

  function One(b: bool): int {
    if b then 1 else 0
  }

  function Min(a: int, b: int): int {
    if a < b then a else b
  }

  function Max(a: int, b: int): int {
    if a < b then b else a
  }

  predicate Distinct(s: seq<int>) {
    forall i, j :: 0 <= i < j < |s| ==> s[i] != s[j]
  }

  function Insert<T>(s: seq<T>, k: nat, x: T): seq<T>
    requires k <= |s|
  {
    s[..k] + [x] + s[k..]
  }

  function Remove<T>(s: seq<T>, k: nat): seq<T>
    requires k < |s|
  {
    s[..k] + s[k + 1..]
  }

  lemma RemoveAt<T>(s: seq<T>, k: nat)
    requires k < |s|
    ensures |Remove(s, k)| == |s| - 1
    ensures forall i :: 0 <= i < |s| - 1 ==> Remove(s, k)[i] == s[if i < k then i else i + 1]
  {
  }

  lemma RemoveIn(s: seq<int>, k: nat)
    requires k < |s| && Distinct(s)
    ensures Distinct(Remove(s, k)) && forall x :: x in Remove(s, k) <==> x in s && x != s[k]
  {
    RemoveAt(s, k);
    forall x ensures x in Remove(s, k) <==> x in s && x != s[k] {
      if x in s && x != s[k] {
        var i :| 0 <= i < |s| && s[i] == x;
        assert Remove(s, k)[if i < k then i else i - 1] == x;
      }
    }
  }

  lemma InsertIn(s: seq<int>, k: nat, x: int)
    requires k <= |s|
    ensures forall y :: y in Insert(s, k, x) <==> y == x || y in s
    ensures Distinct(s) && x !in s ==> Distinct(Insert(s, k, x))
  {
    assert s == s[..k] + s[k..];
    var r := Insert(s, k, x);
    assert forall i :: 0 <= i < |r| ==> r[i] == if i < k then s[i] else if i == k then x else s[i - 1];
    forall y ensures y in r <==> y == x || y in s {
      assert r[k] == x;
    }
  }

  /** A set of pairs in which only the membership of `x` may change. */
  lemma PairsOnly(r: set<(nat, nat)>, r': set<(nat, nat)>, x: (nat, nat), keep: bool)
    requires forall t: nat, j: nat :: (t, j) in r' <==> if (t, j) == x then keep else (t, j) in r
    ensures r' == if keep then r + {x} else r - {x}
  {
    forall y: (nat, nat) ensures y in r' <==> if y == x then keep else y in r {
      assert y == (y.0, y.1);
    }
  }
}

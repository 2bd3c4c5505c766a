/** The circular free list and the hash chains of the buffer cache, as linked records (fs/buffer.c). */
module BufferLinks {
  import opened Basics

  const NULL: int := -1

  type Links = map<int, int>

  // ---------------------------------------------------------------- the ring

  function Nx(i: nat, n: nat): nat {
    if i + 1 == n then 0 else i + 1
  }

  function Pv(i: nat, n: nat): nat
    requires n > 0
  {
    if i == 0 then n - 1 else i - 1
  }

  predicate RingAt(nf: Links, pf: Links, r: seq<int>, i: nat)
    requires i < |r|
  {
    r[i] in nf && r[i] in pf && nf[r[i]] == r[Nx(i, |r|)] && pf[r[i]] == r[Pv(i, |r|)]
  }

  /** `r` is the list one walks from `first` around the ring. */
  ghost predicate Ring(nf: Links, pf: Links, first: int, r: seq<int>) {
    && Distinct(r) && NULL !in r && first == (if r == [] then NULL else r[0])
    && forall i :: 0 <= i < |r| ==> RingAt(nf, pf, r, i)
  }

  /** remove_from_free_list, the links around `b` closed. */
  function Unlinked(l: Links, m: Links, b: int): Links
    requires b in l && b in m
  {
    l[m[b] := l[b]][b := NULL]
  }

  lemma UnlinkAt(nf: Links, pf: Links, first: int, r: seq<int>, k: nat, i: nat)
    requires Ring(nf, pf, first, r) && k < |r| && |r| >= 2 && i < |r| - 1 && r[k] in nf && r[k] in pf
    ensures RingAt(Unlinked(nf, pf, r[k]), Unlinked(pf, nf, r[k]), Remove(r, k), i)
  {
    RemoveAt(r, k);
    var j := if i < k then i else i + 1;
    var n := |r|;
    assert RingAt(nf, pf, r, k) && RingAt(nf, pf, r, j);
    assert r[j] != r[k];
    assert nf[r[k]] == r[Nx(k, n)] && pf[r[k]] == r[Pv(k, n)];
    assert r[j] == r[Pv(k, n)] <==> j == Pv(k, n);
    assert r[j] == r[Nx(k, n)] <==> j == Nx(k, n);
  }

  lemma Unlink(nf: Links, pf: Links, first: int, r: seq<int>, k: nat)
    requires Ring(nf, pf, first, r) && k < |r| && |r| >= 2
    ensures r[k] in nf && r[k] in pf
    ensures Ring(Unlinked(nf, pf, r[k]), Unlinked(pf, nf, r[k]), if first == r[k] then nf[r[k]]
        else first, Remove(r, k))
  {
    RemoveAt(r, k);
    RemoveIn(r, k);
    assert RingAt(nf, pf, r, k) && RingAt(nf, pf, r, 0);
    forall i | 0 <= i < |r| - 1 ensures RingAt(Unlinked(nf, pf, r[k]), Unlinked(pf, nf, r[k]), Remove(r, k), i) {
      UnlinkAt(nf, pf, first, r, k, i);
    }
  }

  /** A record put in between the last and the first of a ring that is not empty. */
  lemma Link(nf: Links, pf: Links, first: int, r: seq<int>, b: int)
    requires Ring(nf, pf, first, r) && r != [] && b !in r && b != NULL
    ensures first in pf && Ring(nf[b := first][pf[first] := b], pf[b := pf[first]][first := b], first, r + [b])
  {
    var n := |r|;
    assert RingAt(nf, pf, r, 0);
    var nf', pf', r' := nf[b := first][pf[first] := b], pf[b := pf[first]][first := b], r + [b];
    forall i | 0 <= i < n + 1 ensures RingAt(nf', pf', r', i) {
      if i < n {
        assert RingAt(nf, pf, r, i);
        assert r[i] == r[n - 1] <==> i == n - 1;
        assert r[i] == r[0] <==> i == 0;
      }
    }
  }

  /** The ring seen from its second record. */
  lemma Rotate(nf: Links, pf: Links, first: int, r: seq<int>)
    requires Ring(nf, pf, first, r) && r != []
    ensures first in nf && Ring(nf, pf, nf[first], r[1..] + [r[0]])
  {
    var n, r' := |r|, r[1..] + [r[0]];
    assert RingAt(nf, pf, r, 0);
    assert forall i :: 0 <= i < n ==> r'[i] == r[Nx(i, n)];
    forall i | 0 <= i < n ensures RingAt(nf, pf, r', i) {
      assert RingAt(nf, pf, r, Nx(i, n));
    }
    forall i, j | 0 <= i < j < n ensures r'[i] != r'[j] { assert Nx(i, n) != Nx(j, n); }
  }

  /** The ring seen from its last record. */
  lemma RotateBack(nf: Links, pf: Links, first: int, r: seq<int>)
    requires Ring(nf, pf, first, r) && r != []
    ensures Ring(nf, pf, r[|r| - 1], [r[|r| - 1]] + r[..|r| - 1])
  {
    var n := |r|;
    var r' := [r[n - 1]] + r[..n - 1];
    assert forall i :: 0 <= i < n ==> r'[i] == r[Pv(i, n)];
    forall i | 0 <= i < n ensures RingAt(nf, pf, r', i) {
      assert RingAt(nf, pf, r, Pv(i, n));
    }
    forall i, j | 0 <= i < j < n ensures r'[i] != r'[j] { assert Pv(i, n) != Pv(j, n); }
  }

  /** A ring of one. */
  lemma Alone(nf: Links, pf: Links, b: int)
    requires b != NULL
    ensures Ring(nf[b := b], pf[b := b], b, [b])
  {
  }

  // ---------------------------------------------------------------- the chains

  function After(c: seq<int>, i: nat): int {
    if i + 1 < |c| then c[i + 1] else NULL
  }

  function Before(c: seq<int>, i: nat): int
    requires i <= |c|
  {
    if i > 0 then c[i - 1] else NULL
  }

  predicate ChainAt(nx: Links, pv: Links, c: seq<int>, i: nat)
    requires i < |c|
  {
    c[i] in nx && c[i] in pv && nx[c[i]] == After(c, i) && pv[c[i]] == Before(c, i)
  }

  /** `c` is the list one walks from `head` along a chain. */
  ghost predicate Chain(nx: Links, pv: Links, head: int, c: seq<int>) {
    && Distinct(c) && NULL !in c && head == (if c == [] then NULL else c[0])
    && forall i :: 0 <= i < |c| ==> ChainAt(nx, pv, c, i)
  }

  /** remove_from_hash_queue on one of the two link fields: the neighbour behind `b` passes it over. */
  function Skipped(l: Links, m: Links, b: int): Links
    requires b in l && b in m
  {
    (if m[b] == NULL then l else l[m[b] := l[b]])[b := NULL]
  }

  lemma SkipAt(nx: Links, pv: Links, head: int, c: seq<int>, k: nat, i: nat)
    requires Chain(nx, pv, head, c) && k < |c| && i < |c| - 1 && c[k] in nx && c[k] in pv
    ensures ChainAt(Skipped(nx, pv, c[k]), Skipped(pv, nx, c[k]), Remove(c, k), i)
  {
    RemoveAt(c, k);
    var j := if i < k then i else i + 1;
    assert ChainAt(nx, pv, c, k) && ChainAt(nx, pv, c, j);
    assert c[j] != c[k];
    assert k > 0 ==> (c[j] == c[k - 1] <==> j == k - 1);
    assert k + 1 < |c| ==> (c[j] == c[k + 1] <==> j == k + 1);
    assert NULL !in c ==> c[j] != NULL;
  }

  lemma Skip(nx: Links, pv: Links, head: int, c: seq<int>, k: nat)
    requires Chain(nx, pv, head, c) && k < |c|
    ensures c[k] in nx && c[k] in pv
    ensures Chain(Skipped(nx, pv, c[k]), Skipped(pv, nx, c[k]), if head == c[k] then nx[c[k]] else head, Remove(c, k))
  {
    RemoveAt(c, k);
    RemoveIn(c, k);
    assert ChainAt(nx, pv, c, k) && ChainAt(nx, pv, c, 0);
    forall i | 0 <= i < |c| - 1 ensures ChainAt(Skipped(nx, pv, c[k]), Skipped(pv, nx, c[k]), Remove(c, k), i) {
      SkipAt(nx, pv, head, c, k, i);
    }
  }

  /** The fields after a record is put at the head of a chain. */
  lemma Push(nx: Links, pv: Links, head: int, c: seq<int>, b: int)
    requires Chain(nx, pv, head, c) && b !in c && b != NULL
    ensures Chain(nx[b := head], if head == NULL then pv[b := NULL] else pv[b := NULL][head := b], b, [b] + c)
  {
    var nx', pv', c' := nx[b := head], if head == NULL then pv[b := NULL] else pv[b := NULL][head := b], [b] + c;
    forall i | 0 <= i < |c'| ensures ChainAt(nx', pv', c', i) {
      if i > 0 {
        assert ChainAt(nx, pv, c, i - 1);
        assert i > 1 ==> c[i - 1] != c[0];
      }
    }
  }

  /** A chain none of whose records has changed. */
  lemma ChainKept(nx: Links, pv: Links, nx': Links, pv': Links, head: int, c: seq<int>)
    requires Chain(nx, pv, head, c)
    requires forall b ::
      b in c ==> (b in nx ==> b in nx' && nx'[b] == nx[b]) && (b in pv ==> b in pv' && pv'[b] == pv[b])
    ensures Chain(nx', pv', head, c)
  {
    forall i | 0 <= i < |c| ensures ChainAt(nx', pv', c, i) {
      assert ChainAt(nx, pv, c, i) && c[i] in c;
    }
  }
}

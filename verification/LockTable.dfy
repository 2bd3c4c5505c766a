/** The table of lock nodes, its free list and the lists of the files (fs/locks.c). */
module LockTable {
  import opened Basics
  import opened LockRanges

  const NR_FILE_LOCKS: nat := 64

  type Chains = map<nat, seq<nat>>

  predicate OnList(chains: Chains, f: nat, n: nat) {
    f in chains && n in chains[f]
  }

  ghost predicate Listed(chains: Chains, n: nat) {
    exists f: nat :: OnList(chains, f, n)
  }

  /** Every node of the table is on the free list or on the list of one file, once. */
  ghost predicate Placed(free: seq<nat>, chains: Chains, size: nat) {
    && Distinct(free) && (forall n: nat :: n in free ==> n < size)
    && (forall f :: f in chains ==> Distinct(chains[f]))
    && (forall f: nat, n: nat :: OnList(chains, f, n) ==> n < size && n !in free)
    && (forall f: nat, g: nat, n: nat :: OnList(chains, f, n) && OnList(chains, g, n) ==> f == g)
    && (forall n: nat :: n < size ==> n in free || Listed(chains, n))
  }

  lemma PlacedAlloc(free: seq<nat>, chains: Chains, size: nat, f: nat, pos: nat)
    requires Placed(free, chains, size) && free != [] && f in chains && pos <= |chains[f]|
    ensures Placed(free[1..], chains[f := Insert(chains[f], pos, free[0])], size)
  {
    var x, chains' := free[0], chains[f := Insert(chains[f], pos, free[0])];
    assert x in free && !OnList(chains, f, x);
    InsertIn(chains[f], pos, x);
    assert forall n: nat :: n in free <==> n == x || n in free[1..];
    assert x !in free[1..];
    hide Insert, Distinct;
    assert forall g: nat, n: nat :: OnList(chains', g, n) <==> OnList(chains, g, n) || (g == f && n == x);
    forall n: nat | n < size ensures n in free[1..] || Listed(chains', n) {
      assert n in free || Listed(chains, n);
      if n == x {
        assert OnList(chains', f, n);
      } else if n !in free {
        var g :| OnList(chains, g, n);
        assert OnList(chains', g, n);
      }
    }
    DistinctTail(free);
  }

  lemma DistinctTail(s: seq<nat>)
    requires s != [] && Distinct(s)
    ensures Distinct(s[1..])
  {
  }

  lemma PlacedFree(free: seq<nat>, chains: Chains, size: nat, f: nat, pos: nat)
    requires Placed(free, chains, size) && f in chains && pos < |chains[f]|
    ensures Placed([chains[f][pos]] + free, chains[f := Remove(chains[f], pos)], size)
  {
    var x, chains' := chains[f][pos], chains[f := Remove(chains[f], pos)];
    assert OnList(chains, f, x);
    RemoveIn(chains[f], pos);
    InsertIn(free, 0, x);
    assert Insert(free, 0, x) == [x] + free;
    hide Insert, Remove, Distinct;
    assert forall g: nat, n: nat :: OnList(chains', g, n) <==> OnList(chains, g, n) && !(g == f && n == x);
    forall n: nat | n < size ensures n in [x] + free || Listed(chains', n) {
      assert n in free || Listed(chains, n);
      if n != x && n !in free {
        var g :| OnList(chains, g, n);
        assert OnList(chains', g, n);
      }
    }
  }

  // ---------------------------------------------------------------- lists as values

  function At(node: seq<Lock>, n: nat): Lock {
    if n < |node| then node[n] else Lock(0, 0, Unlock, 0, 0)
  }

  function Values(node: seq<Lock>, chain: seq<nat>): seq<Lock> {
    seq(|chain|, i requires 0 <= i < |chain| => At(node, chain[i]))
  }

  function Chain(chains: Chains, f: nat): seq<nat> {
    if f in chains then chains[f] else []
  }

  class Table {
    var node: seq<Lock>
    var free: seq<nat>
    var chains: Chains

    ghost predicate Ok()
      reads this
    {
      Placed(free, chains, |node|)
    }

    /** fcntl_init_locks: every node on the free list, in order, and no locks on any file. */
    constructor (files: set<nat>)
      ensures Ok() && |node| == NR_FILE_LOCKS && chains.Keys == files && forall f :: List(f) == []
    {
      node := seq(NR_FILE_LOCKS, _ => Lock(0, 0, Unlock, 0, 0));
      free := [];
      chains := map f | f in files :: [];
      new;
      var n := 0;
      while n < NR_FILE_LOCKS
        invariant 0 <= n <= NR_FILE_LOCKS && |free| == n && (forall i :: 0 <= i < n ==> free[i] == i)
        invariant |node| == NR_FILE_LOCKS && chains.Keys == files && forall f :: f in chains ==> chains[f] == []
      {
        free := free + [n];
        n := n + 1;
      }
      forall k: nat | k < NR_FILE_LOCKS ensures k in free { assert free[k] == k; }
    }

    /** The locks on a file, in list order. */
    ghost function List(f: nat): seq<Lock>
      reads this
    {
      Values(node, Chain(chains, f))
    }

    /** alloc_lock: a free node with contents `l` put at place `pos` of the list of `f`. */
    method AllocLock(f: nat, pos: nat, l: Lock) returns (ok: bool, n: nat)
      requires Ok() && f in chains && pos <= |chains[f]|
      modifies this
      ensures Ok() && ok == (old(free) != [])
      ensures !ok ==> node == old(node) && free == old(free) && chains == old(chains)
      ensures ok ==>
        chains == old(chains[f := Insert(chains[f], pos, n)]) && free == old(free[1..]) && n == old(free[0])
      ensures ok ==> List(f) == Insert(old(List(f)), pos, l)
      ensures |node| == |old(node)| && forall g :: g != f ==> List(g) == old(List(g))
    {
      n := 0;
      ok := free != [];
      if ok {
        n := free[0];
        assert n in free && !OnList(chains, f, n);
        PlacedAlloc(free, chains, |node|, f, pos);
        node, free, chains := node[n := l], free[1..], chains[f := Insert(chains[f], pos, n)];
        SetSeen(old(node), old(free), old(chains), n, l);
        InsertSeen(old(node), old(chains)[f], n, l, pos);
      }
    }

    /** free_lock: the node at place `pos` of the list of `f` goes to the free list. */
    method FreeLock(f: nat, pos: nat)
      requires Ok() && f in chains && pos < |chains[f]|
      modifies this
      ensures Ok() && node == old(node) && free == [old(chains[f][pos])] + old(free)
      ensures chains == old(chains[f := Remove(chains[f], pos)])
      ensures List(f) == Remove(old(List(f)), pos)
      ensures forall g :: g != f ==> List(g) == old(List(g))
    {
      PlacedFree(free, chains, |node|, f, pos);
      free, chains := [chains[f][pos]] + free, chains[f := Remove(chains[f], pos)];
    }

    /** A lock of the list of `f` rewritten in place. */
    method SetLock(f: nat, n: nat, l: Lock, ghost pos: nat)
      requires Ok() && f in chains && pos < |chains[f]| && chains[f][pos] == n
      modifies `node
      ensures Ok() && |node| == |old(node)| && List(f) == old(List(f))[pos := l]
      ensures forall k: nat :: At(node, k) == if k == n then l else At(old(node), k)
      ensures forall g :: g != f ==> List(g) == old(List(g))
    {
      InRange(free, chains, |node|, f, pos);
      node := node[n := l];
      UpdateSeen(old(node), chains[f], pos, l);
      forall g | g != f && g in chains ensures Values(node, chains[g]) == Values(old(node), chains[g]) {
        assert !OnList(chains, g, n);
        Unseen(old(node), chains[g], n, l);
      }
    }
  }

  lemma InRange(free: seq<nat>, chains: Chains, size: nat, f: nat, pos: nat)
    requires Placed(free, chains, size) && f in chains && pos < |chains[f]|
    ensures OnList(chains, f, chains[f][pos]) && chains[f][pos] < size && Distinct(chains[f])
  {
    assert OnList(chains, f, chains[f][pos]);
  }

  lemma UpdateSeen(node: seq<Lock>, chain: seq<nat>, pos: nat, l: Lock)
    requires Distinct(chain) && pos < |chain| && chain[pos] < |node|
    ensures Values(node[chain[pos] := l], chain) == Values(node, chain)[pos := l]
  {
  }

  lemma Unseen(node: seq<Lock>, chain: seq<nat>, n: nat, l: Lock)
    requires n !in chain && n < |node|
    ensures Values(node[n := l], chain) == Values(node, chain)
  {
    assert forall i :: 0 <= i < |chain| ==> chain[i] in chain;
  }

  lemma SetSeen(node: seq<Lock>, free: seq<nat>, chains: Chains, n: nat, l: Lock)
    requires Placed(free, chains, |node|) && n in free
    ensures forall g :: Values(node[n := l], Chain(chains, g)) == Values(node, Chain(chains, g))
  {
    forall g ensures Values(node[n := l], Chain(chains, g)) == Values(node, Chain(chains, g)) {
      assert !OnList(chains, g, n);
      Unseen(node, Chain(chains, g), n, l);
    }
  }

  lemma InsertSeen(node: seq<Lock>, chain: seq<nat>, n: nat, l: Lock, pos: nat)
    requires n !in chain && n < |node| && pos <= |chain|
    ensures Values(node[n := l], Insert(chain, pos, n)) == Insert(Values(node, chain), pos, l)
  {
    Unseen(node, chain, n, l);
    var r := Insert(chain, pos, n);
    assert forall k :: 0 <= k < |r| ==> r[k] == if k < pos then chain[k] else if k == pos then n else chain[k - 1];
    assert forall k :: 0 <= k < |chain| ==> Values(node[n := l], chain)[k] == At(node[n := l], chain[k]);
    assert Values(node[n := l], r) == Insert(Values(node[n := l], chain), pos, l);
  }
}

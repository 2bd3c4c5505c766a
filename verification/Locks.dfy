/** lock_it over the list of a file: the owner's group found, passed over and put right (fs/locks.c). */
module Locks {
  import opened Basics
  import opened LockRanges
  import opened LockScan
  import opened LockExact
  import opened LockTable

  ghost predicate NoneSame(g: seq<Lock>, req: Lock) {
    forall i :: 0 <= i < |g| ==> !Same(g[i], req)
  }

  /** The locks of each owner stand together. */
  ghost predicate Grouped(l: seq<Lock>) {
    forall i, j, k :: 0 <= i < j < k < |l| && Same(l[i], l[k]) ==> Same(l[i], l[j])
  }

  /** In groups, with offsets in bounds, but in no order otherwise. */
  ghost predicate Loose(l: seq<Lock>) {
    AllBounded(l) && Grouped(l)
  }

  /** The locks of each owner stand together, sorted, disjoint and merged. */
  ghost predicate ListOk(l: seq<Lock>) {
    && (forall i :: 0 <= i < |l| ==> InOrder(l[i]) && !l[i].kind.Unlock?)
    && (forall i, j :: 0 <= i < j < |l| && Same(l[i], l[j]) ==> Apart(l[i], l[j]))
    && Grouped(l)
  }

  /** A list cut at the group of the owner of `req`. */
  ghost predicate Cuts(pre: seq<Lock>, g: seq<Lock>, post: seq<Lock>, req: Lock) {
    NoneSame(pre, req) && AllSame(g, req) && NoneSame(post, req) && (g == [] ==> post == [])
  }

  /** Where the run of the owner's locks from `b` on ends. */
  ghost function RunEnd(l: seq<Lock>, req: Lock, b: nat): nat
    requires b <= |l|
    ensures b <= RunEnd(l, req, b) <= |l| && AllSame(l[b..RunEnd(l, req, b)], req)
    ensures RunEnd(l, req, b) < |l| ==> !Same(l[RunEnd(l, req, b)], req)
    decreases |l| - b
  {
    if b < |l| && Same(l[b], req) then
      assert l[b..RunEnd(l, req, b + 1)] == [l[b]] + l[b + 1..RunEnd(l, req, b + 1)];
      RunEnd(l, req, b + 1)
    else b
  }

  lemma NoneAfter(l: seq<Lock>, req: Lock, b: nat, e: nat, k: nat)
    requires Grouped(l) && b < e <= k < |l| && Same(l[b], req) && !Same(l[e], req)
    ensures !Same(l[k], req)
  {
    if e < k { assert Same(l[b], l[e]) || !Same(l[b], l[k]); }
  }

  lemma CutsAt(l: seq<Lock>, req: Lock, b: nat)
    requires Grouped(l) && b <= |l| && NoneSame(l[..b], req) && (b < |l| ==> Same(l[b], req))
    ensures var e := RunEnd(l, req, b); Cuts(l[..b], l[b..e], l[e..], req) && l == l[..b] + l[b..e] + l[e..]
  {
    hide RunEnd, Grouped;
    var e := RunEnd(l, req, b);
    if b < |l| {
      assert b < e;
      forall k | e <= k < |l| ensures !Same(l[k], req) { NoneAfter(l, req, b, e, k); }
    }
  }

  lemma GroupCanonical(pre: seq<Lock>, g: seq<Lock>, post: seq<Lock>, req: Lock)
    requires ListOk(pre + g + post) && AllSame(g, req)
    ensures Canonical(g)
  {
    var l := pre + g + post;
    assert forall i :: 0 <= i < |g| ==> l[|pre| + i] == g[i];
  }

  lemma GroupBounded(pre: seq<Lock>, g: seq<Lock>, post: seq<Lock>)
    requires Loose(pre + g + post)
    ensures AllBounded(g)
  {
    var l := pre + g + post;
    assert forall i :: 0 <= i < |g| ==> l[|pre| + i] == g[i];
  }

  lemma RejoinLoose(pre: seq<Lock>, g: seq<Lock>, post: seq<Lock>, r: seq<Lock>, req: Lock)
    requires Loose(pre + g + post) && Cuts(pre, g, post, req) && AllBounded(r) && AllSame(r, req)
    ensures Loose(pre + r + post)
  {
    var l, l' := pre + g + post, pre + r + post;
    forall i | 0 <= i < |l'| ensures Bounded(l'[i]) {
      RejoinAt(pre, g, post, r, req, i);
    }
    forall i, j, k | 0 <= i < j < k < |l'| && Same(l'[i], l'[k]) ensures Same(l'[i], l'[j]) {
      RejoinAt(pre, g, post, r, req, i);
      RejoinAt(pre, g, post, r, req, j);
      RejoinAt(pre, g, post, r, req, k);
    }
  }

  lemma Rejoin(pre: seq<Lock>, g: seq<Lock>, post: seq<Lock>, r: seq<Lock>, req: Lock)
    requires ListOk(pre + g + post) && Cuts(pre, g, post, req) && Canonical(r) && AllSame(r, req)
    ensures ListOk(pre + r + post)
  {
    var l, l' := pre + g + post, pre + r + post;
    forall i | 0 <= i < |l'| ensures InOrder(l'[i]) && !l'[i].kind.Unlock? {
      RejoinAt(pre, g, post, r, req, i);
    }
    forall i, j | 0 <= i < j < |l'| && Same(l'[i], l'[j]) ensures Apart(l'[i], l'[j]) {
      RejoinAt(pre, g, post, r, req, i);
      RejoinAt(pre, g, post, r, req, j);
    }
    forall i, j, k | 0 <= i < j < k < |l'| && Same(l'[i], l'[k]) ensures Same(l'[i], l'[j]) {
      RejoinAt(pre, g, post, r, req, i);
      RejoinAt(pre, g, post, r, req, j);
      RejoinAt(pre, g, post, r, req, k);
    }
  }

  lemma RejoinAt(pre: seq<Lock>, g: seq<Lock>, post: seq<Lock>, r: seq<Lock>, req: Lock, i: nat)
    requires Cuts(pre, g, post, req) && AllSame(r, req) && i < |pre + r + post|
    ensures var l, l' := pre + g + post, pre + r + post;
      && (i < |pre| ==> l'[i] == l[i] && !Same(l'[i], req))
      && (|pre| <= i < |pre| + |r| ==> l'[i] == r[i - |pre|] && Same(l'[i], req))
      && (|pre| + |r| <= i ==> g != [] && Same(l[|pre|], req) && l'[i] == l[i - |r| + |g|] && !Same(l'[i], req))
  {
  }

  /** The owner of `o` holds byte `x` with kind `k`. */
  ghost predicate Holds(l: seq<Lock>, o: Lock, x: int, k: Kind) {
    exists i :: 0 <= i < |l| && Same(l[i], o) && Covers(l[i], x, k)
  }

  lemma HoldsSame(g: seq<Lock>, o: Lock, x: int, k: Kind)
    requires AllSame(g, o)
    ensures Holds(g, o, x, k) <==> Has(g, x, k)
  {
    if Has(g, x, k) {
      var i :| 0 <= i < |g| && Covers(g[i], x, k);
      assert Same(g[i], o);
    }
  }

  lemma HoldsConcat(a: seq<Lock>, b: seq<Lock>, o: Lock, x: int, k: Kind)
    ensures Holds(a + b, o, x, k) <==> Holds(a, o, x, k) || Holds(b, o, x, k)
  {
    if Holds(a, o, x, k) {
      var i :| 0 <= i < |a| && Same(a[i], o) && Covers(a[i], x, k);
      assert Same((a + b)[i], o) && Covers((a + b)[i], x, k);
    }
    if Holds(b, o, x, k) {
      var i :| 0 <= i < |b| && Same(b[i], o) && Covers(b[i], x, k);
      assert Same((a + b)[|a| + i], o) && Covers((a + b)[|a| + i], x, k);
    }
  }

  /** Of the bytes the owner of `req` holds, only the group speaks. */
  lemma HoldsGroup(pre: seq<Lock>, g: seq<Lock>, post: seq<Lock>, req: Lock, x: int, k: Kind)
    requires NoneSame(pre, req) && AllSame(g, req) && NoneSame(post, req)
    ensures Holds(pre + g + post, req, x, k) <==> Has(g, x, k)
  {
    HoldsConcat(pre + g, post, req, x, k);
    HoldsConcat(pre, g, req, x, k);
    HoldsSame(g, req, x, k);
  }

  /** Another owner's bytes do not depend on the group. */
  lemma HoldsOther(pre: seq<Lock>, g: seq<Lock>, post: seq<Lock>, req: Lock, o: Lock, x: int, k: Kind)
    requires AllSame(g, req) && !Same(o, req)
    ensures Holds(pre + g + post, o, x, k) <==> Holds(pre, o, x, k) || Holds(post, o, x, k)
  {
    HoldsConcat(pre + g, post, o, x, k);
    HoldsConcat(pre, g, o, x, k);
  }

  // ---------------------------------------------------------------- the pass over the group

  /** The variables of lock_it: the place in the list, the request as grown, the nodes it points to. */
  datatype Vars = Vars(pos: nat, c: Lock, added: bool, node: Option<nat>, left: Option<nat>, right: Option<nat>)

  /** The node at a place of the group that starts at `b`. */
  function Pointer(chain: seq<nat>, b: nat, place: Option<nat>): Option<nat> {
    if place.Some? && b + place.value < |chain| then Some(chain[b + place.value]) else None
  }

  ghost predicate Points(v: Vars, s: Scan, b: nat, chain: seq<nat>) {
    && v.pos == b + s.pos && v.c == s.c && v.added == s.added
    && v.node == Pointer(chain, b, s.node) && v.left == Pointer(chain, b, s.left)
    && v.right == if s.right then Pointer(chain, b, Some(s.pos)) else None
  }

  /** The list of a file in the middle of a pass over the group of an owner. */
  ghost predicate Scanning(t: Table, f: nat, pre: seq<Lock>, post: seq<Lock>, s: Scan, v: Vars)
    reads t
  {
    && t.Ok() && f in t.chains && t.List(f) == pre + s.g + post && |t.chains[f]| == |t.List(f)|
    && Wf(s) && Points(v, s, |pre|, t.chains[f])
  }

  /** The lists of all other files, and the size of the table, stay as they are. */
  twostate predicate OthersSame(t: Table, f: nat)
    reads t
  {
    && |t.node| == |old(t.node)| && t.chains.Keys == old(t.chains).Keys
    && forall h: nat :: h != f ==> t.List(h) == old(t.List(h))
  }

  lemma NodeAt(t: Table, f: nat, pos: nat)
    requires t.Ok() && f in t.chains && pos < |t.List(f)|
    ensures pos < |t.chains[f]| == |t.List(f)| && t.chains[f][pos] < |t.node|
    ensures t.node[t.chains[f][pos]] == t.List(f)[pos]
  {
    InRange(t.free, t.chains, |t.node|, f, pos);
  }

  lemma ListLength(t: Table, f: nat)
    requires f in t.chains
    ensures |t.List(f)| == |t.chains[f]|
  {
  }

  lemma SetIn(pre: seq<Lock>, g: seq<Lock>, post: seq<Lock>, i: nat, l: Lock)
    requires i < |g|
    ensures (pre + g + post)[|pre| + i] == g[i] && (pre + g + post)[|pre| + i := l] == pre + g[i := l] + post
  {
  }

  lemma RemoveFrom(pre: seq<Lock>, g: seq<Lock>, post: seq<Lock>, i: nat)
    requires i < |g|
    ensures Remove(pre + g + post, |pre| + i) == pre + Remove(g, i) + post
  {
  }

  /** Pointers to places before the one that goes stay. */
  lemma PointerStays(chain: seq<nat>, b: nat, n: nat, place: Option<nat>)
    requires n < |chain| && (place.Some? ==> b + place.value < n)
    ensures Pointer(Remove(chain, n), b, place) == Pointer(chain, b, place)
  {
  }

  /** The lock at the place of the pass freed. */
  method Drop(t: Table, f: nat, v: Vars, ghost pre: seq<Lock>, ghost post: seq<Lock>, ghost s: Scan)
    requires Scanning(t, f, pre, post, s, v) && !s.stop && s.pos < |s.g|
    modifies t
    ensures OthersSame(t, f) && Scanning(t, f, pre, post, s.(g := Remove(s.g, s.pos)), v)
    ensures |t.free| == |old(t.free)| + 1
  {
    hide Values, Placed, Remove;
    RemoveFrom(pre, s.g, post, s.pos);
    RemoveAt(s.g, s.pos);
    PointerStays(t.chains[f], |pre|, v.pos, s.node);
    PointerStays(t.chains[f], |pre|, v.pos, s.left);
    t.FreeLock(f, v.pos);
    ListLength(t, f);
  }

  /** The request grown, in the lock that stands for it. */
  method Grow(t: Table, f: nat, v: Vars, m: Lock, ghost pre: seq<Lock>, ghost post: seq<Lock>, ghost s: Scan)
    requires Scanning(t, f, pre, post, s, v) && !s.stop && s.node.Some? && m.kind == s.c.kind
    modifies t`node
    ensures OthersSame(t, f) && Scanning(t, f, pre, post, s.(g := Grown(s, m), c := m), v.(c := m))
  {
    hide Values, Placed;
    SetIn(pre, s.g, post, s.node.value, m);
    t.SetLock(f, v.node.value, m, |pre| + s.node.value);
    ListLength(t, f);
  }

  /** The lock at the place of the pass made to stand for the request. */
  method TakeOver(t: Table, f: nat, v: Vars, m: Lock, ghost pre: seq<Lock>, ghost post: seq<Lock>, ghost s: Scan)
    returns (v': Vars)
    requires Scanning(t, f, pre, post, s, v) && !s.right && s.pos < |s.g| && !s.added && !m.kind.Unlock? && !s.stop
    modifies t`node
    ensures OthersSame(t, f)
    ensures var s' := s.(g := s.g[s.pos := m], c := m, added := true, node := Some(s.pos), pos := s.pos + 1);
      Scanning(t, f, pre, post, s', v')
  {
    hide Values, Placed;
    SetIn(pre, s.g, post, s.pos, m);
    t.SetLock(f, t.chains[f][v.pos], m, v.pos);
    ListLength(t, f);
    v' := v.(pos := v.pos + 1, c := m, added := true, node := Some(t.chains[f][v.pos]));
  }

  /** A lock of the kind of the request. */
  method PassSame(t: Table, f: nat, v: Vars, ghost pre: seq<Lock>, ghost post: seq<Lock>, ghost s: Scan)
    returns (v': Vars, stop: bool)
    requires Scanning(t, f, pre, post, s, v) && !s.stop && s.pos < |s.g| && s.g[s.pos].kind == s.c.kind
    requires NoUnlocks(s.g)
    modifies t
    ensures OthersSame(t, f) && Scanning(t, f, pre, post, TurnSame(s), v') && stop == TurnSame(s).stop
    ensures |t.free| + |TurnSame(s).g| == |old(t.free)| + |s.g| && |t.free| >= |old(t.free)|
  {
    hide Values, Placed, Remove;
    if s.added { RemoveAt(Grown(s, Merged(s.c, s.g[s.pos])), s.pos); }
    TurnWf(s);
    SetIn(pre, s.g, post, s.pos, s.c);
    NodeAt(t, f, v.pos);
    var fl := t.node[t.chains[f][v.pos]];
    v', stop := v, false;
    if fl.end < v.c.start - 1 {
      v' := v.(pos := v.pos + 1);
    } else if fl.start > AfterEnd(v.c.end) {
      stop := true;
    } else if v.added {
      var m := Merged(v.c, fl);
      Grow(t, f, v, m, pre, post, s);
      v' := v.(c := m);
      Drop(t, f, v', pre, post, s.(g := Grown(s, m), c := m));
    } else {
      v' := TakeOver(t, f, v, Merged(v.c, fl), pre, post, s);
    }
  }

  /** A lock of another kind than the request. */
  method PassOther(t: Table, f: nat, v: Vars, ghost pre: seq<Lock>, ghost post: seq<Lock>, ghost s: Scan)
    returns (v': Vars, stop: bool)
    requires Scanning(t, f, pre, post, s, v) && !s.stop && s.pos < |s.g| && s.g[s.pos].kind != s.c.kind
    requires NoUnlocks(s.g)
    modifies t
    ensures OthersSame(t, f) && Scanning(t, f, pre, post, TurnOther(s), v') && stop == TurnOther(s).stop
    ensures |t.free| + |TurnOther(s).g| == |old(t.free)| + |s.g| && |t.free| >= |old(t.free)|
  {
    hide Values, Placed, Remove;
    RemoveAt(s.g, s.pos);
    TurnWf(s);
    SetIn(pre, s.g, post, s.pos, s.c);
    NodeAt(t, f, v.pos);
    var n := t.chains[f][v.pos];
    var fl := t.node[n];
    v', stop := v, false;
    if fl.end < v.c.start {
      v' := v.(pos := v.pos + 1);
      return;
    }
    if fl.start > v.c.end { return v, true; }
    var added := v.added || v.c.kind.Unlock?;
    var left := if fl.start < v.c.start then Some(n) else v.left;
    if fl.end > v.c.end { return v.(added := added, left := left, right := Some(n)), true; }
    if fl.start < v.c.start { return v.(added := added, left := left, pos := v.pos + 1), false; }
    if added {
      Drop(t, f, v, pre, post, s);
      v' := v.(added := true);
    } else {
      v' := TakeOver(t, f, v, v.c, pre, post, s);
    }
  }

  /** The pass goes on just when there is a lock of the owner ahead. */
  lemma Ahead(t: Table, f: nat, pre: seq<Lock>, post: seq<Lock>, s: Scan, v: Vars, req: Lock)
    requires Scanning(t, f, pre, post, s, v) && AllSame(s.g, req) && NoneSame(post, req)
    ensures s.pos < |s.g| <==> v.pos < |t.chains[f]| && Same(At(t.node, t.chains[f][v.pos]), req)
    ensures s.pos < |s.g| ==> v.pos < |t.chains[f]| && At(t.node, t.chains[f][v.pos]) == s.g[s.pos]
  {
    var l := pre + s.g + post;
    if v.pos < |l| {
      assert At(t.node, t.chains[f][v.pos]) == l[v.pos];
      assert s.pos == |s.g| ==> l[v.pos] == post[0];
    }
  }

  /** The pass over the owner's group. */
  method PassGroup(t: Table, f: nat, req: Lock, b: nat, ghost pre: seq<Lock>, ghost post: seq<Lock>, ghost g: seq<Lock>)
    returns (v: Vars, ghost s: Scan)
    requires t.Ok() && f in t.chains && t.List(f) == pre + g + post && b == |pre| && NoUnlocks(g)
    requires AllSame(g, req) && NoneSame(post, req)
    modifies t
    ensures Scanning(t, f, pre, post, s, v) && OthersSame(t, f) && s == Through(Start(g, req))
    ensures |t.free| + |s.g| == |old(t.free)| + |g| && |t.free| >= |old(t.free)|
  {
    hide Values, Placed, Turn, Points, At, NoUnlocks, AllSame, NoneSame, Wf;
    v, s := Vars(b, req, false, None, None, None), Start(g, req);
    var stop := false;
    BeginScan(t, f, req, pre, post, g);
    Ahead(t, f, pre, post, s, v, req);
    while !stop && v.pos < |t.chains[f]| && Same(At(t.node, t.chains[f][v.pos]), req)
      invariant f in t.chains && OthersSame(t, f) && Scanning(t, f, pre, post, s, v) && stop == s.stop
      invariant |t.free| + |s.g| == |old(t.free)| + |g| && |t.free| >= |old(t.free)|
      invariant NoUnlocks(s.g) && AllSame(s.g, req) && Same(s.c, req) && Through(s) == Through(Start(g, req))
      decreases |s.g| - s.pos, !stop
    {
      Ahead(t, f, pre, post, s, v, req);
      SameRequest(s, v, b, t.chains[f]);
      TurnWf(s);
      TurnIs(s);
      TurnOwner(s, req);
      if At(t.node, t.chains[f][v.pos]).kind == v.c.kind {
        v, stop := PassSame(t, f, v, pre, post, s);
      } else {
        v, stop := PassOther(t, f, v, pre, post, s);
      }
      s := Turn(s);
    }
    Ahead(t, f, pre, post, s, v, req);
    PlaceIn(s);
  }

  lemma BeginScan(t: Table, f: nat, req: Lock, pre: seq<Lock>, post: seq<Lock>, g: seq<Lock>)
    requires t.Ok() && f in t.chains && t.List(f) == pre + g + post
    ensures Scanning(t, f, pre, post, Start(g, req), Vars(|pre|, req, false, None, None, None))
  {
    ListLength(t, f);
  }

  lemma SameRequest(s: Scan, v: Vars, b: nat, chain: seq<nat>)
    requires Points(v, s, b, chain)
    ensures s.c == v.c && v.pos == b + s.pos
  {
  }

  lemma PlaceIn(s: Scan)
    requires Wf(s)
    ensures s.pos <= |s.g|
  {
  }

  // ---------------------------------------------------------------- after the pass

  /** What stands before the lock on the right. */
  function Before(s: Scan, own: bool, split: bool): seq<Lock>
    requires Wf(s) && (split ==> s.pos < |s.g|)
  {
    s.g[..s.pos] + (if split then [s.g[s.pos]] else []) + if own then [s.c] else []
  }

  /** The group with room made for the request and for the second half of a lock that is split. */
  function Opened(s: Scan, own: bool, split: bool): seq<Lock>
    requires Wf(s) && (split ==> s.pos < |s.g|)
  {
    Before(s, own, split) + s.g[s.pos..]
  }

  /** Where the lock on the right has gone. */
  function RightAt(s: Scan, own: bool, split: bool): nat {
    s.pos + (if split then 1 else 0) + if own then 1 else 0
  }

  /** The request is in the list; the nodes to be cut are known. */
  ghost predicate Pending(
    t: Table, f: nat, pre: seq<Lock>, post: seq<Lock>, s: Scan, own: bool, split: bool,
    left: Option<nat>, right: Option<nat>)
    reads t
  {
    && Wf(s) && (split ==> s.right) && t.Ok() && f in t.chains && t.List(f) == pre + Opened(s, own, split) + post
    && |t.chains[f]| == |t.List(f)|
    && ((Spans(s) && !split) || left == Pointer(t.chains[f], |pre|, s.left))
    && right == if s.right then Pointer(t.chains[f], |pre|, Some(RightAt(s, own, split))) else None
  }

  lemma NoneBetween(a: seq<Lock>, b: seq<Lock>)
    ensures a + [] + b == a + b
  {
  }

  lemma Associate(a: seq<Lock>, b: seq<Lock>, c: seq<Lock>)
    ensures a + b + c == a + (b + c)
  {
  }

  lemma InsertInto(pre: seq<Lock>, a: seq<Lock>, z: seq<Lock>, post: seq<Lock>, x: Lock)
    ensures |pre| + |a| <= |pre + (a + z) + post| && |pre| + |a| < |pre + (a + [x] + z) + post|
    ensures Insert(pre + (a + z) + post, |pre| + |a|, x) == pre + (a + [x] + z) + post
    ensures Remove(pre + (a + [x] + z) + post, |pre| + |a|) == pre + (a + z) + post
  {
  }

  lemma OpenedLength(s: Scan, own: bool, split: bool)
    requires Wf(s) && (split ==> s.right)
    ensures |Opened(s, own, split)| == |s.g| + (if split then 1 else 0) + if own then 1 else 0
    ensures s.right ==> Opened(s, own, split)[RightAt(s, own, split)] == s.g[s.pos]
    ensures !split && !own ==> Opened(s, own, split) == s.g
  {
  }

  lemma OpenedOwn(pre: seq<Lock>, post: seq<Lock>, s: Scan)
    requires Wf(s)
    ensures |pre| + s.pos <= |pre + s.g + post|
    ensures Insert(pre + s.g + post, |pre| + s.pos, s.c) == pre + Opened(s, true, false) + post
    ensures |pre| + s.pos < |pre + Opened(s, true, false) + post|
    ensures Remove(pre + Opened(s, true, false) + post, |pre| + s.pos) == pre + s.g + post
  {
    hide Opened, Insert, Remove;
    OpenedIs(s);
    InsertInto(pre, s.g[..s.pos], s.g[s.pos..], post, s.c);
  }

  lemma OpenedIs(s: Scan)
    requires Wf(s)
    ensures s.g == s.g[..s.pos] + s.g[s.pos..] && Opened(s, true, false) == s.g[..s.pos] + [s.c] + s.g[s.pos..]
  {
    NoneBetween(s.g[..s.pos], [s.c]);
  }

  lemma OpenedSplit(pre: seq<Lock>, post: seq<Lock>, s: Scan, own: bool)
    requires Wf(s) && s.right
    ensures |pre| + s.pos <= |pre + Opened(s, own, false) + post|
    ensures Insert(pre + Opened(s, own, false) + post, |pre| + s.pos, s.g[s.pos]) == pre + Opened(s, own, true) + post
  {
    var lo, x, o, hi := s.g[..s.pos], s.g[s.pos], if own then [s.c] else [], s.g[s.pos..];
    assert Opened(s, own, false) == lo + [] + o + hi && Opened(s, own, true) == lo + [x] + o + hi;
    hide Opened, Insert, Remove, Wf;
    NoneBetween(lo, o);
    Associate(lo, o, hi);
    Associate(lo + [x], o, hi);
    InsertInto(pre, lo, o + hi, post, x);
  }

  /** Pointers to places from which on a node is put in move up. */
  lemma PointerMoves(chain: seq<nat>, b: nat, n: nat, x: nat, place: nat)
    requires n <= |chain|
    ensures b + place < n ==> Pointer(Insert(chain, n, x), b, Some(place)) == Pointer(chain, b, Some(place))
    ensures n <= b + place < |chain| ==>
      Pointer(Insert(chain, n, x), b, Some(place + 1)) == Pointer(chain, b, Some(place))
    ensures Insert(chain, n, x)[n] == x
  {
  }

  /** One node is both to the left and to the right just when it spans the request. */
  lemma SpansSeen(t: Table, f: nat, pre: seq<Lock>, post: seq<Lock>, s: Scan, v: Vars)
    requires Scanning(t, f, pre, post, s, v)
    ensures v.right.Some? && v.left == v.right <==> Spans(s)
    ensures v.right.Some? <==> s.right
    ensures v.left.Some? <==> s.left.Some?
  {
    if s.right && s.left.Some? {
      InRange(t.free, t.chains, |t.node|, f, v.pos);
    }
  }

  /** The request put into the list, if no lock stands for it. */
  method AddOwn(t: Table, f: nat, v: Vars, ghost pre: seq<Lock>, ghost post: seq<Lock>, ghost s: Scan)
    returns (ok: bool)
    requires Scanning(t, f, pre, post, s, v)
    modifies t
    ensures OthersSame(t, f) && ok == (s.added || old(t.free) != [])
    ensures |t.free| == |old(t.free)| - if ok && !s.added then 1 else 0
    ensures if ok then Pending(t, f, pre, post, s, !s.added, false, v.left, v.right)
            else t.Ok() && f in t.chains && t.List(f) == old(t.List(f))
  {
    hide Values, Placed, Insert, Remove, Opened;
    OpenedLength(s, !s.added, false);
    OpenedOwn(pre, post, s);
    ok := true;
    if !v.added {
      ghost var chain, n := t.chains[f], if t.free == [] then 0 else t.free[0];
      if s.left.Some? && !Spans(s) { PointerMoves(chain, |pre|, v.pos, n, s.left.value); }
      PointerMoves(chain, |pre|, v.pos, n, s.pos);
      var x: nat;
      ok, x := t.AllocLock(f, v.pos, v.c);
    }
    ListLength(t, f);
  }

  /** A second node for a lock that spans the request. */
  method SplitSpan(
    t: Table, f: nat, v: Vars, ghost pre: seq<Lock>, ghost post: seq<Lock>, ghost s: Scan, right: nat)
    returns (ok: bool, left: nat)
    requires Spans(s) && Pending(t, f, pre, post, s, !s.added, false, v.left, Some(right)) && v.pos == |pre| + s.pos
    modifies t
    ensures OthersSame(t, f) && ok == (old(t.free) != [])
    ensures if ok then Pending(t, f, pre, post, s, !s.added, true, Some(left), Some(right))
            else t.Ok() && f in t.chains && t.List(f) == old(t.List(f))
  {
    hide Values, Placed, Insert, Remove, Opened;
    var own := !s.added;
    OpenedLength(s, own, false);
    OpenedLength(s, own, true);
    OpenedSplit(pre, post, s, own);
    ghost var q, chain, n := RightAt(s, own, false), t.chains[f], if t.free == [] then 0 else t.free[0];
    SetIn(pre, Opened(s, own, false), post, q, s.c);
    NodeAt(t, f, |pre| + q);
    PointerMoves(chain, |pre|, v.pos, n, q);
    ok, left := t.AllocLock(f, v.pos, t.node[right]);
    ListLength(t, f);
  }

  lemma LeftCut(s: Scan, own: bool)
    requires Wf(s) && own == !s.added && s.left.Some?
    ensures var a := Before(s, own, Spans(s));
      && s.left.value < |a| && a[s.left.value] == s.g[s.left.value]
      && a[s.left.value := s.g[s.left.value].(end := s.c.start - 1)] == Lows(s) + Mids(s)
  {
  }

  lemma NoLeft(s: Scan, own: bool)
    requires Wf(s) && own == !s.added && s.left.None?
    ensures Before(s, own, Spans(s)) == Lows(s) + Mids(s)
  {
  }

  lemma SetFirst(a: seq<Lock>, z: seq<Lock>, i: nat, l: Lock)
    requires i < |a|
    ensures (a + z)[i] == a[i] && (a + z)[i := l] == a[i := l] + z
  {
  }

  lemma SetNext(a: seq<Lock>, z: seq<Lock>, l: Lock)
    requires z != []
    ensures (a + z)[|a| := l] == a + ([l] + z[1..])
  {
  }

  /** The cut on the right made. */
  lemma RightMade(s: Scan, own: bool, split: bool)
    requires Wf(s) && (split ==> s.pos < |s.g|)
    ensures |Before(s, own, split)| == RightAt(s, own, split)
    ensures !s.right ==> Opened(s, own, split) == Before(s, own, split) + Highs(s)
    ensures s.right ==> RightAt(s, own, split) < |Opened(s, own, split)|
    ensures s.right ==>
      Opened(s, own, split)[RightAt(s, own, split) := s.g[s.pos].(start := s.c.end + 1)] ==
        Before(s, own, split) + Highs(s)
  {
    if s.right {
      SetNext(Before(s, own, split), s.g[s.pos..], s.g[s.pos].(start := s.c.end + 1));
      assert s.g[s.pos..][1..] == s.g[s.pos + 1..];
    }
  }

  /** Both cuts made, the group is what the pass was to leave. */
  lemma LeftMade(s: Scan, own: bool)
    requires Wf(s) && own == !s.added
    ensures var o := Before(s, own, Spans(s)) + Highs(s);
      && (s.left.Some? ==> s.left.value < |o| && o[s.left.value] == s.g[s.left.value])
      && Rebuilt(s) == if s.left.Some? then o[s.left.value := s.g[s.left.value].(end := s.c.start - 1)] else o
  {
    if s.left.Some? { LeftCut(s, own); } else { NoLeft(s, own); }
    hide Before, Lows, Mids, Highs;
    if s.left.Some? {
      SetFirst(Before(s, own, Spans(s)), Highs(s), s.left.value, s.g[s.left.value].(end := s.c.start - 1));
    }
  }

  /** One lock of the group given other bounds. */
  method Recut(t: Table, f: nat, n: nat, l: Lock, ghost pre: seq<Lock>, ghost post: seq<Lock>, ghost o: seq<Lock>,
      ghost i: nat)
    requires t.Ok() && f in t.chains && t.List(f) == pre + o + post && |t.chains[f]| == |t.List(f)|
    requires i < |o| && n == t.chains[f][|pre| + i]
    modifies t`node
    ensures OthersSame(t, f) && t.Ok() && t.List(f) == pre + o[i := l] + post
  {
    hide Values, Placed, At;
    SetIn(pre, o, post, i, l);
    t.SetLock(f, n, l, |pre| + i);
  }

  /** The lock on the right cut back to the edge of the request. */
  method CutRight(t: Table, f: nat, c: Lock, right: Option<nat>, ghost pre: seq<Lock>, ghost post: seq<Lock>,
      ghost s: Scan, ghost own: bool, ghost split: bool)
    requires Wf(s) && (split ==> s.right) && t.Ok() && f in t.chains && t.List(f) == pre + Opened(s, own, split) + post
    requires |t.chains[f]| == |t.List(f)| && c == s.c
    requires right == if s.right then Pointer(t.chains[f], |pre|, Some(RightAt(s, own, split))) else None
    modifies t`node
    ensures OthersSame(t, f) && t.Ok() && t.List(f) == pre + (Before(s, own, split) + Highs(s)) + post
  {
    hide Values, Placed, Opened, At, Before, Highs;
    ghost var o, q := Opened(s, own, split), RightAt(s, own, split);
    OpenedLength(s, own, split);
    RightMade(s, own, split);
    if right.Some? {
      SetIn(pre, o, post, q, c);
      NodeAt(t, f, |pre| + q);
      Recut(t, f, right.value, t.node[right.value].(start := c.end + 1), pre, post, o, q);
    }
  }

  /** The locks on both sides cut back to the edges of the request. */
  method CutBoth(t: Table, f: nat, c: Lock, left: Option<nat>, right: Option<nat>, ghost pre: seq<Lock>,
      ghost post: seq<Lock>, ghost s: Scan)
    requires Pending(t, f, pre, post, s, !s.added, Spans(s), left, right) && c == s.c
    modifies t
    ensures OthersSame(t, f) && t.Ok() && f in t.chains && t.List(f) == pre + Rebuilt(s) + post
  {
    hide Values, Placed, Opened, Rebuilt, At, Before, Highs;
    CutRight(t, f, c, right, pre, post, s, !s.added, Spans(s));
    ghost var o := Before(s, !s.added, Spans(s)) + Highs(s);
    LeftMade(s, !s.added);
    ListLength(t, f);
    if left.Some? {
      SetIn(pre, o, post, s.left.value, c);
      NodeAt(t, f, |pre| + s.left.value);
      Recut(t, f, left.value, t.node[left.value].(end := c.start - 1), pre, post, o, s.left.value);
    }
  }

  /** The list put right once the pass is over. */
  method PutRight(t: Table, f: nat, v: Vars, ghost pre: seq<Lock>, ghost post: seq<Lock>, ghost s: Scan)
    returns (err: Status)
    requires Scanning(t, f, pre, post, s, v)
    modifies t
    ensures OthersSame(t, f) && t.Ok() && f in t.chains && err == Outcome(s, |old(t.free)|)
    ensures t.List(f) == pre + (if err.Done? then Rebuilt(s) else s.g) + post
  {
    hide Values, Placed, Insert, Remove, Opened, Rebuilt, Points;
    SameRequest(s, v, |pre|, t.chains[f]);
    SameFlags(s, v, |pre|, t.chains[f]);
    SpansSeen(t, f, pre, post, s, v);
    if !v.added && v.c.kind.Unlock? { return Invalid; }
    var ok := AddOwn(t, f, v, pre, post, s);
    if !ok { return NoLocks; }
    var left := v.left;
    if v.right.Some? && v.left == v.right {
      var n: nat;
      ok, n := SplitSpan(t, f, v, pre, post, s, v.right.value);
      if !ok {
        OpenedLength(s, !s.added, false);
        OpenedOwn(pre, post, s);
        ListLength(t, f);
        if !v.added { t.FreeLock(f, v.pos); }
        return NoLocks;
      }
      left := Some(n);
    }
    CutBoth(t, f, v.c, left, v.right, pre, post, s);
    err := Done;
  }

  lemma SameFlags(s: Scan, v: Vars, b: nat, chain: seq<nat>)
    requires Points(v, s, b, chain)
    ensures s.added == v.added
  {
  }

  // ---------------------------------------------------------------- lock_it

  /** The owner already has a lock of this kind that a request up to OFFSET_MAX should grow into. */
  predicate WrapsAt(l: seq<Lock>, req: Lock) {
    && req.end == OFFSET_MAX
    && exists i :: 0 <= i < |l| && Same(l[i], req) && l[i].kind == req.kind && l[i].end >= req.start - 1
  }

  lemma WrapsGroup(pre: seq<Lock>, g: seq<Lock>, post: seq<Lock>, req: Lock)
    requires Cuts(pre, g, post, req)
    ensures WrapsAt(pre + g + post, req) <==> Wraps(g, req)
  {
    var l := pre + g + post;
    if Wraps(g, req) {
      var i :| 0 <= i < |g| && g[i].kind == req.kind && g[i].end >= req.start - 1;
      assert l[|pre| + i] == g[i];
    }
    if WrapsAt(l, req) {
      var i :| 0 <= i < |l| && Same(l[i], req) && l[i].kind == req.kind && l[i].end >= req.start - 1;
      assert |pre| <= i < |pre| + |g| && l[i] == g[i - |pre|];
    }
  }

  /** A lock of the owner of another kind stands behind one of the kind of the request that the request touches. */
  ghost predicate MixedAt(l: seq<Lock>, req: Lock) {
    exists i, j :: 0 <= i < j < |l| && Touching(l[i], req) && Same(l[j], req) && l[j].kind != req.kind
  }

  ghost predicate Touching(l: Lock, req: Lock) {
    Same(l, req) && l.kind == req.kind && l.end >= req.start - 1
  }

  lemma MixedGroup(pre: seq<Lock>, g: seq<Lock>, post: seq<Lock>, req: Lock)
    requires Cuts(pre, g, post, req)
    ensures MixedAt(pre + g + post, req) <==> Mixed(g, req)
  {
    var l := pre + g + post;
    if Mixed(g, req) {
      var i, j :| 0 <= i < j < |g| && g[i].kind == req.kind && g[i].end >= req.start - 1 && g[j].kind != req.kind;
      assert Touching(l[|pre| + i], req) && l[|pre| + j] == g[j];
    }
    if MixedAt(l, req) {
      var i, j :| 0 <= i < j < |l| && Touching(l[i], req) && Same(l[j], req) && l[j].kind != req.kind;
      assert |pre| <= i < j < |pre| + |g| && l[i] == g[i - |pre|] && l[j] == g[j - |pre|];
    }
  }

  /** What a byte of the owner should be after the request. */
  ghost predicate Overwritten(l: seq<Lock>, req: Lock, x: int, k: Kind) {
    if req.start <= x <= req.end then k == req.kind && !req.kind.Unlock? else Holds(l, req, x, k)
  }

  lemma OthersHold(pre: seq<Lock>, g: seq<Lock>, post: seq<Lock>, r: seq<Lock>, req: Lock)
    requires AllSame(g, req) && AllSame(r, req)
    ensures forall o, x, k :: !Same(o, req) ==> (Holds(pre + r + post, o, x, k) <==> Holds(pre + g + post, o, x, k))
  {
    hide Holds;
    forall o, x, k | !Same(o, req) ensures Holds(pre + r + post, o, x, k) <==> Holds(pre + g + post, o, x, k) {
      HoldsOther(pre, g, post, req, o, x, k);
      HoldsOther(pre, r, post, req, o, x, k);
    }
  }

  /** Some byte of the request is locked by its owner. */
  ghost predicate AnyHeld(l: seq<Lock>, req: Lock) {
    exists x, k :: req.start <= x <= req.end && Holds(l, req, x, k)
  }

  lemma HeldTouched(pre: seq<Lock>, g: seq<Lock>, post: seq<Lock>, req: Lock)
    requires Cuts(pre, g, post, req) && Canonical(g) && InOrder(req)
    ensures AnyHeld(pre + g + post, req) <==> Touched(g, req)
  {
    if AnyHeld(pre + g + post, req) {
      var x, k :| req.start <= x <= req.end && Holds(pre + g + post, req, x, k);
      HoldsGroup(pre, g, post, req, x, k);
    }
    if Touched(g, req) {
      var l :| l in g && l.start <= req.end && req.start <= l.end;
      var x := Max(l.start, req.start);
      assert Covers(l, x, l.kind);
      HoldsGroup(pre, g, post, req, x, l.kind);
    }
  }

  /** The first lock of the owner, or the end of the list. */
  method FindOwner(t: Table, f: nat, req: Lock) returns (b: nat)
    requires t.Ok() && f in t.chains
    ensures b <= |t.List(f)| && NoneSame(t.List(f)[..b], req) && (b < |t.List(f)| ==> Same(t.List(f)[b], req))
  {
    hide Placed;
    b := 0;
    while b < |t.chains[f]|
        && (At(t.node, t.chains[f][b]).owner != req.owner || At(t.node, t.chains[f][b]).fd != req.fd)
      invariant b <= |t.List(f)| && NoneSame(t.List(f)[..b], req)
    {
      b := b + 1;
    }
  }

  /** A byte the owner holds was held before, or is asked for. */
  ghost predicate Contained(l: seq<Lock>, req: Lock, l': seq<Lock>) {
    forall x, k :: Holds(l', req, x, k) ==>
      Holds(l, req, x, k) || (req.start <= x <= req.end && k == req.kind && !k.Unlock?)
  }

  /** What lock_it does to any list of groups. */
  lemma AlwaysContained(pre: seq<Lock>, g: seq<Lock>, post: seq<Lock>, req: Lock, free: nat)
    requires Loose(pre + g + post) && Cuts(pre, g, post, req) && InOrder(req)
    ensures NoUnlocks(g) && AllSame(After(g, req, free), req)
    ensures Loose(pre + After(g, req, free) + post) && Contained(pre + g + post, req, pre + After(g, req, free) + post)
  {
    hide Loose, Holds, Allowed, Has, After;
    GroupBounded(pre, g, post);
    AfterTame(g, req, free);
    var r := After(g, req, free);
    TameBounded(g, req, r);
    RejoinLoose(pre, g, post, r, req);
    forall x, k | Holds(pre + r + post, req, x, k)
      ensures Holds(pre + g + post, req, x, k) || (req.start <= x <= req.end && k == req.kind && !k.Unlock?)
    {
      HoldsGroup(pre, g, post, req, x, k);
      HoldsGroup(pre, r, post, req, x, k);
      TameHas(g, req, r, x, k);
      AllowedIs(g, req, x, k);
    }
  }

  lemma AllowedIs(g: seq<Lock>, req: Lock, x: int, k: Kind)
    requires Allowed(g, req, x, k)
    ensures Has(g, x, k) || (req.start <= x <= req.end && k == req.kind && !k.Unlock?)
  {
  }

  lemma TameBounded(g: seq<Lock>, req: Lock, r: seq<Lock>)
    requires AllTame(g, req, r)
    ensures AllSame(r, req) && AllBounded(r)
  {
  }

  /** The bytes of the owner are as asked for in the list just when they are in the group. */
  lemma BytesExactly(pre: seq<Lock>, g: seq<Lock>, post: seq<Lock>, req: Lock, r: seq<Lock>)
    requires Cuts(pre, g, post, req) && AllSame(r, req)
    ensures (forall x, k :: Holds(pre + r + post, req, x, k) <==> Overwritten(pre + g + post, req, x, k)) <==>
      forall x, k :: Has(r, x, k) <==> Target(g, req, x, k)
  {
    hide Has, Holds;
    forall x, k ensures Holds(pre + g + post, req, x, k) <==> Has(g, x, k) { HoldsGroup(pre, g, post, req, x, k); }
    forall x, k ensures Holds(pre + r + post, req, x, k) <==> Has(r, x, k) { HoldsGroup(pre, r, post, req, x, k); }
    assert forall x, k :: Overwritten(pre + g + post, req, x, k) <==> Target(g, req, x, k);
  }

  /** The new list of a file whose locks are in order is in order just when nothing wraps. */
  lemma InOrderExactly(pre: seq<Lock>, g: seq<Lock>, post: seq<Lock>, req: Lock, r: seq<Lock>)
    requires ListOk(pre + g + post) && Cuts(pre, g, post, req) && AllSame(r, req)
    requires Canonical(r) <==> !Wraps(g, req)
    ensures ListOk(pre + r + post) <==> !WrapsAt(pre + g + post, req)
  {
    WrapsGroup(pre, g, post, req);
    hide ListOk, Canonical, Wraps, WrapsAt;
    if ListOk(pre + r + post) { GroupCanonical(pre, r, post, req); }
    if !Wraps(g, req) { Rejoin(pre, g, post, r, req); }
  }

  /** What lock_it does to a list in order. */
  ghost predicate Exact(l: seq<Lock>, req: Lock, err: Status, l': seq<Lock>) {
    && (err.Invalid? <==> req.kind.Unlock? && !AnyHeld(l, req))
    && (!err.Done? ==> l' == l)
    && (err.Done? ==> (ListOk(l') <==> !WrapsAt(l, req)))
    && (err.Done? ==>
        ((forall x, k :: Holds(l', req, x, k) <==> Overwritten(l, req, x, k)) <==>
            !(WrapsAt(l, req) && MixedAt(l, req))))
  }

  lemma AlwaysExact(pre: seq<Lock>, g: seq<Lock>, post: seq<Lock>, req: Lock, free: nat)
    requires ListOk(pre + g + post) && Cuts(pre, g, post, req) && InOrder(req)
    requires NoUnlocks(g) && AllSame(After(g, req, free), req)
    ensures Exact(pre + g + post, req, Outcome(Through(Start(g, req)), free), pre + After(g, req, free) + post)
  {
    GroupCanonical(pre, g, post, req);
    hide ListOk, Canonical, Holds, Has, Target, Wraps, WrapsAt, Mixed, MixedAt, Touched, AnyHeld, Through, Overwritten;
    hide Rebuilt;
    HeldTouched(pre, g, post, req);
    AfterExact(g, req, free);
    var r := After(g, req, free);
    if Outcome(Through(Start(g, req)), free).Done? {
      InOrderExactly(pre, g, post, req, r);
      BytesExactly(pre, g, post, req, r);
      WrapsGroup(pre, g, post, req);
      MixedGroup(pre, g, post, req);
    }
  }

  /** The list that the request should leave needs more nodes than there are. */
  ghost predicate TooFew(l: seq<Lock>, req: Lock, free: nat) {
    exists r :: Exact(l, req, Done, r) && |r| > |l| + free
  }

  lemma NoneToSpare(pre: seq<Lock>, g: seq<Lock>, post: seq<Lock>, req: Lock, free0: nat, free: nat)
    requires ListOk(pre + g + post) && Cuts(pre, g, post, req) && InOrder(req) && NoUnlocks(g)
    requires Outcome(Through(Start(g, req)), free).NoLocks? && free + |Through(Start(g, req)).g| == free0 + |g|
    ensures TooFew(pre + g + post, req, free0)
  {
    var s := Through(Start(g, req));
    RebuiltLength(s);
    hide ListOk, Through, Exact, Cuts, Rebuilt;
    OwnerKept(pre, g, post, req);
    AlwaysExact(pre, g, post, req, 2);
    var r := pre + Rebuilt(s) + post;
    assert Exact(pre + g + post, req, Done, r);
  }

  lemma RebuiltLength(s: Scan)
    requires Wf(s)
    ensures |Rebuilt(s)| == |s.g| + (if s.added then 0 else 1) + if Spans(s) then 1 else 0
  {
  }

  lemma OwnerKept(pre: seq<Lock>, g: seq<Lock>, post: seq<Lock>, req: Lock)
    requires ListOk(pre + g + post) && Cuts(pre, g, post, req) && InOrder(req)
    ensures NoUnlocks(g) && AllSame(After(g, req, 2), req)
  {
    OkIsLoose(pre + g + post);
    hide ListOk, Loose, After, Contained;
    AlwaysContained(pre, g, post, req, 2);
  }

  lemma OkIsLoose(l: seq<Lock>)
    requires ListOk(l)
    ensures Loose(l)
  {
  }

  /** lock_it: the request set, or cleared, in the owner's locks on file `f`. Whatever their state, no other lock
      changes and no byte is locked that was not held or asked for; when they are in order, exactly what was asked for
      is done unless the end of the request wraps past a lock of another kind. */
  method LockIt(t: Table, f: nat, req: Lock) returns (err: Status)
    requires t.Ok() && f in t.chains && InOrder(req) && Loose(t.List(f))
    modifies t
    ensures t.Ok() && OthersSame(t, f) && Loose(t.List(f))
    ensures err.NoLocks? ==> |old(t.free)| <= 1
    ensures err.NoLocks? && ListOk(old(t.List(f))) ==> TooFew(old(t.List(f)), req, |old(t.free)|)
    ensures Contained(old(t.List(f)), req, t.List(f))
    ensures forall o, x, k :: !Same(o, req) ==> (Holds(t.List(f), o, x, k) <==> Holds(old(t.List(f)), o, x, k))
    ensures ListOk(old(t.List(f))) ==> Exact(old(t.List(f)), req, err, t.List(f))
  {
    hide Canonical, ListOk, Values, Placed, Holds, Exact, Contained, AllBounded, Through, Rebuilt;
    var b := FindOwner(t, f, req);
    ghost var l := t.List(f);
    ghost var e := RunEnd(l, req, b);
    ghost var pre, g, post := l[..b], l[b..e], l[e..];
    CutsAt(l, req, b);
    AlwaysContained(pre, g, post, req, 0);
    var v, s := PassGroup(t, f, req, b, pre, post, g);
    ghost var free := |t.free|;
    AlwaysContained(pre, g, post, req, free);
    OthersHold(pre, g, post, After(g, req, free), req);
    if ListOk(l) { AlwaysExact(pre, g, post, req, free); }
    err := PutRight(t, f, v, pre, post, s);
    if err.NoLocks? && ListOk(l) { NoneToSpare(pre, g, post, req, |old(t.free)|, free); }
  }

  /** Two read locks to the end of all files by one owner, the second inside the first, are both kept; the bytes are
      right, but unlocking some of them afterwards leaves them locked. */
  lemma WrapExample()
    ensures var l, req := [Lock(1, 3, Read, 10, OFFSET_MAX)], Lock(1, 3, Read, 20, OFFSET_MAX);
      && ListOk(l) && InOrder(req) && WrapsAt(l, req) && !MixedAt(l, req) && NoUnlocks(l)
      && NoUnlocks(After(l, req, 1)) && After(l, req, 1) == [req] + l
      && Has(After([req] + l, Lock(1, 3, Unlock, 30, 40), 1), 35, Read)
  {
    var l, req := [Lock(1, 3, Read, 10, OFFSET_MAX)], Lock(1, 3, Read, 20, OFFSET_MAX);
    assert Touching(l[0], req);
    var s := Through(Start(l, req));
    OneTurn(Start(l, req));
    assert Rebuilt(s) == [req] + l;
    LaterUnlock(l, req);
  }

  lemma OneTurn(s: Scan)
    requires Wf(s) && NoUnlocks(s.g) && s.pos < |s.g| && !s.stop && Turn(s).stop
    ensures Through(s) == Turn(s)
  {
    TurnWf(s);
  }

  lemma LaterUnlock(l: seq<Lock>, req: Lock)
    requires l == [Lock(1, 3, Read, 10, OFFSET_MAX)] && req == Lock(1, 3, Read, 20, OFFSET_MAX)
    ensures NoUnlocks([req] + l) && Has(After([req] + l, Lock(1, 3, Unlock, 30, 40), 1), 35, Read)
  {
    var u := Lock(1, 3, Unlock, 30, 40);
    var s := Through(Start([req] + l, u));
    OneTurn(Start([req] + l, u));
    assert Rebuilt(s) == [req.(end := 29), req.(start := 41), l[0]];
    assert Covers(Rebuilt(s)[2], 35, Read);
  }

  /** A read lock to the end of all files from where the owner has one, with a write lock of the owner behind that. */
  lemma MixedExample()
    ensures var l, req := [Lock(1, 3, Read, 10, 19), Lock(1, 3, Write, 30, 40)], Lock(1, 3, Read, 10, OFFSET_MAX);
      ListOk(l) && InOrder(req) && WrapsAt(l, req) && MixedAt(l, req)
  {
    var l, req := [Lock(1, 3, Read, 10, 19), Lock(1, 3, Write, 30, 40)], Lock(1, 3, Read, 10, OFFSET_MAX);
    assert Touching(l[0], req) && Same(l[1], req);
  }
}

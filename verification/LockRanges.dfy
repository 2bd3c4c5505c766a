/** Byte ranges of one owner's locks and the passes of lock_it over them (fs/locks.c), as values. */
module LockRanges {
  import opened Basics

  const OFFSET_MAX: int := 0x7fffffff

  datatype Kind = Read | Write | Unlock

  datatype Lock = Lock(owner: nat, fd: nat, kind: Kind, start: int, end: int)

  predicate Covers(l: Lock, x: int, k: Kind) {
    l.kind == k && l.start <= x <= l.end
  }

  /** Byte `x` is locked with kind `k`. */
  ghost predicate Has(g: seq<Lock>, x: int, k: Kind) {
    exists i :: 0 <= i < |g| && Covers(g[i], x, k)
  }

  predicate InOrder(l: Lock) {
    0 <= l.start <= l.end <= OFFSET_MAX
  }

  /** `a` ends before `b` starts, with a gap if they are of one kind. */
  predicate Apart(a: Lock, b: Lock) {
    a.end < b.start && (a.kind == b.kind ==> a.end + 1 < b.start)
  }

  /** Sorted, disjoint and merged as far as can be. */
  ghost predicate Canonical(g: seq<Lock>) {
    && (forall i :: 0 <= i < |g| ==> InOrder(g[i]) && !g[i].kind.Unlock?)
    && (forall i, j :: 0 <= i < j < |g| ==> Apart(g[i], g[j]))
  }

  /** What byte `x` should be after `req`: its kind inside the range, as before outside. */
  ghost predicate Target(g: seq<Lock>, req: Lock, x: int, k: Kind) {
    if req.start <= x <= req.end then k == req.kind && !req.kind.Unlock? else Has(g, x, k)
  }

  lemma HasConcat(a: seq<Lock>, b: seq<Lock>, x: int, k: Kind)
    ensures Has(a + b, x, k) <==> Has(a, x, k) || Has(b, x, k)
  {
    if Has(a, x, k) {
      var i :| 0 <= i < |a| && Covers(a[i], x, k);
      assert Covers((a + b)[i], x, k);
    }
    if Has(b, x, k) {
      var i :| 0 <= i < |b| && Covers(b[i], x, k);
      assert Covers((a + b)[|a| + i], x, k);
    }
  }

  lemma HasOne(l: Lock, x: int, k: Kind)
    ensures Has([l], x, k) <==> Covers(l, x, k)
  {
    assert [l][0] == l;
  }

  /** How far a pass has come: locks before the request, a lock to cut short, the request as grown so far, what is
      left. */
  datatype Pass = Pass(before: seq<Lock>, left: seq<Lock>, c: Lock, node: bool, added: bool, rest: seq<Lock>)
  {
    function Olds(): seq<Lock> {
      before + left + rest
    }

    /** The owner's part of the list at this point of the pass. */
    function Group(): seq<Lock> {
      before + left + (if node then [c] else []) + rest
    }
  }

  ghost predicate Fits(p: Pass) {
    && Canonical(p.Olds()) && InOrder(p.c) && |p.left| <= 1
    && (forall i :: 0 <= i < |p.before| ==> Apart(p.before[i], p.c))
    && (p.left != [] ==> p.left[0].kind != p.c.kind && p.left[0].start < p.c.start <= p.left[0].end <= p.c.end)
    && (p.node ==> p.added && !p.c.kind.Unlock?)
    && (p.added ==> forall i :: 0 <= i < |p.rest| ==> p.rest[i].start >= p.c.start)
    && (p.added && !p.node ==> p.c.kind.Unlock?)
    && (p.left != [] && p.c.kind.Unlock? ==> p.added)
  }

  /** The bytes still say what they should: the grown request inside, the old locks outside. */
  ghost predicate Means(g: seq<Lock>, req: Lock, p: Pass) {
    forall x, k :: Target(g, req, x, k) <==> if p.c.start <= x <= p.c.end then k == p.c.kind && !p.c.kind.Unlock?
      else Has(p.Olds(), x, k)
  }

  ghost predicate Passing(g: seq<Lock>, req: Lock, p: Pass) {
    && Fits(p) && Means(g, req, p)
    && p.c == req.(start := p.c.start, end := p.c.end)
    && (!p.added ==> p.c == req && p.Olds() == g)
  }

  lemma Begin(g: seq<Lock>, req: Lock)
    requires Canonical(g) && InOrder(req)
    ensures Passing(g, req, Pass([], [], req, false, false, g))
  {
    assert Pass([], [], req, false, false, g).Olds() == g;
  }

  // ---------------------------------------------------------------- the branches of the loop

  /** A lock that lies before the request is passed over. */
  lemma PassOver(g: seq<Lock>, req: Lock, p: Pass)
    requires Passing(g, req, p) && p.rest != [] && Apart(p.rest[0], p.c)
    ensures p.left == [] && !p.added
    ensures Passing(g, req, p.(before := p.before + [p.rest[0]], rest := p.rest[1..]))
  {
    hide Has, Target;
    var p' := p.(before := p.before + [p.rest[0]], rest := p.rest[1..]);
    RestAfter(p);
    assert p'.Olds() == p.Olds();
    assert Means(g, req, p');
  }

  /** What follows in the list lies after the lock to cut short. */
  lemma RestAfter(p: Pass)
    requires Canonical(p.Olds()) && p.rest != []
    ensures forall i :: 0 <= i < |p.left| ==> Apart(p.left[i], p.rest[0])
    ensures forall i :: 0 <= i < |p.before| ==> Apart(p.before[i], p.rest[0])
    ensures forall i :: 1 <= i < |p.rest| ==> Apart(p.rest[0], p.rest[i])
    ensures InOrder(p.rest[0]) && !p.rest[0].kind.Unlock?
  {
    var o, n := p.Olds(), |p.before| + |p.left|;
    assert o[n] == p.rest[0];
    assert forall i :: 0 <= i < |p.before| ==> o[i] == p.before[i];
    assert forall i :: 0 <= i < |p.left| ==> o[|p.before| + i] == p.left[i];
    assert forall i :: 0 <= i < |p.rest| ==> o[n + i] == p.rest[i];
  }

  lemma OneKind(g: seq<Lock>, i: nat, x: int, k: Kind)
    requires Canonical(g) && i < |g| && g[i].start <= x <= g[i].end
    ensures Has(g, x, k) <==> k == g[i].kind
  {
    assert Covers(g[i], x, g[i].kind);
    if Has(g, x, k) {
      var j :| 0 <= j < |g| && Covers(g[j], x, k);
      assert i != j ==> Apart(g[i], g[j]) || Apart(g[j], g[i]);
    }
  }

  lemma CanonicalDrop(a: seq<Lock>, r: Lock, b: seq<Lock>)
    requires Canonical(a + [r] + b)
    ensures Canonical(a + b)
  {
    var o := a + [r] + b;
    assert forall i :: 0 <= i < |a + b| ==> (a + b)[i] == o[if i < |a| then i else i + 1];
  }

  lemma HasDrop(a: seq<Lock>, r: Lock, b: seq<Lock>, x: int, k: Kind)
    ensures Has(a + [r] + b, x, k) <==> Has(a + b, x, k) || Covers(r, x, k)
  {
    hide Has;
    HasConcat(a, b, x, k);
    HasConcat(a, [r], x, k);
    HasConcat(a + [r], b, x, k);
    HasOne(r, x, k);
  }

  /** The first lock still to be looked at taken out. */
  function Shift(p: Pass): Pass
    requires p.rest != []
  {
    p.(rest := p.rest[1..])
  }

  lemma ShiftOlds(p: Pass)
    requires p.rest != [] && Canonical(p.Olds())
    ensures p.Olds() == p.before + p.left + [p.rest[0]] + p.rest[1..]
    ensures Canonical(Shift(p).Olds())
  {
    assert p.Olds() == p.before + p.left + [p.rest[0]] + p.rest[1..];
    CanonicalDrop(p.before + p.left, p.rest[0], p.rest[1..]);
  }

  function Merged(c: Lock, l: Lock): Lock {
    c.(start := Min(c.start, l.start), end := Max(c.end, l.end))
  }

  function MergePass(p: Pass): Pass
    requires p.rest != []
  {
    Shift(p).(c := Merged(p.c, p.rest[0]), node := true, added := true)
  }

  ghost predicate Merges(p: Pass) {
    p.rest != [] && p.rest[0].kind == p.c.kind && p.rest[0].end >= p.c.start - 1 && p.rest[0].start <= p.c.end + 1
  }

  lemma MergeFits(p: Pass)
    requires Fits(p) && Merges(p)
    ensures Fits(MergePass(p))
  {
    RestAfter(p);
    ShiftOlds(p);
    hide Canonical;
  }

  lemma MergeMeans(g: seq<Lock>, req: Lock, p: Pass, x: int, k: Kind)
    requires Fits(p) && Means(g, req, p) && Merges(p)
    ensures var c := MergePass(p).c;
      Target(g, req, x, k) <==> if c.start <= x <= c.end then k == c.kind && !c.kind.Unlock?
        else Has(MergePass(p).Olds(), x, k)
  {
    hide Has, Target, Canonical;
    var r := p.rest[0];
    RestAfter(p);
    ShiftOlds(p);
    HasDrop(p.before + p.left, r, p.rest[1..], x, k);
    if r.start <= x <= r.end {
      assert p.Olds()[|p.before| + |p.left|] == r;
      OneKind(p.Olds(), |p.before| + |p.left|, x, k);
    }
  }

  /** A lock of the same kind that touches the request becomes one with it. */
  lemma Merge(g: seq<Lock>, req: Lock, p: Pass)
    requires Passing(g, req, p) && Merges(p)
    ensures Passing(g, req, MergePass(p))
  {
    hide Has, Target, Fits;
    MergeFits(p);
    forall x, k
      ensures var c := MergePass(p).c;
        Target(g, req, x, k) <==> if c.start <= x <= c.end then k == c.kind && !c.kind.Unlock?
          else Has(MergePass(p).Olds(), x, k)
    {
      MergeMeans(g, req, p, x, k);
    }
  }

  /** A lock of another kind that reaches into the request from the left will be cut short. */
  lemma CutLeft(g: seq<Lock>, req: Lock, p: Pass)
    requires Passing(g, req, p) && p.rest != [] && p.rest[0].kind != p.c.kind
    requires p.rest[0].start < p.c.start <= p.rest[0].end <= p.c.end
    ensures p.left == [] && !p.added
    ensures Passing(g, req, Shift(p).(left := [p.rest[0]], added := p.added || p.c.kind.Unlock?))
  {
    hide Has, Target;
    RestAfter(p);
    var p' := Shift(p).(left := [p.rest[0]], added := p.added || p.c.kind.Unlock?);
    assert p'.Olds() == p.Olds();
    assert Means(g, req, p');
  }

  function ReplacePass(p: Pass): Pass
    requires p.rest != []
  {
    Shift(p).(node := !p.c.kind.Unlock?, added := true)
  }

  ghost predicate Replaces(p: Pass) {
    p.rest != [] && p.rest[0].kind != p.c.kind && p.c.start <= p.rest[0].start && p.rest[0].end <= p.c.end
  }

  lemma ReplaceFits(p: Pass)
    requires Fits(p) && Replaces(p)
    ensures Fits(ReplacePass(p))
  {
    RestAfter(p);
    ShiftOlds(p);
    hide Canonical;
  }

  /** A lock of another kind inside the request gives way to it. */
  lemma Replace(g: seq<Lock>, req: Lock, p: Pass)
    requires Passing(g, req, p) && Replaces(p)
    ensures Passing(g, req, ReplacePass(p))
  {
    hide Has, Target, Fits;
    ReplaceFits(p);
    forall x, k | !(p.c.start <= x <= p.c.end) ensures Has(p.Olds(), x, k) <==> Has(ReplacePass(p).Olds(), x, k) {
      assert p.Olds() == p.before + p.left + [p.rest[0]] + p.rest[1..];
      HasDrop(p.before + p.left, p.rest[0], p.rest[1..], x, k);
    }
  }

  // ---------------------------------------------------------------- the end of the pass

  /** A lock of another kind reaches out of the request to the right. */
  ghost predicate SticksOut(p: Pass) {
    p.rest != [] && p.rest[0].kind != p.c.kind && p.rest[0].start <= p.c.end < p.rest[0].end
  }

  /** Nothing left touches the request. */
  ghost predicate Clear(p: Pass) {
    p.rest != [] ==> Apart(p.c, p.rest[0])
  }

  function Own(c: Lock): seq<Lock> {
    if c.kind.Unlock? then [] else [c]
  }

  /** Cut off at the right end, so as to end before `c`. */
  function Cut(l: seq<Lock>, c: Lock): seq<Lock> {
    if l == [] then [] else [l[0].(end := c.start - 1)]
  }

  /** The lock that sticks out, with what it keeps of its left end when it spans the request. */
  function Head(p: Pass): seq<Lock>
    requires p.rest != []
  {
    if p.rest[0].start < p.c.start then Cut([p.rest[0]], p.c) else []
  }

  /** What ends up below the request, and what above it. */
  function Lower(p: Pass, right: bool): seq<Lock>
    requires right ==> p.rest != []
  {
    p.before + Cut(p.left, p.c) + (if right then Head(p) else [])
  }

  function Upper(p: Pass, right: bool): seq<Lock>
    requires right ==> p.rest != []
  {
    if right then [p.rest[0].(start := p.c.end + 1)] + p.rest[1..] else p.rest
  }

  /** The owner's part of the list when the pass is over. */
  function Result(p: Pass, right: bool): seq<Lock>
    requires right ==> p.rest != []
  {
    Lower(p, right) + Own(p.c) + Upper(p, right)
  }

  ghost predicate Ends(p: Pass, right: bool) {
    Fits(p) && if right then SticksOut(p) else Clear(p)
  }

  lemma JoinCanonical(a: seq<Lock>, c: Lock, z: seq<Lock>)
    requires Canonical(a) && Canonical(z) && InOrder(c)
    requires forall i :: 0 <= i < |a| ==> Apart(a[i], c)
    requires forall i :: 0 <= i < |z| ==> Apart(c, z[i])
    ensures Canonical(a + Own(c) + z)
  {
    var r, n := a + Own(c) + z, |a| + |Own(c)|;
    forall i, j | 0 <= i < j < |r| ensures Apart(r[i], r[j]) {
      assert i < |a| || (i < n && r[i] == c) || r[i] == z[i - n];
      assert j < |a| || (j < n && r[j] == c) || r[j] == z[j - n];
    }
  }

  lemma Slices(p: Pass)
    requires Canonical(p.Olds())
    ensures Canonical(p.before) && Canonical(p.left) && Canonical(p.rest)
    ensures forall i, j :: 0 <= i < |p.before| && 0 <= j < |p.left| ==> Apart(p.before[i], p.left[j])
  {
    var o, n := p.Olds(), |p.before| + |p.left|;
    assert forall i :: 0 <= i < |p.before| ==> o[i] == p.before[i];
    assert forall i :: 0 <= i < |p.left| ==> o[|p.before| + i] == p.left[i];
    assert forall i :: 0 <= i < |p.rest| ==> o[n + i] == p.rest[i];
  }

  lemma LowerCanonical(p: Pass, right: bool)
    requires Ends(p, right)
    ensures Canonical(Lower(p, right)) && forall i :: 0 <= i < |Lower(p, right)| ==> Apart(Lower(p, right)[i], p.c)
  {
    Slices(p);
    if right { RestAfter(p); }
    assert right && p.left != [] ==> Head(p) == [];
    assert Lower(p, right) == p.before + if p.left != [] then Cut(p.left, p.c) else if right then Head(p) else [];
  }

  lemma UpperCanonical(p: Pass, right: bool)
    requires Ends(p, right)
    ensures Canonical(Upper(p, right)) && forall i :: 0 <= i < |Upper(p, right)| ==> Apart(p.c, Upper(p, right)[i])
  {
    Slices(p);
    if p.rest != [] { RestAfter(p); }
  }

  lemma ResultCanonical(p: Pass, right: bool)
    requires Ends(p, right)
    ensures Canonical(Result(p, right))
  {
    hide Canonical, Lower, Upper;
    LowerCanonical(p, right);
    UpperCanonical(p, right);
    JoinCanonical(Lower(p, right), p.c, Upper(p, right));
  }

  lemma HasCut(l: seq<Lock>, c: Lock, x: int, k: Kind)
    requires |l| <= 1 && InOrder(c) && (l != [] ==> c.start <= l[0].end <= c.end)
    ensures Has(Cut(l, c), x, k) <==> Has(l, x, k) && x < c.start
  {
    if l != [] {
      assert l == [l[0]];
      HasOne(l[0], x, k);
      HasOne(l[0].(end := c.start - 1), x, k);
    } else {
      HasEmpty(x, k);
    }
  }

  lemma HasLower(p: Pass, right: bool, x: int, k: Kind)
    requires Ends(p, right)
    ensures Has(Lower(p, right), x, k) <==>
      x < p.c.start && (Has(p.before, x, k) || Has(p.left, x, k) || (right && Covers(p.rest[0], x, k)))
  {
    hide Canonical;
    HasConcat(p.before + Cut(p.left, p.c), if right then Head(p) else [], x, k);
    HasConcat(p.before, Cut(p.left, p.c), x, k);
    HasCut(p.left, p.c, x, k);
    if right && Head(p) != [] { HasOne(Head(p)[0], x, k); }
    HasNone(p.before, p.c, x, k);
  }

  lemma HasNone(a: seq<Lock>, c: Lock, x: int, k: Kind)
    requires forall i :: 0 <= i < |a| ==> Apart(a[i], c)
    ensures Has(a, x, k) ==> x < c.start
  {
  }

  lemma HasUpper(p: Pass, right: bool, x: int, k: Kind)
    requires Ends(p, right)
    ensures Has(Upper(p, right), x, k) <==> x > p.c.end && Has(p.rest, x, k)
  {
    hide Has;
    if Has(Upper(p, right), x, k) { UpperAbove(p, right, x, k); }
    if right {
      var r := p.rest[0];
      assert p.rest == [r] + p.rest[1..];
      HasConcat([r], p.rest[1..], x, k);
      HasConcat([r.(start := p.c.end + 1)], p.rest[1..], x, k);
      HasOne(r, x, k);
      HasOne(r.(start := p.c.end + 1), x, k);
    }
  }

  lemma UpperAbove(p: Pass, right: bool, x: int, k: Kind)
    requires Ends(p, right) && Has(Upper(p, right), x, k)
    ensures x > p.c.end
  {
    UpperCanonical(p, right);
  }

  /** Outside the request the result covers what the old locks covered. */
  lemma ResultHas(p: Pass, right: bool, x: int, k: Kind)
    requires Ends(p, right)
    ensures Has(Result(p, right), x, k) <==>
      if p.c.start <= x <= p.c.end then k == p.c.kind && !p.c.kind.Unlock? else Has(p.Olds(), x, k)
  {
    hide Has, Canonical;
    HasConcat(Lower(p, right) + Own(p.c), Upper(p, right), x, k);
    HasConcat(Lower(p, right), Own(p.c), x, k);
    HasOne(p.c, x, k);
    HasEmpty(x, k);
    HasLower(p, right, x, k);
    HasUpper(p, right, x, k);
    HasConcat(p.before + p.left, p.rest, x, k);
    HasConcat(p.before, p.left, x, k);
    OldsOutside(p, right, x, k);
  }

  lemma HasEmpty(x: int, k: Kind)
    ensures !Has([], x, k)
  {
  }

  /** Outside the request the locks below it lie below and those above it above, save for one that spans it. */
  lemma OldsOutside(p: Pass, right: bool, x: int, k: Kind)
    requires Ends(p, right)
    ensures Has(p.before, x, k) || Has(p.left, x, k) ==> x <= p.c.end
    ensures Has(p.rest, x, k) && x < p.c.start ==> right && Covers(p.rest[0], x, k)
    ensures right && Covers(p.rest[0], x, k) ==> Has(p.rest, x, k)
  {
    if p.rest != [] { RestAfter(p); }
  }

  /** The pass over, the owner's locks are in canonical form and say of every byte what they should. */
  lemma ResultGood(g: seq<Lock>, req: Lock, p: Pass, right: bool)
    requires Passing(g, req, p) && Ends(p, right)
    ensures Canonical(Result(p, right)) && forall x, k :: Has(Result(p, right), x, k) <==> Target(g, req, x, k)
  {
    hide Has, Canonical, Target, Result;
    ResultCanonical(p, right);
    forall x, k ensures Has(Result(p, right), x, k) <==> Target(g, req, x, k) {
      ResultHas(p, right, x, k);
    }
  }
}

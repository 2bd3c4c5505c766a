/** lock_it as a function of one owner's locks, whatever state they are in (fs/locks.c). */
module LockScan {
  import opened Basics
  import opened LockRanges

  /** Of one owner and descriptor. */
  predicate Same(a: Lock, b: Lock) {
    a.owner == b.owner && a.fd == b.fd
  }

  ghost predicate AllSame(g: seq<Lock>, req: Lock) {
    forall i :: 0 <= i < |g| ==> Same(g[i], req)
  }

  /** The end of a lock plus one, in 32 bits. */
  function AfterEnd(e: int): int {
    if e == OFFSET_MAX then -OFFSET_MAX - 1 else e + 1
  }

  /** The variables of the pass: the owner's locks as they are, the place in them, the request as grown so far, whether
      it is dealt with, the lock that stands for it, the lock to cut short, and whether the one at the place sticks
      out. */
  datatype Scan = Scan(
    g: seq<Lock>, pos: nat, c: Lock, added: bool, node: Option<nat>, left: Option<nat>, right: bool, stop: bool)

  function Start(g: seq<Lock>, req: Lock): Scan {
    Scan(g, 0, req, false, None, None, false, false)
  }

  /** The locks named are behind the place of the pass. */
  predicate Wf(s: Scan) {
    && s.pos <= |s.g|
    && (s.node.Some? ==> s.node.value < s.pos && s.added && !s.c.kind.Unlock?)
    && (s.left.Some? ==> s.left.value < s.pos || (s.right && s.left.value == s.pos))
    && (s.right ==> s.pos < |s.g| && s.stop)
    && (s.added && s.node.None? ==> s.c.kind.Unlock?)
    && (s.stop ==> s.pos < |s.g|)
  }

  /** The request grown to `m`, in the lock that stands for it too. */
  function Grown(s: Scan, m: Lock): seq<Lock>
    requires Wf(s)
  {
    if s.node.Some? then s.g[s.node.value := m] else s.g
  }

  /** A lock of the kind of the request. */
  function TurnSame(s: Scan): Scan
    requires Wf(s) && !s.stop && s.pos < |s.g|
  {
    var fl := s.g[s.pos];
    var m := Merged(s.c, fl);
    if fl.end < s.c.start - 1 then s.(pos := s.pos + 1)
    else if fl.start > AfterEnd(s.c.end) then s.(stop := true)
    else if s.added then s.(g := Remove(Grown(s, m), s.pos), c := m)
    else s.(g := s.g[s.pos := m], c := m, added := true, node := Some(s.pos), pos := s.pos + 1)
  }

  /** A lock of another kind. */
  function TurnOther(s: Scan): Scan
    requires Wf(s) && !s.stop && s.pos < |s.g|
  {
    var fl := s.g[s.pos];
    var added := s.added || s.c.kind.Unlock?;
    var left := if fl.start < s.c.start then Some(s.pos) else s.left;
    if fl.end < s.c.start then s.(pos := s.pos + 1)
    else if fl.start > s.c.end then s.(stop := true)
    else if fl.end > s.c.end then s.(added := added, left := left, right := true, stop := true)
    else if fl.start < s.c.start then s.(added := added, left := left, pos := s.pos + 1)
    else if added then s.(g := Remove(s.g, s.pos), added := true)
    else s.(g := s.g[s.pos := s.c], added := true, node := Some(s.pos), pos := s.pos + 1)
  }

  function Turn(s: Scan): Scan
    requires Wf(s) && !s.stop && s.pos < |s.g|
  {
    if s.g[s.pos].kind == s.c.kind then TurnSame(s) else TurnOther(s)
  }

  predicate NoUnlocks(g: seq<Lock>) {
    forall i :: 0 <= i < |g| ==> !g[i].kind.Unlock?
  }

  /** A turn goes on by one lock, or stops. */
  lemma TurnWf(s: Scan)
    requires Wf(s) && !s.stop && s.pos < |s.g| && NoUnlocks(s.g)
    ensures Wf(Turn(s)) && NoUnlocks(Turn(s).g)
    ensures Turn(s).stop || |Turn(s).g| - Turn(s).pos == |s.g| - s.pos - 1
    ensures Turn(s).stop ==> Turn(s).g == s.g && Turn(s).pos == s.pos && Turn(s).node == s.node && Turn(s).c == s.c
  {
  }

  /** All stays with one owner. */
  lemma TurnOwner(s: Scan, req: Lock)
    requires Wf(s) && !s.stop && s.pos < |s.g| && AllSame(s.g, req) && Same(s.c, req)
    ensures AllSame(Turn(s).g, req) && Same(Turn(s).c, req)
  {
    if s.added { RemoveAt(Grown(s, Merged(s.c, s.g[s.pos])), s.pos); }
    RemoveAt(s.g, s.pos);
  }

  /** The whole pass. */
  ghost function Through(s: Scan): Scan
    requires Wf(s) && NoUnlocks(s.g)
    ensures Wf(Through(s)) && NoUnlocks(Through(s).g) && (Through(s).stop || Through(s).pos == |Through(s).g|)
    decreases |s.g| - s.pos, !s.stop
  {
    if s.stop || s.pos == |s.g| then s
    else
      TurnWf(s);
      Through(Turn(s))
  }

  // ---------------------------------------------------------------- the end of the pass

  datatype Status = Done | Invalid | NoLocks

  /** One lock reaches out of the request on both sides. */
  predicate Spans(s: Scan) {
    s.right && s.left == Some(s.pos)
  }

  /** Nothing to unlock, or too few nodes for a new lock and for the second half of one that is split. */
  function Outcome(s: Scan, free: nat): Status {
    if !s.added && s.c.kind.Unlock? then Invalid
    else if free < (if s.added then 0 else 1) + (if Spans(s) then 1 else 0) then NoLocks
    else Done
  }

  /** What is below the place of the pass, with the lock on the left cut back. */
  function Lows(s: Scan): seq<Lock>
    requires Wf(s)
  {
    var lo := s.g[..s.pos];
    if s.left.Some? && !Spans(s) then lo[s.left.value := lo[s.left.value].(end := s.c.start - 1)] else lo
  }

  /** The lower half of a lock that is split, and the request if no lock stands for it. */
  function Mids(s: Scan): seq<Lock>
    requires Wf(s)
  {
    (if Spans(s) then [s.g[s.pos].(end := s.c.start - 1)] else []) + (if s.added then [] else [s.c])
  }

  /** What is at the place of the pass and above, with the lock on the right cut back. */
  function Highs(s: Scan): seq<Lock>
    requires Wf(s)
  {
    if s.right then [s.g[s.pos].(start := s.c.end + 1)] + s.g[s.pos + 1..] else s.g[s.pos..]
  }

  function Rebuilt(s: Scan): seq<Lock>
    requires Wf(s)
  {
    Lows(s) + Mids(s) + Highs(s)
  }

  /** The owner's locks after lock_it. */
  ghost function After(g: seq<Lock>, req: Lock, free: nat): seq<Lock>
    requires NoUnlocks(g)
  {
    var s := Through(Start(g, req));
    if Outcome(s, free).Done? then Rebuilt(s) else s.g
  }

  // ---------------------------------------------------------------- no byte that was not asked for

  /** Bounds of 32-bit offsets; a lock cut back twice may be empty. */
  predicate Bounded(l: Lock) {
    0 <= l.start && l.end <= OFFSET_MAX && !l.kind.Unlock?
  }

  ghost predicate AllBounded(g: seq<Lock>) {
    forall i :: 0 <= i < |g| ==> Bounded(g[i])
  }

  /** The byte was held so before, or is asked for. */
  ghost predicate Allowed(g: seq<Lock>, req: Lock, x: int, k: Kind) {
    Has(g, x, k) || (req.start <= x <= req.end && k == req.kind && !k.Unlock?)
  }

  /** A lock that covers no byte it should not. */
  ghost predicate Tame(g: seq<Lock>, req: Lock, l: Lock) {
    Same(l, req) && Bounded(l) && forall x :: l.start <= x <= l.end ==> Allowed(g, req, x, l.kind)
  }

  ghost predicate AllTame(g: seq<Lock>, req: Lock, r: seq<Lock>) {
    forall i :: 0 <= i < |r| ==> Tame(g, req, r[i])
  }

  /** All that the pass has put down is tame, and so is the request as grown; what is to be cut can only shrink. */
  ghost predicate Taming(g: seq<Lock>, req: Lock, s: Scan) {
    && Wf(s) && AllTame(g, req, s.g) && InOrder(s.c) && s.c == req.(start := s.c.start, end := s.c.end)
    && (!req.kind.Unlock? ==> Tame(g, req, s.c)) && (req.kind.Unlock? ==> s.c == req)
    && (s.node.Some? ==> s.g[s.node.value].kind == s.c.kind)
    && (s.left.Some? ==> s.g[s.left.value].kind != s.c.kind && s.g[s.left.value].end >= s.c.start - 1)
    && (s.right ==> s.g[s.pos].start <= s.c.end < s.g[s.pos].end)
  }

  lemma TameAll(g: seq<Lock>, req: Lock)
    requires AllSame(g, req) && AllBounded(g)
    ensures AllTame(g, req, g)
  {
    forall i | 0 <= i < |g| ensures Tame(g, req, g[i]) {
      forall x | g[i].start <= x <= g[i].end ensures Has(g, x, g[i].kind) { assert Covers(g[i], x, g[i].kind); }
    }
  }

  lemma StartTame(g: seq<Lock>, req: Lock)
    requires AllSame(g, req) && AllBounded(g) && InOrder(req)
    ensures Taming(g, req, Start(g, req))
  {
    TameAll(g, req);
  }

  /** Two tame locks of one kind that touch make a tame one. */
  lemma MergeTame(g: seq<Lock>, req: Lock, c: Lock, l: Lock)
    requires Tame(g, req, c) && Tame(g, req, l) && InOrder(c) && c.kind == l.kind
    requires l.end >= c.start - 1 && l.start <= AfterEnd(c.end)
    ensures Tame(g, req, Merged(c, l)) && InOrder(Merged(c, l))
  {
    hide Allowed;
    assert l.start <= c.end + 1;
  }

  lemma TurnSameTame(g: seq<Lock>, req: Lock, s: Scan)
    requires Taming(g, req, s) && !s.stop && s.pos < |s.g| && s.g[s.pos].kind == s.c.kind
    ensures Taming(g, req, TurnSame(s))
  {
    hide Tame;
    var fl := s.g[s.pos];
    TameIs(g, req, fl);
    if fl.end >= s.c.start - 1 && fl.start <= AfterEnd(s.c.end) {
      MergeTame(g, req, s.c, fl);
      if s.added { RemoveAt(Grown(s, Merged(s.c, fl)), s.pos); }
    }
  }

  lemma TameIs(g: seq<Lock>, req: Lock, l: Lock)
    requires Tame(g, req, l)
    ensures Same(l, req) && Bounded(l)
  {
  }

  lemma TurnOtherTame(g: seq<Lock>, req: Lock, s: Scan)
    requires Taming(g, req, s) && !s.stop && s.pos < |s.g| && s.g[s.pos].kind != s.c.kind
    ensures Taming(g, req, TurnOther(s))
  {
    hide Tame;
    RemoveAt(s.g, s.pos);
  }

  lemma {:induction false} ThroughTame(g: seq<Lock>, req: Lock, s: Scan)
    requires Taming(g, req, s) && NoUnlocks(s.g)
    ensures Taming(g, req, Through(s))
    decreases |s.g| - s.pos, !s.stop
  {
    hide Taming;
    TamingWf(g, req, s);
    if !s.stop && s.pos < |s.g| {
      TurnWf(s);
      if s.g[s.pos].kind == s.c.kind { TurnSameTame(g, req, s); } else { TurnOtherTame(g, req, s); }
      ThroughTame(g, req, Turn(s));
    }
  }

  lemma TamingWf(g: seq<Lock>, req: Lock, s: Scan)
    requires Taming(g, req, s)
    ensures Wf(s)
  {
  }

  lemma RebuiltTame(g: seq<Lock>, req: Lock, s: Scan, free: nat)
    requires Taming(g, req, s) && Outcome(s, free).Done?
    ensures AllTame(g, req, Rebuilt(s))
  {
    assert AllTame(g, req, Lows(s));
    assert AllTame(g, req, Mids(s));
    assert AllTame(g, req, Highs(s));
  }

  /** Whatever state an owner's locks are in, lock_it gives no byte that was not held or asked for. */
  lemma AfterTame(g: seq<Lock>, req: Lock, free: nat)
    requires AllSame(g, req) && AllBounded(g) && InOrder(req)
    ensures NoUnlocks(g) && AllTame(g, req, After(g, req, free))
  {
    hide Taming, Tame, Through;
    StartTame(g, req);
    ThroughTame(g, req, Start(g, req));
    var s := Through(Start(g, req));
    if Outcome(s, free).Done? { RebuiltTame(g, req, s, free); } else { TamingIs(g, req, s); }
  }

  lemma TamingIs(g: seq<Lock>, req: Lock, s: Scan)
    requires Taming(g, req, s)
    ensures AllTame(g, req, s.g)
  {
  }

  lemma TameHas(g: seq<Lock>, req: Lock, r: seq<Lock>, x: int, k: Kind)
    requires AllTame(g, req, r) && Has(r, x, k)
    ensures Allowed(g, req, x, k)
  {
  }
}

/** The pass over an owner's locks when they are in order: what it leaves is exactly what was asked for (fs/locks.c). */
module LockExact {
  import opened Basics
  import opened LockRanges
  import opened LockScan

  /** The owner has a lock of the kind asked for that a request to the end of all files should grow into. */
  ghost predicate Wraps(g: seq<Lock>, req: Lock) {
    req.end == OFFSET_MAX && exists i :: 0 <= i < |g| && g[i].kind == req.kind && g[i].end >= req.start - 1
  }

  /** How many locks of the group are behind the pass. */
  function Behind(p: Pass): nat {
    |p.before| + |p.left| + if p.node then 1 else 0
  }

  /** Every lock of the kind asked for is before the request or still ahead; or the request has grown, to less than
      all. */
  ghost predicate Tracks(g: seq<Lock>, req: Lock, p: Pass) {
    && (req.end == OFFSET_MAX ==> p.c == req && forall i :: 0 <= i < |g| && g[i].kind == req.kind ==>
        g[i] in p.before || g[i] in p.rest)
    && (p.c.end == req.end || forall i :: 0 <= i < |p.rest| ==> p.rest[i].start > p.c.end)
    && (forall i :: 0 <= i < |p.rest| ==> p.rest[i] in g) && Suffix(g, p.rest)
    && (forall i :: 0 <= i < |p.before| ==> p.before[i] in g) && (forall i :: 0 <= i < |p.left| ==> p.left[i] in g)
    && (req.kind.Unlock? ==> p.c == req) && (req.kind.Unlock? && p.added ==> Touched(g, req))
  }

  ghost predicate Suffix(g: seq<Lock>, rest: seq<Lock>) {
    |rest| <= |g| && rest == g[|g| - |rest|..]
  }

  lemma SuffixShift(g: seq<Lock>, rest: seq<Lock>)
    requires Suffix(g, rest) && rest != []
    ensures Suffix(g, rest[1..])
  {
  }

  /** Some lock of the group shares a byte with the request. */
  ghost predicate Touched(g: seq<Lock>, req: Lock) {
    exists l :: l in g && l.start <= req.end && req.start <= l.end
  }

  lemma TracksMerge(g: seq<Lock>, req: Lock, p: Pass)
    requires Passing(g, req, p) && Tracks(g, req, p) && Merges(p) && p.c.end < OFFSET_MAX
    ensures Tracks(g, req, MergePass(p))
  {
    hide Has, Target, Means, Suffix;
    RestAfter(p);
    SuffixShift(g, p.rest);
    assert forall i :: 0 <= i < |p.rest| - 1 ==> p.rest[1..][i] == p.rest[i + 1];
  }

  /** A lock passed over, cut or replaced leaves the others where they are. */
  lemma TracksShift(g: seq<Lock>, req: Lock, p: Pass, p': Pass)
    requires Tracks(g, req, p) && p.rest != [] && p'.rest == p.rest[1..] && p'.c == p.c
    requires (p'.left == p.left || p'.left == [p.rest[0]])
    requires p'.added ==> p.added || (p.rest[0].start <= p.c.end && p.c.start <= p.rest[0].end)
    requires (p'.before == p.before && p.rest[0].kind != req.kind) || p'.before == p.before + [p.rest[0]]
    ensures Tracks(g, req, p')
  {
    SuffixShift(g, p.rest);
    hide Suffix;
    assert p.rest == [p.rest[0]] + p.rest[1..];
    forall x: Lock | x in p.rest && x != p.rest[0] ensures x in p'.rest { }
    assert forall i :: 0 <= i < |p'.rest| ==> p'.rest[i] == p.rest[i + 1];
  }

  // ---------------------------------------------------------------- the pass as a value follows the code

  /** The variables of the pass say where it stands. */
  ghost predicate Follows(s: Scan, p: Pass) {
    && s.g == p.Group() && s.pos == Behind(p) && s.c == p.c && s.added == p.added && !s.right && !s.stop
    && s.node == (if p.node then Some(Behind(p) - 1) else None)
    && s.left == if p.left != [] then Some(|p.before|) else None
  }

  /** The variables when the pass is over. */
  ghost predicate Halts(s: Scan, p: Pass) {
    && s.g == p.Group() && s.pos == Behind(p) && s.c == p.c && s.right == SticksOut(p)
    && s.added == (p.added || (SticksOut(p) && p.c.kind.Unlock?))
    && s.left == if SticksOut(p) && p.rest[0].start < p.c.start then Some(s.pos)
                 else if p.left != [] then Some(|p.before|) else None
  }

  /** The pass has come to its end at a lock that is clear of the request, sticks out of it, or wraps. */
  ghost predicate Stopped(p: Pass) {
    Clear(p) || SticksOut(p) || (Merges(p) && p.c.end == OFFSET_MAX)
  }

  /** What a pass knows of the lock it looks at. */
  lemma Looking(g: seq<Lock>, req: Lock, p: Pass)
    requires Passing(g, req, p) && Tracks(g, req, p) && AllSame(g, req) && p.rest != []
    ensures InOrder(p.c) && InOrder(p.rest[0]) && !p.rest[0].kind.Unlock? && Same(p.rest[0], p.c)
    ensures p.added <==> p.node || (p.added && p.c.kind.Unlock?)
    ensures p.node ==> p.added && !p.c.kind.Unlock?
    ensures p.c == req.(start := p.c.start, end := p.c.end)
  {
    RestAfter(p);
  }

  lemma NotOut(p: Pass)
    requires p.rest == [] || p.rest[0].kind == p.c.kind || p.rest[0].start > p.c.end
    ensures !SticksOut(p)
  {
  }

  lemma GroupSet(p: Pass, c: Lock)
    requires p.node
    ensures p.Group()[Behind(p) - 1 := c] == p.(c := c).Group() && Behind(p) <= |p.Group()|
  {
  }

  lemma GroupRest(p: Pass)
    ensures Behind(p) <= |p.Group()| && (p.rest != [] <==> Behind(p) < |p.Group()|)
    ensures p.rest != [] ==> p.Group()[Behind(p)] == p.rest[0] && Remove(p.Group(), Behind(p)) == Shift(p).Group()
  {
  }

  lemma GroupTake(p: Pass, c: Lock)
    requires p.rest != [] && !p.node
    ensures p.Group()[Behind(p) := c] == Shift(p).(c := c, node := true).Group()
  {
  }

  lemma GroupMove(p: Pass)
    requires p.rest != [] && p.left == [] && !p.node
    ensures Shift(p).(left := [p.rest[0]]).Group() == p.Group() == Shift(p).(before := p.before + [p.rest[0]]).Group()
  {
  }

  lemma SameFollows(g: seq<Lock>, req: Lock, s: Scan, p: Pass) returns (p': Pass)
    requires Passing(g, req, p) && Tracks(g, req, p) && AllSame(g, req) && Follows(s, p) && p.rest != [] && Wf(s)
    requires p.rest[0].kind == p.c.kind
    ensures s.pos < |s.g|
    ensures var s' := TurnSame(s);
      if s'.stop then Halts(s', p) && Stopped(p) else Passing(g, req, p') && Tracks(g, req, p') && Follows(s', p')
  {
    hide Passing, Tracks, Pass.Group;
    GroupRest(p);
    Looking(g, req, p);
    p' := p;
    var fl := p.rest[0];
    if fl.end < p.c.start - 1 {
      PassOver(g, req, p);
      p' := Shift(p).(before := p.before + [fl]);
      TracksShift(g, req, p, p');
      GroupMove(p);
    } else if fl.start > AfterEnd(p.c.end) {
      NotOut(p);
    } else {
      Merge(g, req, p);
      TracksMerge(g, req, p);
      p' := MergePass(p);
      if p.node {
        GroupSet(p, p'.c);
        GroupRest(p.(c := p'.c));
      } else {
        GroupTake(p, p'.c);
      }
      GroupAdded(Shift(p).(c := p'.c, node := true));
    }
  }

  lemma GroupAdded(p: Pass)
    ensures p.(added := true).Group() == p.Group()
  {
  }

  lemma OtherFollows(g: seq<Lock>, req: Lock, s: Scan, p: Pass) returns (p': Pass)
    requires Passing(g, req, p) && Tracks(g, req, p) && AllSame(g, req) && Follows(s, p) && p.rest != [] && Wf(s)
    requires p.rest[0].kind != p.c.kind
    ensures s.pos < |s.g|
    ensures var s' := TurnOther(s);
      if s'.stop then Halts(s', p) && Stopped(p) else Passing(g, req, p') && Tracks(g, req, p') && Follows(s', p')
  {
    hide Passing, Tracks, Pass.Group;
    GroupRest(p);
    Looking(g, req, p);
    p' := p;
    var fl := p.rest[0];
    if fl.end < p.c.start {
      PassOver(g, req, p);
      p' := Shift(p).(before := p.before + [fl]);
      TracksShift(g, req, p, p');
      GroupMove(p);
    } else if fl.start > p.c.end {
      NotOut(p);
    } else if fl.end <= p.c.end {
      if fl.start < p.c.start {
        CutLeft(g, req, p);
        p' := Shift(p).(left := [fl], added := p.added || p.c.kind.Unlock?);
        TracksShift(g, req, p, p');
        GroupMove(p);
        GroupAdded(Shift(p).(left := [fl]));
      } else {
        Replace(g, req, p);
        p' := ReplacePass(p);
        TracksShift(g, req, p, p');
        if !p.added && !p.c.kind.Unlock? { GroupTake(p, p.c); }
        GroupAdded(Shift(p).(node := p'.node));
      }
    }
  }

  lemma {:induction false} ThroughFollows(g: seq<Lock>, req: Lock, s: Scan, p: Pass) returns (p': Pass)
    requires Passing(g, req, p) && Tracks(g, req, p) && AllSame(g, req) && Follows(s, p) && Wf(s) && NoUnlocks(s.g)
    ensures Passing(g, req, p') && Tracks(g, req, p') && Halts(Through(s), p') && Stopped(p')
    decreases |s.g| - s.pos
  {
    hide Passing, Tracks, Wf, Turn, NoUnlocks, Follows, Halts, Stopped;
    FollowsAt(s, p);
    if p.rest == [] {
      p' := p;
    } else {
      TurnWf(s);
      TurnIs(s);
      if p.rest[0].kind == p.c.kind { p' := SameFollows(g, req, s, p); } else { p' := OtherFollows(g, req, s, p); }
      var s' := Turn(s);
      if s'.stop {
        p' := p;
      } else {
        p' := ThroughFollows(g, req, s', p');
      }
    }
  }

  lemma TurnIs(s: Scan)
    requires Wf(s) && !s.stop && s.pos < |s.g|
    ensures Turn(s) == if s.g[s.pos].kind == s.c.kind then TurnSame(s) else TurnOther(s)
  {
  }

  lemma FollowsAt(s: Scan, p: Pass)
    requires Follows(s, p)
    ensures !s.stop && s.pos <= |s.g| && (p.rest != [] <==> s.pos < |s.g|) && s.c == p.c
    ensures p.rest != [] ==> s.g[s.pos] == p.rest[0]
    ensures p.rest == [] ==> Halts(s, p) && Stopped(p)
  {
    GroupRest(p);
    hide Pass.Group;
    if p.rest == [] { NotOut(p); }
  }

  // ---------------------------------------------------------------- the end of the pass

  lemma PlainFits(g: seq<Lock>, req: Lock, p: Pass)
    requires Passing(g, req, p)
    ensures InOrder(p.c) && |p.left| <= 1 && (p.node ==> p.added && !p.c.kind.Unlock?)
    ensures (p.added && !p.node ==> p.c.kind.Unlock?)
    ensures p.left != [] && p.c.kind.Unlock? ==> p.added
    ensures SticksOut(p) && p.rest[0].start < p.c.start ==> p.left == [] && !p.added
    ensures p.c == req.(start := p.c.start, end := p.c.end)
    ensures !p.added ==> p.c == req && p.Olds() == g == p.Group()
  {
    if p.rest != [] { RestAfter(p); }
    assert !p.node ==> p.Olds() == p.Group();
  }

  lemma SpanRebuilt(s: Scan, p: Pass)
    requires Halts(s, p) && Wf(s) && Spans(s) && p.left == [] && !p.added && !p.node
    requires s.g[..s.pos] == p.before && s.g[s.pos] == p.rest[0] && Highs(s) == Upper(p, true)
    ensures Rebuilt(s) == Result(p, true)
  {
    hide Pass.Group, Upper, Highs;
    assert Lower(p, true) == p.before + Head(p);
    assert Mids(s) == Head(p) + Own(p.c);
    Regroup(p.before, Head(p), Own(p.c), Upper(p, true));
  }

  lemma Regroup(a: seq<Lock>, b: seq<Lock>, c: seq<Lock>, d: seq<Lock>)
    ensures a + (b + c) + d == a + b + c + d
  {
  }

  lemma PlainRebuilt(s: Scan, p: Pass)
    requires Halts(s, p) && Wf(s) && !Spans(s) && |p.left| <= 1 && (s.added <==> p.node || p.c.kind.Unlock?)
    requires p.node ==> !p.c.kind.Unlock?
    requires s.g[..s.pos] == p.before + p.left + (if p.node then [p.c] else []) && Highs(s) == Upper(p, SticksOut(p))
    ensures Rebuilt(s) == Result(p, SticksOut(p))
  {
    hide Pass.Group, Upper, Highs;
    var own := if p.node then [p.c] else [];
    assert Lows(s) == p.before + Cut(p.left, p.c) + own;
    assert Lower(p, SticksOut(p)) == p.before + Cut(p.left, p.c);
    assert own + Mids(s) == Own(p.c);
    Regroup(p.before + Cut(p.left, p.c), own, Mids(s), Upper(p, SticksOut(p)));
  }

  /** What the code makes of the list is the result of the pass. */
  lemma RebuiltIsResult(g: seq<Lock>, req: Lock, s: Scan, p: Pass)
    requires Passing(g, req, p) && Halts(s, p) && Wf(s) && (s.added || !s.c.kind.Unlock?)
    ensures SticksOut(p) ==> p.rest != []
    ensures Rebuilt(s) == Result(p, SticksOut(p))
  {
    PlainFits(g, req, p);
    GroupHighs(s, p);
    GroupLows(p);
    GroupRest(p);
    hide Passing, Pass.Group, Highs, Upper, Rebuilt, Result;
    if Spans(s) {
      assert p.before + p.left + [] == p.before;
      SpanRebuilt(s, p);
    } else {
      PlainRebuilt(s, p);
    }
  }

  lemma GroupHighs(s: Scan, p: Pass)
    requires Halts(s, p) && Wf(s)
    ensures SticksOut(p) ==> p.rest != []
    ensures Highs(s) == Upper(p, SticksOut(p))
  {
    assert s.g[s.pos..] == p.rest;
    if SticksOut(p) { assert s.g[s.pos + 1..] == p.rest[1..]; }
  }

  lemma GroupLows(p: Pass)
    ensures Behind(p) <= |p.Group()| && p.Group()[..Behind(p)] == p.before + p.left + if p.node then [p.c] else []
  {
  }

  /** The pass ends clear of the request, or at a lock that sticks out, just when nothing wraps. */
  lemma EndsOrWraps(g: seq<Lock>, req: Lock, p: Pass)
    requires Passing(g, req, p) && Tracks(g, req, p) && Stopped(p)
    ensures Wraps(g, req) ==>
      !Ends(p, SticksOut(p)) && p.rest != [] && p.c.end >= p.rest[0].start && !p.c.kind.Unlock? && !SticksOut(p)
    ensures !Wraps(g, req) ==> Ends(p, SticksOut(p))
  {
    hide Has, Target, Means, Canonical;
    if p.rest != [] { RestAfter(p); }
    if Wraps(g, req) {
      var i :| 0 <= i < |g| && g[i].kind == req.kind && g[i].end >= req.start - 1;
      assert g[i] !in p.before;
    }
  }

  /** A request to unlock finds something just when it is marked as done. */
  lemma UnlockDone(g: seq<Lock>, req: Lock, p: Pass)
    requires Passing(g, req, p) && Tracks(g, req, p) && Stopped(p) && req.kind.Unlock?
    ensures p.added || SticksOut(p) <==> Touched(g, req)
  {
    hide Has, Target, Means;
    if p.rest != [] { RestAfter(p); }
    if SticksOut(p) { assert p.rest[0] in g; }
  }

  /** The new lock overlaps the next one. */
  lemma WrapsWrong(g: seq<Lock>, req: Lock, p: Pass)
    requires Passing(g, req, p) && Tracks(g, req, p) && Stopped(p) && Wraps(g, req)
    ensures SticksOut(p) ==> p.rest != []
    ensures !Canonical(Result(p, SticksOut(p)))
  {
    EndsOrWraps(g, req, p);
    hide Passing, Tracks, Canonical;
    var r, i := Result(p, false), |Lower(p, false)|;
    assert r[i] == p.c && r[i + 1] == p.rest[0];
    NotApart(r, i);
  }

  lemma NotApart(r: seq<Lock>, i: nat)
    requires i + 1 < |r| && !Apart(r[i], r[i + 1])
    ensures !Canonical(r)
  {
  }

  lemma CanonicalIs(g: seq<Lock>, req: Lock)
    requires Canonical(g) && InOrder(req)
    ensures NoUnlocks(g) && Passing(g, req, Pass([], [], req, false, false, g))
    ensures Tracks(g, req, Pass([], [], req, false, false, g))
    ensures Follows(Start(g, req), Pass([], [], req, false, false, g))
  {
    Begin(g, req);
    assert Pass([], [], req, false, false, g).Group() == g;
  }

  // ---------------------------------------------------------------- the bytes when the end wraps

  /** A lock of another kind stands behind one of the kind of the request that the request touches. */
  ghost predicate Mixed(g: seq<Lock>, req: Lock) {
    exists i, j :: 0 <= i < j < |g| && g[i].kind == req.kind && g[i].end >= req.start - 1 && g[j].kind != req.kind
  }

  ghost predicate Pure(g: seq<Lock>, kind: Kind) {
    forall i :: 0 <= i < |g| ==> g[i].kind == kind
  }

  /** The pass stops at a lock that it should make one with the request; what is behind that is never looked at. */
  lemma PureRest(g: seq<Lock>, req: Lock, p: Pass)
    requires Canonical(g) && Tracks(g, req, p) && p.rest != [] && req.end == OFFSET_MAX
    requires forall i :: 0 <= i < |p.before| ==> Apart(p.before[i], p.c)
    requires p.rest[0].kind == req.kind && p.rest[0].end >= req.start - 1
    ensures Pure(p.rest, req.kind) <==> !Mixed(g, req)
  {
    if Mixed(g, req) {
      var i, j :| 0 <= i < j < |g| && g[i].kind == req.kind && g[i].end >= req.start - 1 && g[j].kind != req.kind;
      assert g[i] !in p.before;
      assert g[i] in p.rest;
      hide Canonical, Tracks;
      InRest(g, p.rest, i, j);
    }
    if !Pure(p.rest, req.kind) {
      var a :| 0 <= a < |p.rest| && p.rest[a].kind != req.kind;
      RestIn(g, p.rest, 0);
      RestIn(g, p.rest, a);
    }
  }

  lemma RestIn(g: seq<Lock>, rest: seq<Lock>, a: nat)
    requires Suffix(g, rest) && a < |rest|
    ensures rest[a] == g[|g| - |rest| + a]
  {
  }

  /** What is behind a lock that is still ahead is ahead as well. */
  lemma InRest(g: seq<Lock>, rest: seq<Lock>, i: nat, j: nat)
    requires Canonical(g) && Suffix(g, rest) && i < j < |g| && g[i] in rest
    ensures exists a :: 0 <= a < |rest| && rest[a] == g[j]
  {
    var n := |g| - |rest|;
    var a :| 0 <= a < |rest| && rest[a] == g[i];
    RestIn(g, rest, a);
    OnePlace(g, i, n + a);
    RestIn(g, rest, j - n);
  }

  lemma OnePlace(g: seq<Lock>, i: nat, j: nat)
    requires Canonical(g) && i < |g| && j < |g| && g[i] == g[j]
    ensures i == j
  {
  }

  /** What each part of the result covers when the end of the request wraps. */
  lemma WrapParts(p: Pass, x: int, k: Kind)
    requires Fits(p) && p.c.end == OFFSET_MAX && !p.c.kind.Unlock?
    ensures Has(Result(p, false), x, k) <==>
      || (x < p.c.start && (Has(p.before, x, k) || Has(p.left, x, k)))
      || (p.c.start <= x <= p.c.end && k == p.c.kind) || Has(p.rest, x, k)
    ensures Has(p.Olds(), x, k) <==> Has(p.before, x, k) || Has(p.left, x, k) || Has(p.rest, x, k)
  {
    hide Has, Canonical;
    HasConcat(Lower(p, false) + Own(p.c), Upper(p, false), x, k);
    HasConcat(Lower(p, false), Own(p.c), x, k);
    HasOne(p.c, x, k);
    assert Lower(p, false) == p.before + Cut(p.left, p.c);
    HasConcat(p.before, Cut(p.left, p.c), x, k);
    HasCut(p.left, p.c, x, k);
    HasNone(p.before, p.c, x, k);
    HasConcat(p.before + p.left, p.rest, x, k);
    HasConcat(p.before, p.left, x, k);
  }

  lemma HasBounds(g: seq<Lock>, x: int, k: Kind)
    requires Canonical(g) && Has(g, x, k)
    ensures x <= OFFSET_MAX
  {
  }

  /** The bytes are as asked for, wrap or not, unless a lock of another kind is never looked at. */
  lemma WrapBytes(g: seq<Lock>, req: Lock, p: Pass)
    requires Canonical(g) && Passing(g, req, p) && Tracks(g, req, p) && Stopped(p) && Wraps(g, req)
    ensures SticksOut(p) ==> p.rest != []
    ensures (forall x, k :: Has(Result(p, SticksOut(p)), x, k) <==> Target(g, req, x, k)) <==> !Mixed(g, req)
  {
    EndsOrWraps(g, req, p);
    RestAfter(p);
    hide Has, Target, Canonical, Result, Wraps;
    PureRest(g, req, p);
    if Pure(p.rest, req.kind) {
      forall x, k ensures Has(Result(p, false), x, k) <==> Target(g, req, x, k) {
        WrapParts(p, x, k);
        WrapByte(p, x, k);
      }
    } else {
      var a :| 0 <= a < |p.rest| && p.rest[a].kind != req.kind;
      var x, k := p.rest[a].start, p.rest[a].kind;
      WrapParts(p, x, k);
      RestHas(p, a);
      assert Has(Result(p, false), x, k) && !Target(g, req, x, k);
    }
  }

  lemma RestHas(p: Pass, a: nat)
    requires Canonical(p.Olds()) && 0 < a < |p.rest|
    ensures Has(p.rest, p.rest[a].start, p.rest[a].kind)
    ensures p.rest[0].end < p.rest[a].start <= OFFSET_MAX
  {
    RestAfter(p);
    assert p.Olds()[|p.before| + |p.left| + a] == p.rest[a];
    assert Covers(p.rest[a], p.rest[a].start, p.rest[a].kind);
  }

  lemma WrapByte(p: Pass, x: int, k: Kind)
    requires Canonical(p.Olds()) && Pure(p.rest, p.c.kind)
    ensures Has(p.rest, x, k) ==> k == p.c.kind
    ensures Has(p.Olds(), x, k) ==> x <= OFFSET_MAX
  {
    if Has(p.Olds(), x, k) { HasBounds(p.Olds(), x, k); }
  }

  /** On locks in order lock_it leaves them in order exactly when the end of the request does not wrap; it does what was
      asked for, byte by byte, exactly when nothing wraps or no lock of another kind is passed by; when it refuses it
      leaves them as they were. */
  lemma AfterExact(g: seq<Lock>, req: Lock, free: nat)
    requires Canonical(g) && InOrder(req) && AllSame(g, req)
    ensures NoUnlocks(g)
    ensures var s := Through(Start(g, req));
      && (Outcome(s, free).Invalid? <==> req.kind.Unlock? && !Touched(g, req))
      && (!Outcome(s, free).Done? ==> s.g == g)
      && (Outcome(s, free).Done? ==> (Canonical(Rebuilt(s)) <==> !Wraps(g, req)))
      && (Outcome(s, free).Done? ==>
          ((forall x, k :: Has(Rebuilt(s), x, k) <==> Target(g, req, x, k)) <==> !(Wraps(g, req) && Mixed(g, req))))
  {
    hide Passing, Tracks, Through, Canonical, Has, Target, Wraps, Rebuilt, Touched, Stopped, Result, Mixed;
    CanonicalIs(g, req);
    var s := Through(Start(g, req));
    var p := ThroughFollows(g, req, Start(g, req), Pass([], [], req, false, false, g));
    PlainFits(g, req, p);
    if req.kind.Unlock? { UnlockDone(g, req, p); }
    if Outcome(s, free).Done? {
      RebuiltIsResult(g, req, s, p);
      EndsOrWraps(g, req, p);
      if Wraps(g, req) {
        WrapsWrong(g, req, p);
        WrapBytes(g, req, p);
      } else {
        ResultGood(g, req, p, SticksOut(p));
      }
    }
  }
}

/** fcntl_setlk, fcntl_remove_locks and whole runs of them (fs/locks.c). */
module LockRuns {
  import opened Basics
  import opened LockRanges
  import opened LockScan
  import opened LockTable
  import opened Locks

  // ---------------------------------------------------------------- conflicts

  predicate Overlap(a: Lock, b: Lock) {
    a.end >= b.start && b.end >= a.start
  }

  predicate Conflict(caller: Lock, sys: Lock) {
    if caller.owner == sys.owner && caller.fd == sys.fd then false
    else if !(caller.end >= sys.start && sys.end >= caller.start) then false
    else match caller.kind
      case Read => !sys.kind.Read?
      case Write => true
      case Unlock => false
  }

  ghost predicate NoConflict(l: seq<Lock>, req: Lock) {
    forall i :: 0 <= i < |l| ==> !Conflict(req, l[i])
  }

  /** Another owner holds a byte of the range, and one of the two is for writing. */
  ghost predicate HeldAgainst(l: seq<Lock>, req: Lock) {
    exists o, x, k :: !Same(o, req) && req.start <= x <= req.end && Holds(l, o, x, k) && (k.Write? || req.kind.Write?)
  }

  /** The test of two ranges finds what a look at every byte would. */
  lemma ConflictBytes(l: seq<Lock>, req: Lock)
    requires ListOk(l) && InOrder(req) && !req.kind.Unlock?
    ensures NoConflict(l, req) <==> !HeldAgainst(l, req)
  {
    if HeldAgainst(l, req) {
      var o, x, k :| !Same(o, req) && req.start <= x <= req.end && Holds(l, o, x, k) && (k.Write? || req.kind.Write?);
      var i :| 0 <= i < |l| && Same(l[i], o) && Covers(l[i], x, k);
      assert Conflict(req, l[i]);
    }
    if !NoConflict(l, req) {
      var i :| 0 <= i < |l| && Conflict(req, l[i]);
      var x := Max(l[i].start, req.start);
      assert Covers(l[i], x, l[i].kind);
      assert Holds(l, l[i], x, l[i].kind);
    }
  }

  /** Locks of different owners that overlap are read locks. */
  ghost predicate Safe(l: seq<Lock>) {
    forall i, j :: 0 <= i < |l| && 0 <= j < |l| && !Same(l[i], l[j]) && Overlap(l[i], l[j]) ==>
      l[i].kind.Read? && l[j].kind.Read?
  }

  /** Bytes held by different owners are held for reading. */
  ghost predicate SafeBytes(l: seq<Lock>) {
    forall a, b, x, k, k' :: !Same(a, b) && Holds(l, a, x, k) && Holds(l, b, x, k') ==> k.Read? && k'.Read?
  }

  lemma SafePair(l: seq<Lock>, i: nat, j: nat)
    requires SafeBytes(l) && i < |l| && j < |l| && InOrder(l[i]) && InOrder(l[j]) && !Same(l[i], l[j])
    requires Overlap(l[i], l[j])
    ensures l[i].kind.Read? && l[j].kind.Read?
  {
    var x := Max(l[i].start, l[j].start);
    assert Covers(l[i], x, l[i].kind) && Covers(l[j], x, l[j].kind);
    assert Holds(l, l[i], x, l[i].kind) && Holds(l, l[j], x, l[j].kind);
  }

  lemma SafeByte(l: seq<Lock>, a: Lock, b: Lock, x: int, k: Kind, k': Kind)
    requires Safe(l) && !Same(a, b) && Holds(l, a, x, k) && Holds(l, b, x, k')
    ensures k.Read? && k'.Read?
  {
    var i :| 0 <= i < |l| && Same(l[i], a) && Covers(l[i], x, k);
    var j :| 0 <= j < |l| && Same(l[j], b) && Covers(l[j], x, k');
    assert Overlap(l[i], l[j]);
  }

  lemma SafeByBytes(l: seq<Lock>)
    requires ListOk(l)
    ensures Safe(l) <==> SafeBytes(l)
  {
    hide Holds;
    if SafeBytes(l) {
      forall i, j | 0 <= i < |l| && 0 <= j < |l| && !Same(l[i], l[j]) && Overlap(l[i], l[j])
        ensures l[i].kind.Read? && l[j].kind.Read?
      {
        SafePair(l, i, j);
      }
    }
    if Safe(l) {
      forall a, b, x, k, k' | !Same(a, b) && Holds(l, a, x, k) && Holds(l, b, x, k') ensures k.Read? && k'.Read? {
        SafeByte(l, a, b, x, k, k');
      }
    }
  }

  lemma HoldsByOwner(l: seq<Lock>, a: Lock, b: Lock, x: int, k: Kind)
    requires Same(a, b)
    ensures Holds(l, a, x, k) <==> Holds(l, b, x, k)
  {
  }

  /** The bytes after a request that was granted. */
  ghost predicate Applied(l: seq<Lock>, req: Lock, l': seq<Lock>) {
    && (forall x, k :: Holds(l', req, x, k) <==> Overwritten(l, req, x, k))
    && OthersHeld(l, req, l')
  }

  /** What other owners hold stays as it is. */
  ghost predicate OthersHeld(l: seq<Lock>, req: Lock, l': seq<Lock>) {
    forall o, x, k :: !Same(o, req) ==> (Holds(l', o, x, k) <==> Holds(l, o, x, k))
  }

  lemma GrantedPair(l: seq<Lock>, req: Lock, l': seq<Lock>, b: Lock, x: int, k: Kind, k': Kind)
    requires SafeBytes(l) && (req.kind.Unlock? || NoConflict(l, req)) && Contained(l, req, l') && OthersHeld(l, req, l')
    requires !Same(req, b) && Holds(l', req, x, k) && Holds(l', b, x, k')
    ensures k.Read? && k'.Read?
  {
    assert Holds(l, b, x, k');
    if !Holds(l, req, x, k) {
      var j :| 0 <= j < |l| && Same(l[j], b) && Covers(l[j], x, k');
      assert !Conflict(req, l[j]);
    }
  }

  /** A request that meets no conflict leaves the file safe, if it locks no byte it does not ask for. */
  lemma GrantedSafe(l: seq<Lock>, req: Lock, l': seq<Lock>)
    requires SafeBytes(l) && (req.kind.Unlock? || NoConflict(l, req)) && Contained(l, req, l') && OthersHeld(l, req, l')
    ensures SafeBytes(l')
  {
    hide Holds, Contained;
    forall a, b, x, k, k' | !Same(a, b) && Holds(l', a, x, k) && Holds(l', b, x, k') ensures k.Read? && k'.Read? {
      if Same(a, req) {
        HoldsByOwner(l', a, req, x, k);
        GrantedPair(l, req, l', b, x, k, k');
      } else if Same(b, req) {
        HoldsByOwner(l', b, req, x, k');
        GrantedPair(l, req, l', a, x, k', k);
      } else {
        assert Holds(l, a, x, k) && Holds(l, b, x, k');
      }
    }
  }

  // ---------------------------------------------------------------- fcntl_setlk

  datatype Outcome = Blocked | Answer(status: Status)

  /** One try at a lock: blocked by another owner (sleep, or EAGAIN), or the answer of lock_it. */
  method TryLock(t: Table, f: nat, req: Lock) returns (out: Outcome)
    requires t.Ok() && f in t.chains && InOrder(req) && Loose(t.List(f)) && SafeBytes(t.List(f))
    modifies t
    ensures t.Ok() && OthersSame(t, f) && Loose(t.List(f)) && SafeBytes(t.List(f))
    ensures out.Blocked? <==> !req.kind.Unlock? && !NoConflict(old(t.List(f)), req)
    ensures ListOk(old(t.List(f))) ==> (out.Blocked? <==> !req.kind.Unlock? && HeldAgainst(old(t.List(f)), req))
    ensures out.Blocked? ==> t.List(f) == old(t.List(f))
    ensures out.Answer? && out.status.NoLocks? && ListOk(old(t.List(f))) ==>
      TooFew(old(t.List(f)), req, |old(t.free)|)
    ensures OthersHeld(old(t.List(f)), req, t.List(f))
    ensures out.Answer? && ListOk(old(t.List(f))) ==> Exact(old(t.List(f)), req, out.status, t.List(f))
  {
    hide Holds, Placed, SafeBytes, ListOk, Exact, Contained, Loose, HeldAgainst, TooFew;
    if !req.kind.Unlock? {
      if ListOk(t.List(f)) { ConflictBytes(t.List(f), req); }
      var i := 0;
      while i < |t.chains[f]|
        invariant 0 <= i <= |t.chains[f]| == |t.List(f)| && t.List(f) == old(t.List(f)) && t.Ok() && OthersSame(t, f)
        invariant forall j :: 0 <= j < i ==> !Conflict(req, t.List(f)[j])
      {
        if Conflict(req, At(t.node, t.chains[f][i])) {
          assert At(t.node, t.chains[f][i]) == t.List(f)[i];
          return Blocked;
        }
        i := i + 1;
      }
    }
    var status := LockIt(t, f, req);
    out := Answer(status);
    GrantedSafe(old(t.List(f)), req, t.List(f));
  }

  // ---------------------------------------------------------------- fcntl_remove_locks

  /** The locks of all other owners, in order. */
  ghost function Without(l: seq<Lock>, who: Lock): seq<Lock> {
    if l == [] then [] else (if Same(l[0], who) then [] else [l[0]]) + Without(l[1..], who)
  }

  lemma {:induction false} WithoutConcat(a: seq<Lock>, b: seq<Lock>, who: Lock)
    ensures Without(a + b, who) == Without(a, who) + Without(b, who)
  {
    if a == [] {
      assert a + b == b;
    } else {
      assert (a + b)[1..] == a[1..] + b;
      WithoutConcat(a[1..], b, who);
    }
  }

  lemma {:induction false} WithoutNone(l: seq<Lock>, who: Lock)
    requires NoneSame(l, who)
    ensures Without(l, who) == l
  {
    if l != [] {
      assert l == [l[0]] + l[1..];
      WithoutNone(l[1..], who);
    }
  }

  lemma {:induction false} WithoutAll(l: seq<Lock>, who: Lock)
    requires AllSame(l, who)
    ensures Without(l, who) == []
  {
    if l != [] {
      WithoutAll(l[1..], who);
    }
  }

  lemma WithoutGroup(pre: seq<Lock>, g: seq<Lock>, post: seq<Lock>, who: Lock)
    requires Cuts(pre, g, post, who)
    ensures Without(pre + g + post, who) == pre + post
  {
    WithoutConcat(pre + g, post, who);
    WithoutConcat(pre, g, who);
    WithoutNone(pre, who);
    WithoutNone(post, who);
    WithoutAll(g, who);
  }

  lemma HoldsSub(pre: seq<Lock>, g: seq<Lock>, post: seq<Lock>, o: Lock, x: int, k: Kind)
    requires Holds(pre + post, o, x, k)
    ensures Holds(pre + g + post, o, x, k)
  {
    HoldsConcat(pre, post, o, x, k);
    HoldsConcat(pre + g, post, o, x, k);
    HoldsConcat(pre, g, o, x, k);
  }

  lemma SafeSub(pre: seq<Lock>, g: seq<Lock>, post: seq<Lock>)
    requires SafeBytes(pre + g + post)
    ensures SafeBytes(pre + post)
  {
    hide Holds;
    forall a, b, x, k, k' | !Same(a, b) && Holds(pre + post, a, x, k) && Holds(pre + post, b, x, k')
      ensures k.Read? && k'.Read?
    {
      HoldsSub(pre, g, post, a, x, k);
      HoldsSub(pre, g, post, b, x, k');
    }
  }

  lemma GroupAhead(pre: seq<Lock>, g: seq<Lock>, post: seq<Lock>, who: Lock, n: nat)
    requires Cuts(pre, g, post, who) && n <= |g|
    ensures var l := pre + g[n..] + post; n < |g| <==> |pre| < |l| && Same(l[|pre|], who)
    ensures n < |g| ==> |pre| < |pre + g[n..] + post| && Remove(pre + g[n..] + post, |pre|) == pre + g[n + 1..] + post
  {
    var l := pre + g[n..] + post;
    if n < |g| {
      assert l[|pre|] == g[n];
    } else if post != [] {
      assert l[|pre|] == post[0];
    }
  }

  /** The owner's locks freed one after the other. */
  method RemoveRun(t: Table, f: nat, who: Lock, b: nat, ghost pre: seq<Lock>, ghost g: seq<Lock>, ghost post: seq<Lock>)
    requires t.Ok() && f in t.chains && t.List(f) == pre + g + post && Cuts(pre, g, post, who) && b == |pre|
    modifies t
    ensures t.Ok() && f in t.chains && OthersSame(t, f) && t.List(f) == pre + post && |t.free| == |old(t.free)| + |g|
  {
    hide Placed, Values, Remove, Cuts, Chain, At;
    ghost var n := 0;
    ListLength(t, f);
    assert g[n..] == g;
    while b < |t.chains[f]| && Same(At(t.node, t.chains[f][b]), who)
      invariant t.Ok() && f in t.chains && OthersSame(t, f) && 0 <= n <= |g| && |t.List(f)| == |t.chains[f]|
      invariant t.List(f) == pre + g[n..] + post && |t.free| == |old(t.free)| + n
      decreases |t.chains[f]|
    {
      ElementAt(t, f, b);
      GroupAhead(pre, g, post, who, n);
      t.FreeLock(f, b);
      ListLength(t, f);
      n := n + 1;
    }
    if b < |t.chains[f]| { ElementAt(t, f, b); }
    GroupAhead(pre, g, post, who, n);
    assert pre + g[n..] + post == pre + post;
  }

  lemma ElementAt(t: Table, f: nat, b: nat)
    requires f in t.chains && b < |t.chains[f]|
    ensures b < |t.List(f)| && t.List(f)[b] == At(t.node, t.chains[f][b])
  {
  }

  lemma NothingBounded()
    ensures AllBounded([]) && Canonical([])
  {
  }

  /** fcntl_remove_locks: every lock of the owner and descriptor goes, and no other. */
  method RemoveLocks(t: Table, f: nat, who: Lock)
    requires t.Ok() && f in t.chains && Loose(t.List(f)) && SafeBytes(t.List(f))
    modifies t
    ensures t.Ok() && OthersSame(t, f) && Loose(t.List(f)) && SafeBytes(t.List(f))
    ensures t.List(f) == Without(old(t.List(f)), who) && (ListOk(old(t.List(f))) ==> ListOk(t.List(f)))
    ensures |t.free| == |old(t.free)| + |old(t.List(f))| - |t.List(f)|
  {
    hide Placed, ListOk, Canonical, SafeBytes, Without, Values, Remove, AllBounded;
    var b := FindOwner(t, f, who);
    ghost var l := t.List(f);
    ghost var e := RunEnd(l, who, b);
    ghost var pre, g, post := l[..b], l[b..e], l[e..];
    CutsAt(l, who, b);
    RemoveRun(t, f, who, b, pre, g, post);
    assert pre + [] + post == pre + post;
    WithoutGroup(pre, g, post, who);
    NothingBounded();
    RejoinLoose(pre, g, post, [], who);
    if ListOk(l) { Rejoin(pre, g, post, [], who); }
    SafeSub(pre, g, post);
  }

  // ---------------------------------------------------------------- arguments

  datatype LType = RdLck | WrLck | UnLck | ShLck | ExLck | OtherType

  /** What the caller of fcntl passes, with the state of the open file it names. */
  datatype Flock = Flock(
    ltype: LType, whence: nat, start: int, len: int, pos: int, size: int, regular: bool, reading: bool, writing: bool)

  /** A 32-bit sum that passes the largest offset comes out negative. */
  function Sum32(a: int, b: int): int
    requires 0 <= a <= OFFSET_MAX && b <= OFFSET_MAX
  {
    if a + b > OFFSET_MAX then a + b - 2 * (OFFSET_MAX + 1) else a + b
  }

  datatype Parsed = Rejected(badFile: bool) | Request(kind: Kind, start: int, end: int)

  /** copy_flock and the checks of fcntl_setlk. */
  function Parse(l: Flock): (r: Parsed)
    requires 0 <= l.pos <= OFFSET_MAX && 0 <= l.size <= OFFSET_MAX && l.start <= OFFSET_MAX && l.len <= OFFSET_MAX
    ensures r.Request? ==> 0 <= r.start <= r.end <= OFFSET_MAX
    ensures r.Request? ==> forall x :: Asked(l, x) <==> r.start <= x <= r.end
    ensures r == Rejected(false) <==>
        !l.regular || l.ltype.OtherType? || l.whence > 2 || l.len < 0 || !(0 <= Base(l) + l.start <= OFFSET_MAX)
    ensures r.Request? && r.kind.Write? && l.ltype.WrLck? ==> l.writing
    ensures r.Request? && r.kind.Read? && l.ltype.RdLck? ==> l.reading
    ensures r.Request? ==> (r.kind.Read? <==> l.ltype.RdLck? || l.ltype.ShLck?) && (r.kind.Unlock? <==> l.ltype.UnLck?)
  {
    if !l.regular || l.ltype.OtherType? || l.whence > 2 then Rejected(false)
    else
      var start := Sum32(if l.whence == 0 then 0 else if l.whence == 1 then l.pos else l.size, l.start);
      if start < 0 || l.len < 0 then Rejected(false)
      else
        var end := if l.len == 0 || Sum32(start, l.len - 1) < 0 then OFFSET_MAX else Sum32(start, l.len - 1);
        match l.ltype
        case RdLck => if l.reading then Request(Read, start, end) else Rejected(true)
        case WrLck => if l.writing then Request(Write, start, end) else Rejected(true)
        case ShLck => if l.reading || l.writing then Request(Read, start, end) else Rejected(true)
        case ExLck => if l.reading || l.writing then Request(Write, start, end) else Rejected(true)
        case UnLck => Request(Unlock, start, end)
  }

  /** Byte `x` is in the range asked for; length 0 means to the end of all files. */
  predicate Asked(l: Flock, x: int) {
    Base(l) + l.start <= x <= OFFSET_MAX && (l.len == 0 || x < Base(l) + l.start + l.len)
  }

  function Base(l: Flock): int {
    if l.whence == 0 then 0 else if l.whence == 1 then l.pos else l.size
  }

  // ---------------------------------------------------------------- runs

  /** A try at a lock by a process, or the close of a descriptor. */
  datatype Op = Set(file: nat, req: Lock) | Close(file: nat, who: Lock)

  /** On every file of the table locks stand in groups, and no two owners hold a byte unless both for reading. */
  ghost predicate AllSafe(t: Table)
    reads t
  {
    t.Ok() && forall f :: f in t.chains ==> Loose(t.List(f)) && SafeBytes(t.List(f))
  }

  /** On every file the locks of each owner are sorted, disjoint and merged. */
  ghost predicate AllOrdered(t: Table)
    reads t
  {
    forall f :: f in t.chains ==> ListOk(t.List(f))
  }

  ghost predicate InTable(t: Table, op: Op)
    reads t
  {
    op.file in t.chains && (op.Set? ==> InOrder(op.req))
  }

  /** The request would be granted by lock_it and wraps. */
  predicate Astray(l: seq<Lock>, op: Op) {
    op.Set? && WrapsAt(l, op.req)
  }

  /** Another owner is in the way, or there is nothing to unlock. */
  ghost predicate Refused(l: seq<Lock>, req: Lock) {
    if req.kind.Unlock? then !AnyHeld(l, req) else HeldAgainst(l, req)
  }

  /** What an operation leaves on a file whose locks are in order, when `free` nodes are left. */
  ghost predicate StepExact(l: seq<Lock>, op: Op, free: nat, l': seq<Lock>) {
    match op
    case Close(_, who) => l' == Without(l, who) && ListOk(l')
    case Set(_, req) =>
      if Refused(l, req) then l' == l
      else (TooFew(l, req, free) && l' == l) || (WrapsAt(l, req) && !ListOk(l')) || (Applied(l, req, l') && ListOk(l'))
  }

  /** One operation keeps every file safe, and does exactly what it should to a file in order. */
  method Step(t: Table, op: Op)
    requires AllSafe(t) && InTable(t, op)
    modifies t
    ensures AllSafe(t) && OthersSame(t, op.file)
    ensures ListOk(old(t.List(op.file))) ==> StepExact(old(t.List(op.file)), op, |old(t.free)|, t.List(op.file))
  {
    hide HeldAgainst, AnyHeld, TooFew, ListOk, SafeBytes, Loose, Placed, WrapsAt, Without, Values, Applied;
    match op {
      case Set(f, req) =>
        var out := TryLock(t, f, req);
        if out.Answer? && ListOk(old(t.List(f))) { ExactApplied(old(t.List(f)), req, out.status, t.List(f)); }
      case Close(f, who) => RemoveLocks(t, f, who);
    }
    assert forall h: nat :: h != op.file ==> t.List(h) == old(t.List(h));
  }

  lemma ExactApplied(l: seq<Lock>, req: Lock, err: Status, l': seq<Lock>)
    requires Exact(l, req, err, l') && OthersHeld(l, req, l')
    ensures err.Invalid? <==> req.kind.Unlock? && !AnyHeld(l, req)
    ensures !err.Done? ==> l' == l
    ensures err.Done? ==> (WrapsAt(l, req) && !ListOk(l')) || (Applied(l, req, l') && ListOk(l'))
  {
  }

  /** Any run of tries and closes keeps every file safe; it keeps them in order too up to the first request that wraps,
      the `n`th, made when the locks of its file were `l`. */
  method Run(t: Table, ops: seq<Op>) returns (ghost n: nat, ghost l: seq<Lock>)
    requires AllSafe(t) && AllOrdered(t) && forall k :: 0 <= k < |ops| ==> InTable(t, ops[k])
    modifies t
    ensures AllSafe(t) && |t.node| == |old(t.node)| && n <= |ops|
    ensures n == |ops| ==> AllOrdered(t)
    ensures n < |ops| ==> ListOk(l) && Astray(l, ops[n])
  {
    hide ListOk, SafeBytes, Loose, Placed, WrapsAt, Without, Applied;
    n, l := 0, [];
    var k := 0;
    while k < |ops|
      invariant 0 <= k <= |ops| && AllSafe(t) && |t.node| == |old(t.node)| && t.chains.Keys == old(t.chains).Keys
      invariant n <= k && (n == k ==> AllOrdered(t)) && (n < k ==> ListOk(l) && Astray(l, ops[n]))
    {
      assert InTable(t, ops[k]);
      ghost var was := t.List(ops[k].file);
      ghost var ordered := n == k;
      Step(t, ops[k]);
      if ordered {
        if ListOk(t.List(ops[k].file)) { n := k + 1; } else { l := was; }
      }
      k := k + 1;
    }
  }

  /** A table without locks is safe and in order. */
  lemma NoLocksSafe(t: Table)
    requires t.Ok() && forall f :: f in t.chains ==> t.List(f) == []
    ensures AllSafe(t) && AllOrdered(t)
  {
  }

  /** The same of every run from the start of the system. */
  method RunFromBoot(files: set<nat>, ops: seq<Op>) returns (t: Table, ghost n: nat, ghost l: seq<Lock>)
    requires forall k :: 0 <= k < |ops| ==> ops[k].file in files && (ops[k].Set? ==> InOrder(ops[k].req))
    ensures AllSafe(t) && |t.node| == NR_FILE_LOCKS && n <= |ops|
    ensures n == |ops| ==> AllOrdered(t)
    ensures n < |ops| ==> ListOk(l) && Astray(l, ops[n])
  {
    hide ListOk, SafeBytes, Loose, Placed, WrapsAt;
    t := new Table(files);
    NoLocksSafe(t);
    n, l := Run(t, ops);
  }
}

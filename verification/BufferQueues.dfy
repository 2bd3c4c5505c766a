/** Buffers on the free list and on their hash chains, kept together (fs/buffer.c). */
module BufferQueues {
  import opened Basics
  import opened BufferLinks

  /** A buffer head, without its links. */
  datatype Info = Info(dev: int, block: int, size: int, count: nat, dirt: bool, lock: bool, uptodate: bool, page: nat)

  /** All buffer heads in use with their links, the hash table and the free list pointer. */
  datatype Queues = Queues(info: map<int, Info>, nf: Links, pf: Links, nx: Links, pv: Links, heads: Links, first: int)

  type Hash = (int, int) -> int

  /** The lists the links stand for. */
  datatype Lists = Lists(ring: seq<int>, chains: map<int, seq<int>>)

  function HeadOf(heads: Links, h: int): int {
    if h in heads then heads[h] else NULL
  }

  function ChainOf(chains: map<int, seq<int>>, h: int): seq<int> {
    if h in chains then chains[h] else []
  }

  /** Every buffer is on the ring once. */
  ghost predicate RingOk(q: Queues, l: Lists) {
    Ring(q.nf, q.pf, q.first, l.ring) && forall b :: b in q.info <==> b in l.ring
  }

  function HashOf(hash: Hash, i: Info): int {
    hash(i.dev, i.block)
  }

  /** Chain `h` holds buffers of hash value `h` only. */
  ghost predicate ChainOk(q: Queues, l: Lists, hash: Hash, h: int) {
    && Chain(q.nx, q.pv, HeadOf(q.heads, h), ChainOf(l.chains, h))
    && forall b :: b in ChainOf(l.chains, h) ==> b in q.info && q.info[b].dev != 0 && HashOf(hash, q.info[b]) == h
  }

  /** A buffer with a device is on the chain of its hash value; one without is on none. */
  ghost predicate Filed(q: Queues, l: Lists, hash: Hash, b: int)
    requires b in q.info
  {
    if q.info[b].dev != 0 then b in ChainOf(l.chains, HashOf(hash, q.info[b]))
    else b in q.nx && b in q.pv && q.nx[b] == NULL && q.pv[b] == NULL
  }

  ghost predicate Ok(q: Queues, l: Lists, hash: Hash) {
    && RingOk(q, l)
    && (forall h :: ChainOk(q, l, hash, h))
    && (forall b :: b in q.info ==> Filed(q, l, hash, b))
  }

  // ---------------------------------------------------------------- taking a buffer off its queues

  function Index(s: seq<int>, b: int): nat
    requires b in s
    ensures Index(s, b) < |s| && s[Index(s, b)] == b
  {
    if s[0] == b then 0 else 1 + Index(s[1..], b)
  }

  function Without(s: seq<int>, b: int): seq<int> {
    if b in s then Remove(s, Index(s, b)) else s
  }

  lemma WithoutIn(s: seq<int>, b: int)
    requires Distinct(s)
    ensures Distinct(Without(s, b)) && forall x :: x in Without(s, b) <==> x in s && x != b
    ensures |Without(s, b)| == |s| - if b in s then 1 else 0
  {
    if b in s { RemoveIn(s, Index(s, b)); }
  }

  predicate CanTake(q: Queues, b: int) {
    b in q.info && b in q.nf && b in q.pf && b in q.nx && b in q.pv
  }

  /** remove_from_queues: both lists closed around `b`. */
  function TakeOut(q: Queues, hash: Hash, b: int): Queues
    requires CanTake(q, b)
  {
    var h := HashOf(hash, q.info[b]);
    Queues(q.info - {b}, Unlinked(q.nf, q.pf, b), Unlinked(q.pf, q.nf, b),
           Skipped(q.nx, q.pv, b), Skipped(q.pv, q.nx, b),
           if HeadOf(q.heads, h) == b then q.heads[h := q.nx[b]] else q.heads, if q.first == b then q.nf[b]
               else q.first)
  }

  function TakeOutLists(q: Queues, l: Lists, hash: Hash, b: int): Lists
    requires b in q.info
  {
    var h := HashOf(hash, q.info[b]);
    Lists(Without(l.ring, b), l.chains[h := Without(ChainOf(l.chains, h), b)])
  }

  lemma LinksThere(q: Queues, l: Lists, hash: Hash, b: int)
    requires Ok(q, l, hash) && b in q.info
    ensures CanTake(q, b) && b in l.ring && b != NULL
  {
    assert RingAt(q.nf, q.pf, l.ring, Index(l.ring, b));
    assert Filed(q, l, hash, b);
    if q.info[b].dev != 0 {
      var h := HashOf(hash, q.info[b]);
      assert ChainOk(q, l, hash, h);
      assert ChainAt(q.nx, q.pv, ChainOf(l.chains, h), Index(ChainOf(l.chains, h), b));
    }
  }

  lemma TakeOutRing(q: Queues, l: Lists, hash: Hash, b: int)
    requires Ok(q, l, hash) && CanTake(q, b) && |l.ring| >= 2
    ensures RingOk(TakeOut(q, hash, b), TakeOutLists(q, l, hash, b))
  {
    hide Ok, ChainOk, Filed;
    RingPart(q, l, hash);
    Unlink(q.nf, q.pf, q.first, l.ring, Index(l.ring, b));
    WithoutIn(l.ring, b);
  }

  lemma RingPart(q: Queues, l: Lists, hash: Hash)
    requires Ok(q, l, hash)
    ensures RingOk(q, l) && forall h :: ChainOk(q, l, hash, h)
    ensures forall b :: b in q.info ==> Filed(q, l, hash, b)
  {
  }

  /** The chain that `b` was on. */
  lemma TakeOutOwnChain(q: Queues, l: Lists, hash: Hash, b: int)
    requires Ok(q, l, hash) && CanTake(q, b)
    ensures ChainOk(TakeOut(q, hash, b), TakeOutLists(q, l, hash, b), hash, HashOf(hash, q.info[b]))
  {
    hide Ring, Ok, RingOk, Index;
    RingPart(q, l, hash);
    var h := HashOf(hash, q.info[b]);
    var c := ChainOf(l.chains, h);
    assert ChainOk(q, l, hash, h) && Filed(q, l, hash, b);
    WithoutIn(c, b);
    if b in c {
      Skip(q.nx, q.pv, HeadOf(q.heads, h), c, Index(c, b));
    } else {
      ChainKept(q.nx, q.pv, Skipped(q.nx, q.pv, b), Skipped(q.pv, q.nx, b), HeadOf(q.heads, h), c);
      assert c != [] ==> c[0] in c;
    }
  }

  lemma TakeOutOtherChain(q: Queues, l: Lists, hash: Hash, b: int, h: int)
    requires Ok(q, l, hash) && CanTake(q, b) && h != HashOf(hash, q.info[b])
    ensures ChainOk(TakeOut(q, hash, b), TakeOutLists(q, l, hash, b), hash, h)
  {
    hide Ring, Ok, RingOk, Index;
    RingPart(q, l, hash);
    var h0 := HashOf(hash, q.info[b]);
    var c0, c := ChainOf(l.chains, h0), ChainOf(l.chains, h);
    assert ChainOk(q, l, hash, h0) && ChainOk(q, l, hash, h) && Filed(q, l, hash, b);
    assert forall x :: x in c ==> x !in c0 && x != b;
    if b in c0 { NeighboursIn(q.nx, q.pv, HeadOf(q.heads, h0), c0, b); }
    ChainKept(q.nx, q.pv, Skipped(q.nx, q.pv, b), Skipped(q.pv, q.nx, b), HeadOf(q.heads, h), c);
  }

  /** The neighbours of a buffer on a chain are on it too. */
  lemma NeighboursIn(nx: Links, pv: Links, head: int, c: seq<int>, b: int)
    requires Chain(nx, pv, head, c) && b in c && b in nx && b in pv
    ensures nx[b] == NULL || nx[b] in c
    ensures pv[b] == NULL || pv[b] in c
  {
    assert ChainAt(nx, pv, c, Index(c, b));
  }

  lemma TakeOutFiled(q: Queues, l: Lists, hash: Hash, b: int, x: int)
    requires Ok(q, l, hash) && CanTake(q, b) && x in q.info && x != b
    ensures Filed(TakeOut(q, hash, b), TakeOutLists(q, l, hash, b), hash, x)
  {
    hide Ring, Ok, RingOk, Index;
    RingPart(q, l, hash);
    var h0 := HashOf(hash, q.info[b]);
    var c0 := ChainOf(l.chains, h0);
    assert ChainOk(q, l, hash, h0) && Filed(q, l, hash, b) && Filed(q, l, hash, x);
    WithoutIn(c0, b);
    if b in c0 { NeighboursIn(q.nx, q.pv, HeadOf(q.heads, h0), c0, b); }
    assert x in c0 ==> q.info[x].dev != 0;
  }

  /** A buffer taken off its queues leaves the others in order. */
  lemma TakeOutOk(q: Queues, l: Lists, hash: Hash, b: int)
    requires Ok(q, l, hash) && b in q.info && |l.ring| >= 2
    ensures CanTake(q, b) && Ok(TakeOut(q, hash, b), TakeOutLists(q, l, hash, b), hash)
  {
    LinksThere(q, l, hash, b);
    hide RingOk, ChainOk, Filed, TakeOutLists;
    TakeOutRing(q, l, hash, b);
    forall h ensures ChainOk(TakeOut(q, hash, b), TakeOutLists(q, l, hash, b), hash, h) {
      if h == HashOf(hash, q.info[b]) { TakeOutOwnChain(q, l, hash, b); } else { TakeOutOtherChain(q, l, hash, b, h); }
    }
    forall x | x in TakeOut(q, hash, b).info ensures Filed(TakeOut(q, hash, b), TakeOutLists(q, l, hash, b), hash, x) {
      TakeOutFiled(q, l, hash, b, x);
    }
  }

  // ---------------------------------------------------------------- putting a buffer on

  predicate CanPut(q: Queues, b: int) {
    b !in q.info && b != NULL && q.first in q.pf
  }

  /** insert_into_queues: last on the free list, and first on its chain if it has a device. */
  function PutIn(q: Queues, hash: Hash, b: int, i: Info): Queues
    requires CanPut(q, b)
  {
    var h := HashOf(hash, i);
    var head := HeadOf(q.heads, h);
    Queues(q.info[b := i], q.nf[b := q.first][q.pf[q.first] := b], q.pf[b := q.pf[q.first]][q.first := b],
           if i.dev == 0 then q.nx[b := NULL] else q.nx[b := head],
           if i.dev == 0 || head == NULL then q.pv[b := NULL] else q.pv[b := NULL][head := b],
           if i.dev == 0 then q.heads else q.heads[h := b], q.first)
  }

  function PutInLists(l: Lists, hash: Hash, b: int, i: Info): Lists {
    var h := HashOf(hash, i);
    Lists(l.ring + [b], if i.dev == 0 then l.chains else l.chains[h := [b] + ChainOf(l.chains, h)])
  }

  lemma PutInRing(q: Queues, l: Lists, hash: Hash, b: int, i: Info)
    requires RingOk(q, l) && CanPut(q, b) && l.ring != []
    ensures RingOk(PutIn(q, hash, b, i), PutInLists(l, hash, b, i))
  {
    Link(q.nf, q.pf, q.first, l.ring, b);
  }

  lemma PutInChain(q: Queues, l: Lists, hash: Hash, b: int, i: Info, h: int)
    requires Ok(q, l, hash) && CanPut(q, b)
    ensures ChainOk(PutIn(q, hash, b, i), PutInLists(l, hash, b, i), hash, h)
  {
    hide Ring, Ok, RingOk, Filed;
    RingPart(q, l, hash);
    var h0 := HashOf(hash, i);
    var c0, c := ChainOf(l.chains, h0), ChainOf(l.chains, h);
    assert ChainOk(q, l, hash, h0) && ChainOk(q, l, hash, h);
    if i.dev != 0 && h == h0 {
      Push(q.nx, q.pv, HeadOf(q.heads, h), c, b);
    } else {
      assert HeadOf(q.heads, h0) == NULL || HeadOf(q.heads, h0) in c0;
      assert h != h0 ==> forall x :: x in c ==> x !in c0;
      ChainKept(q.nx, q.pv, PutIn(q, hash, b, i).nx, PutIn(q, hash, b, i).pv, HeadOf(q.heads, h), c);
    }
  }

  lemma PutInFiled(q: Queues, l: Lists, hash: Hash, b: int, i: Info, x: int)
    requires Ok(q, l, hash) && CanPut(q, b) && (x in q.info || x == b)
    ensures Filed(PutIn(q, hash, b, i), PutInLists(l, hash, b, i), hash, x)
  {
    hide Ring, Ok, RingOk;
    RingPart(q, l, hash);
    var h0 := HashOf(hash, i);
    assert ChainOk(q, l, hash, h0);
    assert HeadOf(q.heads, h0) == NULL || HeadOf(q.heads, h0) in ChainOf(l.chains, h0);
    if x != b { assert Filed(q, l, hash, x); }
  }

  lemma PutInOk(q: Queues, l: Lists, hash: Hash, b: int, i: Info)
    requires Ok(q, l, hash) && b !in q.info && b != NULL && l.ring != []
    ensures CanPut(q, b) && Ok(PutIn(q, hash, b, i), PutInLists(l, hash, b, i), hash)
  {
    hide ChainOk, Filed, PutInLists;
    assert RingAt(q.nf, q.pf, l.ring, 0);
    PutInRing(q, l, hash, b, i);
    forall h
      ensures ChainOk(PutIn(q, hash, b, i), PutInLists(l, hash, b, i), hash, h)
    {
      PutInChain(q, l, hash, b, i, h);
    }
    forall x | x in PutIn(q, hash, b, i).info ensures Filed(PutIn(q, hash, b, i), PutInLists(l, hash, b, i), hash, x) {
      PutInFiled(q, l, hash, b, i, x);
    }
  }

  /** Only the free list and the contents that play no part in hashing differ. */
  lemma ChainsKept(q: Queues, l: Lists, q': Queues, l': Lists, hash: Hash)
    requires Ok(q, l, hash) && RingOk(q', l') && q'.nx == q.nx && q'.pv == q.pv && q'.heads == q.heads
    requires l'.chains == l.chains
    requires q'.info.Keys == q.info.Keys
    requires forall b :: b in q.info ==> q'.info[b].dev == q.info[b].dev && q'.info[b].block == q.info[b].block
    ensures Ok(q', l', hash)
  {
    hide Ring, RingOk;
    forall h ensures ChainOk(q', l', hash, h) { assert ChainOk(q, l, hash, h); }
    forall b | b in q'.info ensures Filed(q', l', hash, b) { assert Filed(q, l, hash, b); }
  }

  /** put_last_free. */
  function PutLast(q: Queues, b: int): Queues
    requires b in q.nf && b in q.pf && (q.first != b ==> q.first in Unlinked(q.pf, q.nf, b))
  {
    if b == q.first then q.(first := q.nf[b])
    else
      var nf, pf := Unlinked(q.nf, q.pf, b), Unlinked(q.pf, q.nf, b);
      q.(nf := nf[b := q.first][pf[q.first] := b], pf := pf[b := pf[q.first]][q.first := b])
  }

  lemma PutLastRing(q: Queues, r: seq<int>, b: int)
    requires Ring(q.nf, q.pf, q.first, r) && b in r && b in q.nf && b in q.pf
    ensures q.first != b ==> q.first in Unlinked(q.pf, q.nf, b)
    ensures Ring(PutLast(q, b).nf, PutLast(q, b).pf, PutLast(q, b).first, Without(r, b) + [b])
  {
    hide Index, RingAt;
    var k := Index(r, b);
    if b == q.first {
      Rotate(q.nf, q.pf, q.first, r);
      FirstIndex(r);
    } else {
      Unlink(q.nf, q.pf, q.first, r, k);
      RemoveIn(r, k);
      Link(Unlinked(q.nf, q.pf, b), Unlinked(q.pf, q.nf, b), q.first, Remove(r, k), b);
    }
  }

  lemma PutLastOk(q: Queues, l: Lists, hash: Hash, b: int)
    requires Ok(q, l, hash) && b in q.info
    ensures b in q.nf && b in q.pf && (q.first != b ==> q.first in Unlinked(q.pf, q.nf, b))
    ensures Ok(PutLast(q, b), l.(ring := Without(l.ring, b) + [b]), hash)
  {
    LinksThere(q, l, hash, b);
    hide Ok, ChainOk, Filed, Without, Ring;
    RingPart(q, l, hash);
    PutLastRing(q, l.ring, b);
    RingDistinct(q, l);
    WithoutIn(l.ring, b);
    ChainsKept(q, l, PutLast(q, b), l.(ring := Without(l.ring, b) + [b]), hash);
  }

  lemma RingDistinct(q: Queues, l: Lists)
    requires RingOk(q, l)
    ensures Distinct(l.ring) && NULL !in l.ring
  {
  }

  lemma FirstIndex(r: seq<int>)
    requires r != []
    ensures Index(r, r[0]) == 0 && Without(r, r[0]) == r[1..]
  {
  }

  /** A new buffer without a device in front of the free list, as grow_buffers puts it. */
  function Grown(q: Queues, b: int, i: Info): Queues
    requires q.first != NULL ==> q.first in q.pf
  {
    var q1 := q.(info := q.info[b := i], nx := q.nx[b := NULL], pv := q.pv[b := NULL], first := b);
    if q.first == NULL then q1.(nf := q.nf[b := b], pf := q.pf[b := b])
    else q1.(nf := q.nf[b := q.first][q.pf[q.first] := b], pf := q.pf[b := q.pf[q.first]][q.first := b])
  }

  lemma GrownOk(q: Queues, l: Lists, hash: Hash, b: int, i: Info)
    requires Ok(q, l, hash) && b !in q.info && b != NULL && i.dev == 0
    ensures q.first != NULL ==> q.first in q.pf
    ensures Ok(Grown(q, b, i), l.(ring := [b] + l.ring), hash)
  {
    if l.ring == [] {
      Alone(q.nf, q.pf, b);
      GrownChains(q, l, hash, b, i);
    } else {
      assert RingAt(q.nf, q.pf, l.ring, 0) && q.first in l.ring;
      Link(q.nf, q.pf, q.first, l.ring, b);
      RotateBack(q.nf[b := q.first][q.pf[q.first] := b], q.pf[b := q.pf[q.first]][q.first := b], q.first, l.ring + [b]);
      assert (l.ring + [b])[..|l.ring|] == l.ring;
      GrownChains(q, l, hash, b, i);
    }
  }

  lemma GrownChains(q: Queues, l: Lists, hash: Hash, b: int, i: Info)
    requires Ok(q, l, hash) && b !in q.info && i.dev == 0 && (q.first != NULL ==> q.first in q.pf)
    ensures forall h :: ChainOk(Grown(q, b, i), l.(ring := [b] + l.ring), hash, h)
    ensures forall x :: x in Grown(q, b, i).info ==> Filed(Grown(q, b, i), l.(ring := [b] + l.ring), hash, x)
  {
    hide Ring, RingOk;
    var q', l' := Grown(q, b, i), l.(ring := [b] + l.ring);
    forall h ensures ChainOk(q', l', hash, h) {
      assert ChainOk(q, l, hash, h);
      ChainKept(q.nx, q.pv, q'.nx, q'.pv, HeadOf(q.heads, h), ChainOf(l.chains, h));
    }
    forall x | x in q'.info ensures Filed(q', l', hash, x) {
      if x != b { assert Filed(q, l, hash, x); }
    }
  }
}

/** The buffer cache under any interleaving at its sleep points (fs/buffer.c). */
module BufferCache {
  import opened Basics
  import opened BufferLinks
  import opened BufferQueues

  /** A buffer with a device holds this block. */
  ghost predicate Cached(info: map<int, Info>, dev: int, block: int) {
    exists b :: b in info && info[b].dev == dev != 0 && info[b].block == block
  }

  /** At most one buffer for each block of a device. */
  ghost predicate Unique(info: map<int, Info>) {
    forall b, c :: b in info && c in info ==>
      info[b].dev != 0 && info[b].dev == info[c].dev && info[b].block == info[c].block ==> b == c
  }

  /** Each device has one block size. */
  ghost predicate Sized(info: map<int, Info>, sizeOf: int -> int) {
    forall b :: b in info && info[b].dev != 0 ==> info[b].size == sizeOf(info[b].dev)
  }

  // ---------------------------------------------------------------- processes and the buffers they hold

  /** Where a process stands: in getblk before a look-up, asleep on a hit, before a scan, asleep on a victim,
      asleep for buffers, holding a buffer, asleep before letting it go. */
  datatype Pc = Start | WaitHit | Scan | WaitVictim | Starved | Done | Releasing

  /** `hold` is the buffer counted for the process itself, `wait` the one counted while it sleeps. */
  datatype Proc = Proc(pc: Pc, dev: int, block: int, hold: int, wait: int)

  type Procs = map<nat, Proc>

  function Claim(procs: Procs, pid: nat, slot: nat): int {
    if pid in procs && slot < 2 then (if slot == 0 then procs[pid].hold else procs[pid].wait) else NULL
  }

  /** The claims on a buffer. */
  ghost function Holders(procs: Procs, b: int): set<(nat, nat)> {
    set pid: nat, slot: nat | pid in procs && slot < 2 && Claim(procs, pid, slot) == b :: (pid, slot)
  }

  /** Each process sleeps or holds as its place says. */
  predicate PcOk(p: Proc) {
    match p.pc
    case Start => p.hold == p.wait == NULL
    case WaitHit => p.hold == p.wait != NULL
    case Scan => p.hold == p.wait == NULL
    case WaitVictim => p.hold == NULL && p.wait != NULL
    case Starved => p.hold == p.wait == NULL
    case Done => p.hold != NULL && p.wait == NULL
    case Releasing => p.hold == p.wait != NULL
  }

  /** The use count of each buffer is the number of claims on it. */
  ghost predicate Counted(info: map<int, Info>, procs: Procs) {
    && (forall b :: b in info ==> info[b].count == |Holders(procs, b)|)
    && (forall pid: nat, slot: nat :: Claim(procs, pid, slot) != NULL ==> Claim(procs, pid, slot) in info)
    && (forall pid :: pid in procs ==> PcOk(procs[pid]))
  }

  lemma HoldersIn(procs: Procs, b: int, pid: nat, slot: nat)
    ensures (pid, slot) in Holders(procs, b) <==> pid in procs && slot < 2 && Claim(procs, pid, slot) == b
  {
  }

  /** One claim changed. */
  lemma ClaimChanged(procs: Procs, procs': Procs, pid: nat, slot: nat, b: int)
    requires b != NULL && slot < 2
    requires forall p: nat, s: nat :: (p, s) != (pid, slot) ==> Claim(procs', p, s) == Claim(procs, p, s)
    ensures |Holders(procs', b)| - |Holders(procs, b)|
         == One(Claim(procs', pid, slot) == b) - One(Claim(procs, pid, slot) == b)
  {
    hide Holders;
    var r, r' := Holders(procs, b), Holders(procs', b);
    HoldersIn(procs, b, pid, slot);
    forall p: nat, s: nat
      ensures (p, s) in r' <==> if (p, s) == (pid, slot) then Claim(procs', pid, slot) == b else (p, s) in r
    {
      HoldersIn(procs, b, p, s);
      HoldersIn(procs', b, p, s);
    }
    PairsOnly(r, r', (pid, slot), Claim(procs', pid, slot) == b);
  }

  /** A claimed buffer has a use count. */
  lemma ClaimCounts(procs: Procs, pid: nat, slot: nat)
    requires Claim(procs, pid, slot) != NULL
    ensures |Holders(procs, Claim(procs, pid, slot))| >= 1
  {
    HoldersIn(procs, Claim(procs, pid, slot), pid, slot);
    assert Holders(procs, Claim(procs, pid, slot)) != {};
  }

  /** How much the claims of one process change the count of a buffer. */
  function Delta(procs: Procs, procs': Procs, pid: nat, b: int): int {
    One(Claim(procs', pid, 0) == b) - One(Claim(procs, pid, 0) == b)
    + One(Claim(procs', pid, 1) == b) - One(Claim(procs, pid, 1) == b)
  }

  /** Only process `pid` has moved. */
  ghost predicate OnlyMoves(procs: Procs, procs': Procs, pid: nat) {
    forall p: nat :: p != pid ==> (p in procs <==> p in procs') && (p in procs ==> procs'[p] == procs[p])
  }

  lemma ClaimsMoved(procs: Procs, procs': Procs, pid: nat, b: int)
    requires OnlyMoves(procs, procs', pid) && b != NULL
    ensures |Holders(procs', b)| == |Holders(procs, b)| + Delta(procs, procs', pid, b)
  {
    hide Holders;
    var procs1 := procs[pid := Proc(Start, 0, 0, Claim(procs', pid, 0), Claim(procs, pid, 1))];
    ClaimChanged(procs, procs1, pid, 0, b);
    ClaimChanged(procs1, procs', pid, 1, b);
  }

  /** Buffers differ at most in their counts, and those by the claims of one process. */
  ghost predicate Recounted(info: map<int, Info>, info': map<int, Info>, procs: Procs, procs': Procs, pid: nat) {
    && info'.Keys == info.Keys
    && forall b :: b in info ==>
        info'[b] == info[b].(count := info'[b].count) && info'[b].count == info[b].count + Delta(procs, procs', pid, b)
  }

  lemma StillCounted(info: map<int, Info>, info': map<int, Info>, procs: Procs, procs': Procs, pid: nat)
    requires Counted(info, procs) && NULL !in info && OnlyMoves(procs, procs', pid)
    requires Recounted(info, info', procs, procs', pid)
    requires pid in procs' ==> PcOk(procs'[pid])
    requires forall slot: nat :: Claim(procs', pid, slot) == NULL || Claim(procs', pid, slot) in info
    ensures Counted(info', procs')
  {
    hide Holders;
    forall b | b in info' ensures info'[b].count == |Holders(procs', b)| { ClaimsMoved(procs, procs', pid, b); }
    forall p: nat, slot: nat | Claim(procs', p, slot) != NULL ensures Claim(procs', p, slot) in info' {
      if p != pid { assert Claim(procs, p, slot) == Claim(procs', p, slot); }
    }
  }

  // ---------------------------------------------------------------- the invariant

  predicate OnPage(pages: map<nat, seq<int>>, p: nat, b: int) {
    p in pages && b in pages[p]
  }

  /** Every buffer is listed under its page, and under no other. */
  ghost predicate Paged(info: map<int, Info>, pages: map<nat, seq<int>>) {
    && (forall p: nat :: p in pages ==> Distinct(pages[p]))
    && (forall p: nat, b: int :: OnPage(pages, p, b) ==> b in info && info[b].page == p)
    && (forall b :: b in info ==> OnPage(pages, info[b].page, b))
  }

  /** Buffer `b` is what process `p` asked for. */
  predicate Serves(info: map<int, Info>, sizeOf: int -> int, p: Proc) {
    p.pc.Done? || p.pc.Releasing? ==>
      p.hold in info && info[p.hold].dev == p.dev && info[p.hold].block == p.block && info[p.hold].size == sizeOf(p.dev)
  }

  /** Whoever getblk has served holds a buffer of the block asked for. */
  ghost predicate Served(info: map<int, Info>, sizeOf: int -> int, procs: Procs) {
    forall pid :: pid in procs ==> Serves(info, sizeOf, procs[pid])
  }

  ghost predicate Sound(
    q: Queues, l: Lists, hash: Hash, sizeOf: int -> int, procs: Procs, pages: map<nat, seq<int>>)
  {
    && Ok(q, l, hash) && Unique(q.info) && Sized(q.info, sizeOf) && Counted(q.info, procs) && Paged(q.info, pages)
    && Served(q.info, sizeOf, procs)
  }

  /** In order, with buffers to choose from. */
  ghost predicate Good(
    q: Queues, l: Lists, hash: Hash, sizeOf: int -> int, procs: Procs, pages: map<nat, seq<int>>)
  {
    Sound(q, l, hash, sizeOf, procs, pages) && |l.ring| >= 2
  }

  lemma NullOut(q: Queues, l: Lists, hash: Hash)
    requires Ok(q, l, hash)
    ensures NULL !in q.info
  {
  }

  /** Buffers keep their block, size and page. */
  ghost predicate SameBlocks(info: map<int, Info>, info': map<int, Info>) {
    && info'.Keys == info.Keys
    && forall b :: b in info ==>
        info'[b] == info[b].(count := info'[b].count, dirt := info'[b].dirt, lock := info'[b].lock,
          uptodate := info'[b].uptodate)
  }

  lemma BlocksKept(info: map<int, Info>, info': map<int, Info>, sizeOf: int -> int, pages: map<nat, seq<int>>)
    requires SameBlocks(info, info') && Unique(info) && Sized(info, sizeOf) && Paged(info, pages)
    ensures Unique(info') && Sized(info', sizeOf) && Paged(info', pages)
  {
  }

  lemma ServesKept(info: map<int, Info>, info': map<int, Info>, sizeOf: int -> int, procs: Procs)
    requires SameBlocks(info, info') && Served(info, sizeOf, procs)
    ensures Served(info', sizeOf, procs)
  {
  }

  /** A process moves and counts follow; lists and identities stay. */
  lemma Moved(q: Queues, q': Queues, l: Lists, hash: Hash,
      sizeOf: int -> int, procs: Procs, procs': Procs, pages: map<nat, seq<int>>, pid: nat)
    requires Good(q, l, hash, sizeOf, procs, pages) && q' == q.(info := q'.info) && OnlyMoves(procs, procs', pid)
    requires Recounted(q.info, q'.info, procs, procs', pid) && (pid in procs' ==> PcOk(procs'[pid]))
    requires forall slot: nat :: Claim(procs', pid, slot) == NULL || Claim(procs', pid, slot) in q.info
    requires pid in procs' ==> Serves(q.info, sizeOf, procs'[pid])
    ensures Good(q', l, hash, sizeOf, procs', pages)
  {
    hide Ok, Counted, Delta, Unique, Sized, Paged;
    NullOut(q, l, hash);
    StillCounted(q.info, q'.info, procs, procs', pid);
    BlocksKept(q.info, q'.info, sizeOf, pages);
    ServesKept(q.info, q'.info, sizeOf, procs);
    OkByInfo(q, q', l, hash);
  }

  lemma OkByInfo(q: Queues, q': Queues, l: Lists, hash: Hash)
    requires Ok(q, l, hash) && q' == q.(info := q'.info) && q'.info.Keys == q.info.Keys
    requires forall b :: b in q.info ==> q'.info[b].dev == q.info[b].dev && q'.info[b].block == q.info[b].block
    ensures Ok(q', l, hash)
  {
    ChainsKept(q, l, q', l, hash);
  }

  /** The state of one buffer other than its identity and count changes, as I/O and its users do. */
  lemma Touched(q: Queues, l: Lists, hash: Hash, sizeOf: int -> int, procs: Procs,
      pages: map<nat, seq<int>>, b: int, dirt: bool, lock: bool, uptodate: bool)
    requires Good(q, l, hash, sizeOf, procs, pages) && b in q.info
    ensures var i := q.info[b].(dirt := dirt, lock := lock, uptodate := uptodate);
      Good(q.(info := q.info[b := i]), l, hash, sizeOf, procs, pages)
  {
    hide Ok, Holders;
    var q' := q.(info := q.info[b := q.info[b].(dirt := dirt, lock := lock, uptodate := uptodate)]);
    hide Unique, Sized, Paged, Served;
    BlocksKept(q.info, q'.info, sizeOf, pages);
    ServesKept(q.info, q'.info, sizeOf, procs);
    OkByInfo(q, q', l, hash);
  }

  lemma OneEach(q: Queues, l: Lists, hash: Hash, sizeOf: int -> int, procs: Procs, pages: map<nat, seq<int>>)
    requires Good(q, l, hash, sizeOf, procs, pages)
    ensures Unique(q.info)
  {
  }

  lemma PutLastGood(q: Queues, l: Lists, hash: Hash, sizeOf: int -> int, procs: Procs,
      pages: map<nat, seq<int>>, b: int)
    requires Good(q, l, hash, sizeOf, procs, pages) && b in q.info
    ensures b in q.nf && b in q.pf && (q.first != b ==> q.first in Unlinked(q.pf, q.nf, b))
    ensures Good(PutLast(q, b), l.(ring := Without(l.ring, b) + [b]), hash, sizeOf, procs, pages)
  {
    PutLastOk(q, l, hash, b);
    RingDistinct(q, l);
    WithoutIn(l.ring, b);
    assert b in l.ring;
    hide Ok, Holders, Without;
  }

  // ---------------------------------------------------------------- buffers that come, go and change their block

  /** A buffer given a new block, as the end of getblk does. */
  function Reassigned(q: Queues, hash: Hash, b: int, i: Info): Queues
    requires CanTake(q, b) && CanPut(TakeOut(q, hash, b), b)
  {
    PutIn(TakeOut(q, hash, b), hash, b, i)
  }

  function ReassignedLists(q: Queues, l: Lists, hash: Hash, b: int, i: Info): Lists
    requires b in q.info
  {
    PutInLists(TakeOutLists(q, l, hash, b), hash, b, i)
  }

  lemma ReassignOk(q: Queues, l: Lists, hash: Hash, b: int, i: Info)
    requires Ok(q, l, hash) && b in q.info && |l.ring| >= 2
    ensures CanTake(q, b) && CanPut(TakeOut(q, hash, b), b)
    ensures Ok(Reassigned(q, hash, b, i), ReassignedLists(q, l, hash, b, i), hash)
    ensures |ReassignedLists(q, l, hash, b, i).ring| == |l.ring|
  {
    LinksThere(q, l, hash, b);
    RingDistinct(q, l);
    hide Ok, PutIn, TakeOut;
    TakeOutOk(q, l, hash, b);
    WithoutIn(l.ring, b);
    TakenInfo(q, hash, b);
    PutInOk(TakeOut(q, hash, b), TakeOutLists(q, l, hash, b), hash, b, i);
  }

  lemma TakenInfo(q: Queues, hash: Hash, b: int)
    requires CanTake(q, b)
    ensures TakeOut(q, hash, b).info == q.info - {b}
  {
  }

  lemma ReassignInfo(q: Queues, hash: Hash, b: int, i: Info)
    requires CanTake(q, b) && CanPut(TakeOut(q, hash, b), b)
    ensures Reassigned(q, hash, b, i).info == q.info[b := i]
  {
    assert (q.info - {b})[b := i] == q.info[b := i];
  }

  lemma ReassignCounted(info: map<int, Info>, procs: Procs, procs': Procs, pid: nat, b: int, i: Info)
    requires Counted(info, procs) && NULL !in info && b in info && info[b].count == 0 && i.count == 1
    requires OnlyMoves(procs, procs', pid)
    requires pid in procs && procs[pid].hold == procs[pid].wait == NULL
    requires pid in procs' && procs'[pid].pc.Done? && procs'[pid].hold == b && procs'[pid].wait == NULL
    ensures Counted(info[b := i], procs')
  {
    hide Holders;
    forall x | x in info ensures info[b := i][x].count == |Holders(procs', x)| { ClaimsMoved(procs, procs', pid, x); }
    forall p: nat, slot: nat | Claim(procs', p, slot) != NULL ensures Claim(procs', p, slot) in info {
      if p != pid { assert Claim(procs, p, slot) == Claim(procs', p, slot); }
    }
  }

  /** A free buffer becomes the only one for a block that had none. */
  lemma ReassignGood(q: Queues, l: Lists, hash: Hash, sizeOf: int -> int, procs: Procs, procs': Procs,
      pages: map<nat, seq<int>>, pid: nat, b: int, i: Info)
    requires Good(q, l, hash, sizeOf, procs, pages) && b in q.info && q.info[b].count == 0 && i.count == 1
    requires OnlyMoves(procs, procs', pid)
    requires pid in procs && procs[pid].hold == procs[pid].wait == NULL
    requires pid in procs' && procs'[pid].pc.Done? && procs'[pid].hold == b && procs'[pid].wait == NULL
    requires procs'[pid].dev == i.dev && procs'[pid].block == i.block && i.size == sizeOf(i.dev)
    requires i.page == q.info[b].page && (i.dev != 0 ==> i.size == sizeOf(i.dev) && !Cached(q.info, i.dev, i.block))
    ensures CanTake(q, b) && CanPut(TakeOut(q, hash, b), b)
    ensures Good(Reassigned(q, hash, b, i), ReassignedLists(q, l, hash, b, i), hash, sizeOf, procs', pages)
  {
    hide Ok, Counted, Reassigned, ReassignedLists;
    NullOut(q, l, hash);
    ReassignOk(q, l, hash, b, i);
    ReassignInfo(q, hash, b, i);
    ReassignCounted(q.info, procs, procs', pid, b, i);
    UniqueNew(q.info, b, i);
    ReassignServed(q.info, sizeOf, procs, procs', pid, b, i);
  }

  /** A buffer nobody has claimed can change without anyone being served less. */
  lemma ReassignServed(info: map<int, Info>, sizeOf: int -> int, procs: Procs, procs': Procs, pid: nat, b: int, i: Info)
    requires Served(info, sizeOf, procs) && Counted(info, procs) && b in info && info[b].count == 0
    requires OnlyMoves(procs, procs', pid)
    requires pid in procs' && Serves(info[b := i], sizeOf, procs'[pid])
    ensures Served(info[b := i], sizeOf, procs')
  {
    hide Holders;
    forall p | p in procs' ensures Serves(info[b := i], sizeOf, procs'[p]) {
      if p != pid {
        assert Serves(info, sizeOf, procs[p]);
        if procs[p].hold == b && b != NULL { ClaimCounts(procs, p, 0); }
      }
    }
  }

  lemma UniqueNew(info: map<int, Info>, b: int, i: Info)
    requires Unique(info) && (i.dev != 0 ==> !Cached(info, i.dev, i.block))
    ensures Unique(info[b := i])
  {
    forall c | c in info ensures !(i.dev != 0 && info[c].dev == i.dev && info[c].block == i.block) {
      assert i.dev != 0 && info[c].dev == i.dev && info[c].block == i.block ==> Cached(info, i.dev, i.block);
    }
  }

  ghost predicate Unlocked(info: map<int, Info>, b: int) {
    b in info && !info[b].lock
  }

  /** A buffer that was hit is the last to be taken, if it is up to date and clean. */
  ghost function Recent(ring: seq<int>, b: int, i: Info): seq<int> {
    if i.uptodate && !i.dirt then Without(ring, b) + [b] else ring
  }

  /** Where get_hash_table goes on: still asleep, with the buffer, or back to its look-up. */
  ghost function AfterHit(info: map<int, Info>, p: Proc, sizeOf: int -> int): Pc {
    if !Unlocked(info, p.wait) then WaitHit
    else if info[p.wait].dev == p.dev && info[p.wait].block == p.block && info[p.wait].size == sizeOf(p.dev) then Done
    else Start
  }

  /** Where getblk goes on from a free buffer: asleep on it, to write dirty ones, back to its look-up, or with it. */
  ghost function AfterScan(i: Info, cached: bool): Pc {
    if i.lock then WaitVictim else if i.dirt then Starved else if cached then Start else Done
  }

  lemma CachedSame(info: map<int, Info>, b: int, n: nat, dev: int, block: int)
    requires b in info
    ensures Cached(info[b := info[b].(count := n)], dev, block) <==> Cached(info, dev, block)
  {
    var info' := info[b := info[b].(count := n)];
    if Cached(info, dev, block) {
      var x :| x in info && info[x].dev == dev != 0 && info[x].block == block;
      assert info'[x].dev == dev && info'[x].block == block;
    }
  }

  /** A buffer getblk can make its own. */
  ghost predicate Takeable(i: Info, size: int) {
    i.count == 0 && i.size == size && !i.dirt
  }

  /** A free buffer that must be written first. */
  ghost predicate Starves(i: Info, size: int) {
    i.count == 0 && i.size == size && i.dirt
  }

  /** A buffer as getblk hands it out. */
  ghost function Given(i: Info, p: Proc): Info {
    i.(count := 1, dirt := false, uptodate := false, dev := p.dev, block := p.block)
  }

  // ---------------------------------------------------------------- contents

  /** The contents of a block, or of the buffer at a place. */
  type Bytes = int

  type Blocks = map<(int, int), Bytes>

  function DataAt(data: map<int, Bytes>, b: int): Bytes {
    if b in data then data[b] else 0
  }

  function BlockAt(d: Blocks, dev: int, block: int): Bytes {
    if (dev, block) in d then d[(dev, block)] else 0
  }

  /** What an up-to-date buffer has is what was last written to the block it is filed under. */
  ghost predicate Current(info: map<int, Info>, data: map<int, Bytes>, truth: Blocks) {
    forall b :: b in info && info[b].dev != 0 && info[b].uptodate ==>
      DataAt(data, b) == BlockAt(truth, info[b].dev, info[b].block)
  }

  /** Some buffer has news for the device: it is dirty, or being written. */
  ghost predicate Newer(info: map<int, Info>, dev: int, block: int) {
    exists b :: b in info && Holding(info[b], dev, block)
  }

  ghost predicate Holding(i: Info, dev: int, block: int) {
    i.dev == dev && i.block == block && i.uptodate && (i.dirt || i.lock)
  }

  /** Of every block the device has what was last written to it, unless some buffer has news. */
  ghost predicate OnDisk(info: map<int, Info>, disk: Blocks, truth: Blocks) {
    forall dev: int, block: int :: dev != 0 && !Newer(info, dev, block) ==>
      BlockAt(disk, dev, block) == BlockAt(truth, dev, block)
  }

  /** Nothing that was written is lost. */
  ghost predicate Intact(info: map<int, Info>, data: map<int, Bytes>, disk: Blocks, truth: Blocks) {
    Current(info, data, truth) && OnDisk(info, disk, truth)
  }

  /** Buffers differ at most in their counts. */
  ghost predicate SameStates(info: map<int, Info>, info': map<int, Info>) {
    info'.Keys == info.Keys && forall b :: b in info ==> info'[b] == info[b].(count := info'[b].count)
  }

  lemma NewerSame(info: map<int, Info>, info': map<int, Info>, dev: int, block: int)
    requires SameStates(info, info')
    ensures Newer(info', dev, block) <==> Newer(info, dev, block)
  {
    if Newer(info, dev, block) {
      var b :| b in info && Holding(info[b], dev, block);
      assert Holding(info'[b], dev, block);
    }
  }

  lemma IntactSame(info: map<int, Info>, info': map<int, Info>, data: map<int, Bytes>, disk: Blocks, truth: Blocks)
    requires Intact(info, data, disk, truth) && SameStates(info, info')
    ensures Intact(info', data, disk, truth)
  {
    hide Newer;
    forall dev: int, block: int ensures Newer(info', dev, block) <==> Newer(info, dev, block) {
      NewerSame(info, info', dev, block);
    }
  }

  lemma NewerBut(info: map<int, Info>, b: int, i: Info, dev: int, block: int)
    requires (b in info ==> !Holding(info[b], dev, block)) && !Holding(i, dev, block)
    ensures Newer(info[b := i], dev, block) <==> Newer(info, dev, block)
  {
    if Newer(info, dev, block) {
      var x :| x in info && Holding(info[x], dev, block);
      assert Holding(info[b := i][x], dev, block);
    }
  }

  /** A buffer without news made one that is not up to date, of this block or another. */
  lemma IntactGiven(info: map<int, Info>, data: map<int, Bytes>, disk: Blocks, truth: Blocks, b: int, i: Info)
    requires Intact(info, data, disk, truth) && !i.uptodate && (b in info ==> !info[b].dirt && !info[b].lock)
    ensures Intact(info[b := i], data, disk, truth)
  {
    hide Newer;
    forall dev: int, block: int ensures Newer(info[b := i], dev, block) <==> Newer(info, dev, block) {
      NewerBut(info, b, i, dev, block);
    }
  }

  /** A buffer without news goes. */
  lemma IntactLess(info: map<int, Info>, data: map<int, Bytes>, disk: Blocks, truth: Blocks, b: int)
    requires Intact(info, data, disk, truth) && b in info && !info[b].dirt && !info[b].lock
    ensures Intact(info - {b}, data, disk, truth)
  {
    forall dev: int, block: int | Newer(info, dev, block) ensures Newer(info - {b}, dev, block) {
      var x :| x in info && Holding(info[x], dev, block);
      assert x in info - {b} && Holding((info - {b})[x], dev, block);
    }
  }

  /** What the only buffer of a block makes of the block and of the device. */
  lemma IntactChanged(info: map<int, Info>, data: map<int, Bytes>, disk: Blocks, truth: Blocks, b: int, i: Info,
      v: Bytes, disk': Blocks, truth': Blocks)
    requires Intact(info, data, disk, truth) && Unique(info) && b in info
    requires i.dev == info[b].dev && i.block == info[b].block
    requires forall k :: k != (i.dev, i.block) ==>
      BlockAt(disk', k.0, k.1) == BlockAt(disk, k.0, k.1) && BlockAt(truth', k.0, k.1) == BlockAt(truth, k.0, k.1)
    requires i.dev != 0 && i.uptodate ==> v == BlockAt(truth', i.dev, i.block)
    requires i.dev != 0 && !Holding(i, i.dev, i.block) ==>
      BlockAt(disk', i.dev, i.block) == BlockAt(truth', i.dev, i.block)
    ensures Intact(info[b := i], data[b := v], disk', truth')
  {
    var info' := info[b := i];
    forall x | x in info' && info'[x].dev != 0 && info'[x].uptodate
      ensures DataAt(data[b := v], x) == BlockAt(truth', info'[x].dev, info'[x].block)
    {
      var k := (info'[x].dev, info'[x].block);
      assert x != b ==> k != (i.dev, i.block);
    }
    forall dev: int, block: int | dev != 0 && !Newer(info', dev, block)
      ensures BlockAt(disk', dev, block) == BlockAt(truth', dev, block)
    {
      var k := (dev, block);
      if k == (i.dev, i.block) {
        assert !Holding(info'[b], dev, block);
      } else {
        NewerBut(info, b, i, dev, block);
      }
    }
  }

  // ---------------------------------------------------------------- the cache

  class Cache {
    const hash: Hash
    const sizeOf: int -> int
    var q: Queues
    ghost var l: Lists
    var procs: Procs
    var pages: map<nat, seq<int>>
    var nr: int
    var data: map<int, Bytes>     // what the buffers have
    var disk: Blocks              // what the devices have
    ghost var truth: Blocks       // what was last written to each block

    ghost predicate Inv()
      reads this
    {
      Good(q, l, hash, sizeOf, procs, pages) && nr == |l.ring| && Whole()
    }

    ghost predicate Whole()
      reads this
    {
      Intact(q.info, data, disk, truth)
    }

    /** No block, and no buffer, has other contents. */
    twostate predicate SameContents()
      reads this
    {
      data == old(data) && disk == old(disk) && truth == old(truth)
    }

    /** find_buffer: the walk along one chain finds what a search of all buffers would. */
    method FindBuffer(dev: int, block: int, size: int) returns (b: int)
      requires Inv() && (dev != 0 ==> size == sizeOf(dev))
      ensures b != NULL ==>
        b in q.info && q.info[b].dev == dev != 0 && q.info[b].block == block && q.info[b].size == size
      ensures b == NULL <==> !Cached(q.info, dev, block)
    {
      hide Counted, Paged, Unique, Ring;
      ghost var h, i := hash(dev, block), 0;
      ghost var c := ChainOf(l.chains, h);
      assert ChainOk(q, l, hash, h);
      b := HeadOf(q.heads, hash(dev, block));
      while b != NULL
        invariant 0 <= i <= |c| && b == (if i < |c| then c[i] else NULL)
        invariant forall k :: 0 <= k < i ==> !(q.info[c[k]].dev == dev && q.info[c[k]].block == block)
        decreases |c| - i
      {
        assert c[i] in c && ChainAt(q.nx, q.pv, c, i);
        if q.info[b].dev == dev && q.info[b].block == block { return; }
        b := q.nx[b];
        i := i + 1;
      }
      forall x | x in q.info && q.info[x].dev == dev != 0 ensures q.info[x].block != block {
        assert Filed(q, l, hash, x);
      }
    }

    /** A process moves, and the counts of the buffers it claims with it. */
    method Move(pid: nat, p: Proc, info: map<int, Info>)
      requires Inv() && pid in procs && PcOk(p) && Recounted(q.info, info, procs, procs[pid := p], pid)
      requires (p.hold == NULL || p.hold in q.info) && (p.wait == NULL || p.wait in q.info) && Serves(q.info, sizeOf, p)
      modifies this
      ensures Inv() && procs == old(procs)[pid := p] && q == old(q).(info := info) && l == old(l) && SameContents()
    {
      hide Good, PcOk, Intact;
      IntactSame(q.info, info, data, disk, truth);
      hide Recounted;
      Moved(q, q.(info := info), l, hash, sizeOf, procs, procs[pid := p], pages, pid);
      q, procs := q.(info := info), procs[pid := p];
    }

    /** A process that holds nothing goes on to another place. */
    method Goto(pid: nat, pc: Pc)
      requires Inv() && pid in procs && procs[pid].hold == procs[pid].wait == NULL
      requires (pc.Start? || pc.Scan? || pc.Starved?)
      modifies this
      ensures Inv() && procs == old(procs)[pid := old(procs)[pid].(pc := pc)] && q == old(q) && SameContents()
    {
      hide Good, Intact;
      Move(pid, procs[pid].(pc := pc), q.info);
    }

    /** getblk, up to where it sleeps or must scan: get_hash_table and a hit that is not locked. */
    method LookUp(pid: nat)
      requires Inv() && pid in procs && procs[pid].pc.Start?
      modifies this
      ensures Inv() && pid in procs && procs == old(procs)[pid := procs[pid]]
      ensures procs[pid].dev == old(procs)[pid].dev && procs[pid].block == old(procs)[pid].block
      ensures procs[pid].pc.Scan? <==> !Cached(old(q.info), procs[pid].dev, procs[pid].block)
      ensures !procs[pid].pc.Scan? ==> procs[pid].pc == if Unlocked(old(q.info), procs[pid].hold) then Done else WaitHit
      ensures SameContents()
      ensures procs[pid].pc.Done? ==>
        procs[pid].hold in old(q.info) && l.ring == Recent(old(l.ring), procs[pid].hold, old(q.info)[procs[pid].hold])
    {
      hide Good, Ok, Recounted, Cached, Intact, Without;
      var p := procs[pid];
      Placed(q, l, hash, sizeOf, procs, pages, pid);
      var b := FindBuffer(p.dev, p.block, sizeOf(p.dev));
      if b == NULL {
        Goto(pid, Scan);
        return;
      }
      var i := q.info[b];
      if i.lock {
        RecountOne(q.info, procs, pid, p.(pc := WaitHit, hold := b, wait := b), b, 2);
        Move(pid, p.(pc := WaitHit, hold := b, wait := b), q.info[b := i.(count := i.count + 2)]);
      } else {
        RecountOne(q.info, procs, pid, p.(pc := Done, hold := b), b, 1);
        Move(pid, p.(pc := Done, hold := b), q.info[b := i.(count := i.count + 1)]);
        Refresh(b);
      }
    }

    /** A buffer that is clean and up to date goes to the end of the free list when it is hit. */
    method Refresh(b: int)
      requires Inv() && b in q.info
      modifies this
      ensures Inv() && procs == old(procs) && q.info == old(q.info) && SameContents()
      ensures l.ring == Recent(old(l.ring), b, q.info[b])
    {
      hide Good, Intact;
      if q.info[b].uptodate && !q.info[b].dirt {
        PutLastGood(q, l, hash, sizeOf, procs, pages, b);
        LastLength(l.ring, b, q, l, hash, sizeOf, procs, pages);
        q, l := PutLast(q, b), l.(ring := Without(l.ring, b) + [b]);
      }
    }

    /** get_hash_table after the sleep: the buffer may have become another block's. */
    method WakeHit(pid: nat)
      requires Inv() && pid in procs && procs[pid].pc.WaitHit?
      modifies this
      ensures Inv() && pid in procs && procs == old(procs)[pid := procs[pid]]
      ensures procs[pid].pc == AfterHit(old(q.info), old(procs)[pid], sizeOf) && SameContents()
      ensures procs[pid].pc.Done? ==>
        procs[pid].hold in old(q.info) && l.ring == Recent(old(l.ring), procs[pid].hold, old(q.info)[procs[pid].hold])
    {
      hide Good, Ok, Recounted, Intact, Without;
      var p := procs[pid];
      Placed(q, l, hash, sizeOf, procs, pages, pid);
      var b := p.wait;
      var i := q.info[b];
      if i.lock { return; }
      if i.dev == p.dev && i.block == p.block && i.size == sizeOf(p.dev) {
        RecountOne(q.info, procs, pid, p.(pc := Done, wait := NULL), b, -1);
        Move(pid, p.(pc := Done, wait := NULL), q.info[b := i.(count := i.count - 1)]);
        Refresh(b);
      } else {
        RecountOne(q.info, procs, pid, p.(pc := Start, hold := NULL, wait := NULL), b, -2);
        Move(pid, p.(pc := Start, hold := NULL, wait := NULL), q.info[b := i.(count := i.count - 2)]);
      }
    }

    /** brelse, up to where it sleeps. */
    method Release(pid: nat)
      requires Inv() && pid in procs && procs[pid].pc.Done?
      modifies this
      ensures Inv() && pid in procs && procs == old(procs)[pid := procs[pid]]
      ensures procs[pid].pc == if Unlocked(old(q.info), old(procs)[pid].hold) then Start else Releasing
      ensures SameContents()
    {
      hide Good, Ok, Recounted, Intact;
      var p := procs[pid];
      Placed(q, l, hash, sizeOf, procs, pages, pid);
      var b := p.hold;
      var i := q.info[b];
      if i.lock {
        RecountOne(q.info, procs, pid, p.(pc := Releasing, wait := b), b, 1);
        Move(pid, p.(pc := Releasing, wait := b), q.info[b := i.(count := i.count + 1)]);
      } else {
        RecountOne(q.info, procs, pid, p.(pc := Start, hold := NULL), b, -1);
        Move(pid, p.(pc := Start, hold := NULL), q.info[b := i.(count := i.count - 1)]);
      }
    }

    /** brelse after the sleep. */
    method WakeRelease(pid: nat)
      requires Inv() && pid in procs && procs[pid].pc.Releasing?
      modifies this
      ensures Inv() && pid in procs && procs == old(procs)[pid := procs[pid]]
      ensures procs[pid].pc == if Unlocked(old(q.info), old(procs)[pid].hold) then Start else Releasing
      ensures SameContents()
    {
      hide Good, Ok, Recounted, Intact;
      var p := procs[pid];
      Placed(q, l, hash, sizeOf, procs, pages, pid);
      var b := p.hold;
      var i := q.info[b];
      if i.lock { return; }
      RecountOne(q.info, procs, pid, p.(pc := Start, hold := NULL, wait := NULL), b, -2);
      Move(pid, p.(pc := Start, hold := NULL, wait := NULL), q.info[b := i.(count := i.count - 2)]);
    }

    /** The scan of getblk: a free buffer of the size, of the least badness there is. */
    method Victim(size: int, shared: set<nat>) returns (b: int)
      requires Inv()
      ensures b != NULL ==> b in q.info && Eligible(q.info[b], size, shared)
      ensures b != NULL ==>
        forall x :: x in q.info && Eligible(q.info[x], size, shared) ==> NoBetter(q.info[x], q.info[b])
      ensures b == NULL ==> forall x :: x in q.info ==> !Eligible(q.info[x], size, shared)
      ensures b != NULL ==> FirstBest(q.info, l.ring, b, size, shared)
    {
      hide Counted, Paged, Unique, Sized, Served, ChainOk, Filed, Badness, NoBetter, Intact, BestAt;
      b := NULL;
      var tmp, n: nat := q.first, 0;
      ghost var at := 0;
      while n < nr
        invariant n <= nr && (n < nr ==> tmp == l.ring[n])
        invariant b != NULL ==> b in q.info && Eligible(q.info[b], size, shared)
        invariant 0 <= at && (b != NULL ==> at < n <= |l.ring| && l.ring[at] == b)
        invariant b != NULL ==> BestAt(q.info, l.ring, at, size, shared)
        invariant forall k ::
          0 <= k < n && Eligible(q.info[l.ring[k]], size, shared) ==>
            b != NULL && Badness(q.info[b]) <= Badness(q.info[l.ring[k]])
      {
        assert tmp in l.ring && RingAt(q.nf, q.pf, l.ring, n);
        var i := q.info[tmp];
        if i.count == 0 && i.size == size && i.page !in shared && (b == NULL || Badness(i) < Badness(q.info[b])) {
          BetterThanAll(q.info, l.ring, b, n, size, shared);
          b, at := tmp, n;
          if Badness(i) == 0 {
            forall x | x in q.info ensures NoBetter(q.info[x], q.info[b]) {
              BadnessNat(q.info[x]);
              BadnessOrder(q.info[x], q.info[b]);
            }
            return;
          }
        }
        tmp := q.nf[tmp];
        n := n + 1;
      }
      forall x | x in q.info && Eligible(q.info[x], size, shared) ensures b != NULL && NoBetter(q.info[x], q.info[b]) {
        assert x in l.ring;
        var k :| 0 <= k < nr && l.ring[k] == x;
        BadnessOrder(q.info[x], q.info[b]);
      }
    }

    /** The end of getblk, with no sleep in it: the victim taken if it is still free and the block still missing. */
    method Take(pid: nat, b: int)
      requires Inv() && pid in procs && procs[pid].hold == procs[pid].wait == NULL && Unlocked(q.info, b)
      modifies this
      ensures Inv() && pid in procs && procs == old(procs)[pid := procs[pid]] && SameContents()
      ensures procs[pid].dev == old(procs)[pid].dev && procs[pid].block == old(procs)[pid].block
      ensures procs[pid].pc.Done? <==>
        Takeable(old(q.info)[b], sizeOf(procs[pid].dev)) && !Cached(old(q.info), procs[pid].dev, procs[pid].block)
      ensures procs[pid].pc.Done? ==>
        procs[pid].hold == b && q.info == old(q.info)[b := Given(old(q.info)[b], procs[pid])]
      ensures procs[pid].pc.Done? ==> !q.info[b].uptodate && !q.info[b].dirt && q.info[b].count == 1
      ensures procs[pid].pc.Done? ==> l.ring == Without(old(l.ring), b) + [b]
      ensures !procs[pid].pc.Done? ==> q == old(q)
      ensures procs[pid].pc.Done?
        || procs[pid].pc == if Starves(old(q.info)[b], sizeOf(procs[pid].dev)) then Starved else Start
    {
      hide Good, Ok, Recounted, Cached, Intact;
      var p := procs[pid];
      Placed(q, l, hash, sizeOf, procs, pages, pid);
      var i := q.info[b];
      if i.count != 0 || i.size != sizeOf(p.dev) {
        Goto(pid, Start);
        return;
      }
      if i.dirt {
        Goto(pid, Starved);
        return;
      }
      var other := FindBuffer(p.dev, p.block, sizeOf(p.dev));
      if other != NULL {
        Goto(pid, Start);
        return;
      }
      Reassign(pid, b);
    }

    /** The last lines of getblk: a free buffer given to the block asked for. */
    method Reassign(pid: nat, b: int)
      requires Inv() && pid in procs && procs[pid].hold == procs[pid].wait == NULL && b in q.info
      requires Takeable(q.info[b], sizeOf(procs[pid].dev)) && !Cached(q.info, procs[pid].dev, procs[pid].block)
      requires !q.info[b].lock
      modifies this
      ensures Inv() && procs == old(procs)[pid := old(procs)[pid].(pc := Done, hold := b)] && SameContents()
      ensures q.info == old(q.info)[b := Given(old(q.info)[b], old(procs)[pid])]
      ensures l.ring == Without(old(l.ring), b) + [b]
    {
      hide Good, Ok, Cached, Reassigned, Intact, Without;
      var p := procs[pid];
      var i := q.info[b].(count := 1, dirt := false, uptodate := false, dev := p.dev, block := p.block);
      var p' := p.(pc := Done, hold := b);
      IntactGiven(q.info, data, disk, truth, b, i);
      ReassignGood(q, l, hash, sizeOf, procs, procs[pid := p'], pages, pid, b, i);
      ReassignLength(q, l, hash, sizeOf, procs, pages, b, i);
      ReassignInfo(q, hash, b, i);
      l := ReassignedLists(q, l, hash, b, i);
      q, procs := Reassigned(q, hash, b, i), procs[pid := p'];
    }

    /** getblk from its scan up to where it sleeps: it ends with a buffer of the block when a free one is neither locked
        nor dirty and the block is still missing. `b` is the choice of the scan. */
    method ScanStep(pid: nat, shared: set<nat>) returns (ghost b: int)
      requires Inv() && pid in procs && procs[pid].pc.Scan?
      modifies this
      ensures Inv() && pid in procs && procs == old(procs)[pid := procs[pid]] && SameContents()
      ensures procs[pid].dev == old(procs)[pid].dev && procs[pid].block == old(procs)[pid].block
      ensures b == NULL <==> forall x :: x in old(q.info) ==> !Eligible(old(q.info)[x], sizeOf(procs[pid].dev), shared)
      ensures b == NULL ==> procs[pid].pc.Starved?
      ensures b != NULL ==>
        && b in old(q.info) && Eligible(old(q.info)[b], sizeOf(procs[pid].dev), shared)
        && FirstBest(old(q.info), old(l.ring), b, sizeOf(procs[pid].dev), shared)
        && procs[pid].pc == AfterScan(old(q.info)[b], Cached(old(q.info), procs[pid].dev, procs[pid].block))
        && (procs[pid].pc.Done? ==> procs[pid].hold == b)
        && forall x :: x in old(q.info) && Eligible(old(q.info)[x], sizeOf(procs[pid].dev), shared) ==>
          NoBetter(old(q.info)[x], old(q.info)[b])
    {
      hide Good, Ok, Recounted, Intact, Cached, NoBetter, FirstBest;
      var p := procs[pid];
      Placed(q, l, hash, sizeOf, procs, pages, pid);
      var v := Victim(sizeOf(p.dev), shared);
      b := v;
      if v == NULL {
        Goto(pid, Starved);
      } else if q.info[v].lock {
        var i := q.info[v];
        RecountOne(q.info, procs, pid, p.(pc := WaitVictim, wait := v), v, 1);
        Move(pid, p.(pc := WaitVictim, wait := v), q.info[v := i.(count := i.count + 1)]);
      } else {
        Take(pid, v);
      }
    }

    /** getblk after its sleep on the victim. */
    method WakeVictim(pid: nat)
      requires Inv() && pid in procs && procs[pid].pc.WaitVictim?
      modifies this
      ensures Inv() && pid in procs && procs == old(procs)[pid := procs[pid]] && SameContents()
      ensures procs[pid].pc.WaitVictim? <==> !Unlocked(old(q.info), old(procs)[pid].wait)
      ensures Unlocked(old(q.info), old(procs)[pid].wait) ==>
        var p, i := old(procs)[pid], old(q.info)[old(procs)[pid].wait];
        procs[pid].pc.Done? <==>
          i.count == 1 && i.size == sizeOf(p.dev) && !i.dirt && !Cached(old(q.info), p.dev, p.block)
    {
      hide Good, Ok, Recounted, Intact, Cached;
      var p := procs[pid];
      Placed(q, l, hash, sizeOf, procs, pages, pid);
      var b := p.wait;
      var i := q.info[b];
      if i.lock { return; }
      ghost var was := q.info;
      RecountOne(q.info, procs, pid, p.(pc := Scan, wait := NULL), b, -1);
      Move(pid, p.(pc := Scan, wait := NULL), q.info[b := i.(count := i.count - 1)]);
      CachedSame(was, b, i.count - 1, p.dev, p.block);
      Take(pid, b);
    }

    /** A new request of a process that is not in the middle of one. */
    method Begin(pid: nat, dev: int, block: int)
      requires Inv() && (pid in procs ==> procs[pid].pc.Start?)
      modifies this
      ensures Inv() && q == old(q) && procs == old(procs)[pid := Proc(Start, dev, block, NULL, NULL)] && SameContents()
    {
      hide Ok, Holders, Intact;
      NullOut(q, l, hash);
      var procs' := procs[pid := Proc(Start, dev, block, NULL, NULL)];
      Moved(q, q, l, hash, sizeOf, procs, procs', pages, pid);
      procs := procs';
    }

    /** The state of a buffer and what it has, the device and the block, changed in ways that fit together. */
    method Change(b: int, i: Info, v: Bytes, disk': Blocks, ghost truth': Blocks)
      requires Inv() && b in q.info && i == q.info[b].(dirt := i.dirt, lock := i.lock, uptodate := i.uptodate)
      requires disk' == disk || disk' == disk[(i.dev, i.block) := BlockAt(disk', i.dev, i.block)]
      requires truth' == truth || truth' == truth[(i.dev, i.block) := BlockAt(truth', i.dev, i.block)]
      requires i.dev != 0 && i.uptodate ==> v == BlockAt(truth', i.dev, i.block)
      requires i.dev != 0 && !Holding(i, i.dev, i.block) ==>
        BlockAt(disk', i.dev, i.block) == BlockAt(truth', i.dev, i.block)
      modifies this
      ensures Inv() && procs == old(procs) && q.info == old(q.info)[b := i]
      ensures data == old(data)[b := v] && disk == disk' && truth == truth'
    {
      hide Intact, Good;
      OneEach(q, l, hash, sizeOf, procs, pages);
      IntactChanged(q.info, data, disk, truth, b, i, v, disk', truth');
      Touched(q, l, hash, sizeOf, procs, pages, b, i.dirt, i.lock, i.uptodate);
      q, data, disk, truth := q.(info := q.info[b := i]), data[b := v], disk', truth';
    }

    /** What an up-to-date buffer has, and the device, as the invariant says. */
    lemma Known(b: int)
      requires Inv() && b in q.info && q.info[b].dev != 0
      ensures var i := q.info[b];
        && (i.uptodate ==> DataAt(data, b) == BlockAt(truth, i.dev, i.block))
        && (!Holding(i, i.dev, i.block) ==> BlockAt(disk, i.dev, i.block) == BlockAt(truth, i.dev, i.block))
    {
      var i := q.info[b];
      hide Ok, Counted, Paged, Sized, Served;
      assert forall x :: x in q.info && Holding(q.info[x], i.dev, i.block) ==> x == b;
    }

    /** A read of a buffer that is not up to date begins. */
    method StartRead(b: int)
      requires Inv() && b in q.info && !q.info[b].lock && !q.info[b].uptodate
      modifies this
      ensures Inv() && procs == old(procs) && disk == old(disk) && truth == old(truth)
      ensures q.info == old(q.info)[b := old(q.info)[b].(lock := true)]
    {
      hide Good, Intact;
      if q.info[b].dev != 0 { Known(b); }
      Change(b, q.info[b].(lock := true), DataAt(data, b), disk, truth);
    }

    /** A read ends: the buffer has what the device has, and is up to date. */
    method EndRead(b: int)
      requires Inv() && b in q.info && q.info[b].lock && !q.info[b].uptodate
      modifies this
      ensures Inv() && procs == old(procs) && disk == old(disk) && truth == old(truth)
      ensures q.info == old(q.info)[b := old(q.info)[b].(lock := false, uptodate := true)]
      ensures data == old(data)[b := BlockAt(disk, q.info[b].dev, q.info[b].block)]
    {
      hide Good, Intact;
      if q.info[b].dev != 0 { Known(b); }
      var i := q.info[b];
      Change(b, i.(lock := false, uptodate := true), BlockAt(disk, i.dev, i.block), disk, truth);
    }

    /** A write of a dirty buffer begins. */
    method StartWrite(b: int)
      requires Inv() && b in q.info && !q.info[b].lock && q.info[b].dirt
      modifies this
      ensures Inv() && procs == old(procs) && disk == old(disk) && truth == old(truth)
      ensures q.info == old(q.info)[b := old(q.info)[b].(lock := true, dirt := false)]
    {
      hide Good, Intact;
      if q.info[b].dev != 0 { Known(b); }
      Change(b, q.info[b].(lock := true, dirt := false), DataAt(data, b), disk, truth);
    }

    /** A write ends: the device has what the buffer has, or if that was changed meanwhile anything. */
    method EndWrite(b: int, v: Bytes)
      requires Inv() && b in q.info && q.info[b].lock && (q.info[b].dirt || v == DataAt(data, b))
      modifies this
      ensures Inv() && procs == old(procs)
      ensures q.info == old(q.info)[b := old(q.info)[b].(lock := false, uptodate := true)]
      ensures disk == old(disk)[(q.info[b].dev, q.info[b].block) := v]
      ensures truth == old(truth)[(q.info[b].dev, q.info[b].block) := DataAt(old(data), b)]
    {
      hide Good, Intact;
      var i := q.info[b];
      var k := (i.dev, i.block);
      Change(b, i.(lock := false, uptodate := true), DataAt(data, b), disk[k := v], truth[k := DataAt(data, b)]);
    }

    /** A read or a write fails: the block is what the device now has. */
    method Fail(b: int, v: Bytes)
      requires Inv() && b in q.info && q.info[b].lock
      modifies this
      ensures Inv() && procs == old(procs)
      ensures q.info == old(q.info)[b := old(q.info)[b].(lock := false, uptodate := false)]
      ensures disk == old(disk)[(q.info[b].dev, q.info[b].block) := v]
      ensures truth == old(truth)[(q.info[b].dev, q.info[b].block) := v]
    {
      hide Good, Intact;
      var i := q.info[b];
      var k := (i.dev, i.block);
      Change(b, i.(lock := false, uptodate := false), DataAt(data, b), disk[k := v], truth[k := v]);
    }

    /** A buffer is given up, as when the medium was changed. */
    method Invalidate(b: int)
      requires Inv() && b in q.info
      modifies this
      ensures Inv() && procs == old(procs) && disk == old(disk)
      ensures q.info == old(q.info)[b := old(q.info)[b].(dirt := false, uptodate := false)]
      ensures truth == old(truth)[(q.info[b].dev, q.info[b].block) := BlockAt(disk, q.info[b].dev, q.info[b].block)]
    {
      hide Good, Intact;
      var i := q.info[b];
      ghost var k := (i.dev, i.block);
      Change(b, i.(dirt := false, uptodate := false), DataAt(data, b), disk, truth[k := BlockAt(disk, i.dev, i.block)]);
    }

    /** A process writes to the buffer it holds, unless that is being read. */
    method Modify(pid: nat, v: Bytes)
      requires Inv() && pid in procs && procs[pid].pc.Done? && procs[pid].hold in q.info
      requires q.info[procs[pid].hold].lock ==> q.info[procs[pid].hold].uptodate
      modifies this
      ensures Inv() && procs == old(procs) && disk == old(disk)
      ensures q.info == old(q.info)[procs[pid].hold := old(q.info)[procs[pid].hold].(dirt := true, uptodate := true)]
      ensures data == old(data)[procs[pid].hold := v] && truth == old(truth)[(procs[pid].dev, procs[pid].block) := v]
    {
      hide Good, Intact;
      Placed(q, l, hash, sizeOf, procs, pages, pid);
      var b := procs[pid].hold;
      var i := q.info[b];
      Change(b, i.(dirt := true, uptodate := true), v, disk, truth[(i.dev, i.block) := v]);
    }

    /** A buffer of a new page in front of the free list, which may be empty. */
    method GrowOne(page: nat, size: int, b: int, ghost before: seq<int>)
      requires Sound(q, l, hash, sizeOf, procs, pages) && nr == |l.ring| && Whole() && b != NULL && b !in q.info
      requires if page in pages then pages[page] == before else before == []
      modifies this
      ensures Sound(q, l, hash, sizeOf, procs, pages) && nr == |l.ring| == |old(l.ring)| + 1 && procs == old(procs)
      ensures q.info == old(q.info)[b := Info(0, 0, size, 0, false, false, false, page)]
      ensures Whole() && SameContents() && pages == old(pages)[page := before + [b]]
    {
      hide Sound, Grown, Intact;
      var i := Info(0, 0, size, 0, false, false, false, page);
      GrowSound(q, l, hash, sizeOf, procs, pages, b, i, before);
      IntactGiven(q.info, data, disk, truth, b, i);
      q, l := Grown(q, b, i), l.(ring := [b] + l.ring);
      pages, nr := pages[page := (if page in pages then pages[page] else []) + [b]], nr + 1;
    }

    /** grow_buffers: the buffers of a new page, put in front of the free list one by one; the list may be empty. */
    method PutInFront(page: nat, size: int, ids: seq<int>)
      requires Sound(q, l, hash, sizeOf, procs, pages) && nr == |l.ring| && Whole()
      requires page !in pages && Fresh(q.info, ids)
      modifies this
      ensures Sound(q, l, hash, sizeOf, procs, pages) && nr == |l.ring| == |old(l.ring)| + |ids| && procs == old(procs)
      ensures Joined(old(q.info), ids, size, page, q.info)
      ensures Whole() && SameContents()
    {
      hide Sound, Intact, Joined;
      var k: nat := 0;
      JoinedNone(q.info, size, page);
      assert ids[..0] == [];
      while k < |ids|
        invariant k <= |ids| && Sound(q, l, hash, sizeOf, procs, pages) && procs == old(procs)
        invariant nr == |l.ring| == |old(l.ring)| + k && Whole() && SameContents()
        invariant Joined(old(q.info), ids[..k], size, page, q.info)
        invariant (page in pages <==> k > 0) && (k > 0 ==> pages[page] == ids[..k])
      {
        var b := ids[k];
        JoinedNext(old(q.info), ids, k, size, page, q.info);
        GrowOne(page, size, b, ids[..k]);
        assert ids[..k + 1] == ids[..k] + [b];
        k := k + 1;
      }
      assert ids[..k] == ids;
    }

    /** grow_buffers in a cache that is in use. */
    method Grow(page: nat, size: int, ids: seq<int>)
      requires Inv() && page !in pages && Fresh(q.info, ids)
      modifies this
      ensures Inv() && procs == old(procs) && nr == old(nr) + |ids| && SameContents()
      ensures Joined(old(q.info), ids, size, page, q.info)
    {
      hide Sound, Intact;
      PutInFront(page, size, ids);
    }

    /** buffer_init: an empty hash table, and a first page of buffers on the free list. */
    constructor (hash: Hash, sizeOf: int -> int, page: nat, size: int, ids: seq<int>, disk: Blocks)
      requires Fresh(map[], ids) && |ids| >= 2
      ensures this.disk == truth == disk
      ensures Inv() && procs == map[] && nr == |ids| && Joined(map[], ids, size, page, q.info)
      ensures this.hash == hash && this.sizeOf == sizeOf
    {
      this.hash, this.sizeOf := hash, sizeOf;
      q, l, procs, pages, nr := NoBuffers(), Lists([], map[]), map[], map[], 0;
      this.data, this.disk, truth := map[], disk, disk;
      new;
      NoneSound(hash, sizeOf);
      hide Sound;
      PutInFront(page, size, ids);
    }

    /** put_last_free, on any buffer, as shrink_buffers does with those in use. */
    method PutLastFree(b: int)
      requires Inv() && b in q.info
      modifies this
      ensures Inv() && procs == old(procs) && q.info == old(q.info) && SameContents()
      ensures l == old(l).(ring := Without(old(l.ring), b) + [b])
    {
      hide Good, Without, Intact;
      PutLastGood(q, l, hash, sizeOf, procs, pages, b);
      LastLength(l.ring, b, q, l, hash, sizeOf, procs, pages);
      q, l := PutLast(q, b), l.(ring := Without(l.ring, b) + [b]);
    }

    /** The first loop of try_to_free. */
    method AllIdle(group: seq<int>) returns (ok: bool)
      requires forall k :: 0 <= k < |group| ==> group[k] in q.info
      ensures ok == IdleAll(q.info, group)
    {
      var k: nat := 0;
      while k < |group|
        invariant k <= |group| && forall j :: 0 <= j < k ==> Idle(q.info[group[j]])
      {
        var i := q.info[group[k]];
        if i.count != 0 || i.dirt || i.lock { return false; }
        k := k + 1;
      }
      ok := true;
    }

    /** The first buffer of a page given back. */
    method FreeOne(page: nat, b: int, ghost group: seq<int>)
      requires Inv() && page in pages && pages[page] == group != [] && group[0] == b && nr >= 3
      requires b in q.info && Idle(q.info[b])
      modifies this
      ensures Inv() && procs == old(procs) && nr == old(nr) - 1 && SameContents()
      ensures q.info == old(q.info) - {b} && pages == old(pages)[page := group[1..]]
    {
      hide Good, Intact;
      FreeGood(q, l, hash, sizeOf, procs, pages, page, group);
      IntactLess(q.info, data, disk, truth, b);
      l := TakeOutLists(q, l, hash, b);
      q, pages, nr := TakeOut(q, hash, b), pages[page := pages[page][1..]], nr - 1;
    }

    /** try_to_free: a page none of whose buffers is in use given back. */
    method TryToFree(page: nat) returns (ok: bool)
      requires Inv() && page in pages && |l.ring| >= |pages[page]| + 2
      modifies this
      ensures Inv() && procs == old(procs) && SameContents()
      ensures ok == IdleAll(old(q.info), old(pages)[page])
      ensures if ok then pages == old(pages) - {page} && nr == old(nr) - |old(pages)[page]|
          else q == old(q) && pages == old(pages)
      ensures ok ==> q.info == Less(old(q.info), old(pages)[page])
    {
      hide Good, Intact, Less;
      var group := pages[page];
      PageIn(q, l, hash, sizeOf, procs, pages, page);
      ok := AllIdle(group);
      if !ok { return; }
      var k: nat := 0;
      LessNone(q.info);
      assert group[0..] == group && group[..0] == [];
      while k < |group|
        invariant k <= |group| && Inv() && procs == old(procs) && nr == old(nr) - k && SameContents()
        invariant page in pages && pages == old(pages)[page := group[k..]]
        invariant q.info == Less(old(q.info), group[..k])
      {
        LessHas(old(q.info), group, k);
        LessNext(old(q.info), group, k);
        assert group[k..][1..] == group[k + 1..];
        FreeOne(page, group[k], group[k..]);
        k := k + 1;
      }
      assert group[..k] == group;
      EmptyPage(q, l, hash, sizeOf, procs, pages, page);
      pages := pages - {page};
    }

    /** None of the blocks is a hole or cached. */
    method Missing(dev: int, blocks: seq<int>) returns (ok: bool)
      requires Inv()
      ensures ok == forall k :: 0 <= k < |blocks| ==> blocks[k] != 0 && !Cached(q.info, dev, blocks[k])
    {
      hide Good, Cached, Intact;
      var k: nat := 0;
      while k < |blocks|
        invariant k <= |blocks| && forall j :: 0 <= j < k ==> blocks[j] != 0 && !Cached(q.info, dev, blocks[j])
      {
        if blocks[k] == 0 { return false; }
        var b := FindBuffer(dev, blocks[k], sizeOf(dev));
        if b != NULL { return false; }
        k := k + 1;
      }
      ok := true;
    }

    /** A new buffer for a block that has none, held. */
    method LoadOne(dev: int, block: int, b: int, pid: nat, page: nat, ghost before: seq<int>)
      requires Inv() && dev != 0 && b != NULL && b !in q.info && pid !in procs && !Cached(q.info, dev, block)
      requires if page in pages then pages[page] == before else before == []
      modifies this
      ensures Inv() && nr == old(nr) + 1 && SameContents() && pages == old(pages)[page := before + [b]]
      ensures q.info == old(q.info)[b := Info(dev, block, sizeOf(dev), 1, false, false, false, page)]
      ensures procs == old(procs)[pid := Proc(Done, dev, block, b, NULL)]
    {
      hide Good, Cached, Intact, PutIn;
      var i := Info(dev, block, sizeOf(dev), 1, false, false, false, page);
      var p := Proc(Done, dev, block, b, NULL);
      LoadGood(q, l, hash, sizeOf, procs, pages, b, i, before, pid, p);
      IntactGiven(q.info, data, disk, truth, b, i);
      q, l := PutIn(q, hash, b, i), PutInLists(l, hash, b, i);
      procs, pages, nr := procs[pid := p], pages[page := (if page in pages then pages[page] else []) + [b]], nr + 1;
    }

    /** try_to_load_aligned: if none of the blocks is cached, a page of buffers for all of them, each held. */
    method LoadAligned(dev: int, blocks: seq<int>, ids: seq<int>, pids: seq<nat>, page: nat) returns (ok: bool)
      requires Inv() && page !in pages && dev != 0 && |blocks| == |ids| == |pids| > 0
      requires Distinct(ids) && (forall k :: 0 <= k < |ids| ==> ids[k] != NULL && ids[k] !in q.info)
      requires Distinct(blocks) && (forall i, j :: 0 <= i < j < |pids| ==> pids[i] != pids[j])
      requires forall k :: 0 <= k < |pids| ==> pids[k] !in procs
      modifies this
      ensures Inv() && ok == forall k :: 0 <= k < |blocks| ==> blocks[k] != 0 && !Cached(old(q.info), dev, blocks[k])
      ensures if ok then nr == old(nr) + |ids| else q == old(q) && procs == old(procs)
      ensures SameContents()
      ensures ok ==>
        forall k: nat :: k < |ids| ==> LoadedAt(q.info, procs, sizeOf(dev), dev, blocks, ids, pids, page, k)
    {
      hide Good, Cached, Intact;
      ok := Missing(dev, blocks);
      if !ok { return; }
      var k: nat := 0;
      while k < |blocks|
        invariant k <= |ids| && Inv() && nr == old(nr) + k && SameContents()
        invariant forall j ::
          k <= j < |ids| ==> ids[j] !in q.info && pids[j] !in procs && !Cached(q.info, dev, blocks[j])
        invariant (page in pages <==> k > 0) && (k > 0 ==> pages[page] == ids[..k])
        invariant forall j: nat :: j < k ==> LoadedAt(q.info, procs, sizeOf(dev), dev, blocks, ids, pids, page, j)
      {
        var b, was := ids[k], q.info;
        ghost var ps := procs;
        assert ids[..k + 1] == ids[..k] + [b];
        LoadOne(dev, blocks[k], b, pids[k], page, ids[..k]);
        forall j | k < j < |ids| ensures ids[j] !in q.info && !Cached(q.info, dev, blocks[j]) {
          NotCached(was, b, q.info[b], dev, blocks[j]);
        }
        forall j: nat | j <= k ensures LoadedAt(q.info, procs, sizeOf(dev), dev, blocks, ids, pids, page, j) {
          if j < k { LoadedStill(was, ps, q.info, procs, sizeOf(dev), dev, blocks, ids, pids, page, j, k); }
        }
        k := k + 1;
      }
    }
  }

  /** Buffer `k` of a page has its block and is held by a process that asked for that. */
  ghost predicate LoadedAt(info: map<int, Info>, procs: Procs, size: int, dev: int, blocks: seq<int>, ids: seq<int>,
      pids: seq<nat>, page: nat, k: nat)
    requires k < |blocks| == |ids| == |pids|
  {
    && pids[k] in procs && procs[pids[k]] == Proc(Done, dev, blocks[k], ids[k], NULL)
    && ids[k] in info && info[ids[k]] == Info(dev, blocks[k], size, 1, false, false, false, page)
  }

  lemma LoadedStill(info: map<int, Info>, procs: Procs, info': map<int, Info>, procs': Procs, size: int, dev: int,
      blocks: seq<int>, ids: seq<int>, pids: seq<nat>, page: nat, j: nat, k: nat)
    requires j < k < |blocks| == |ids| == |pids| && ids[k] !in info && pids[k] !in procs
    requires LoadedAt(info, procs, size, dev, blocks, ids, pids, page, j)
    requires ids[k] in info' && info' == info[ids[k] := info'[ids[k]]]
    requires pids[k] in procs' && procs' == procs[pids[k] := procs'[pids[k]]]
    ensures LoadedAt(info', procs', size, dev, blocks, ids, pids, page, j)
  {
  }

  /** The buffers of a new page, of no device and unused, beside the old ones. */
  ghost predicate Joined(info: map<int, Info>, ids: seq<int>, size: int, page: nat, info': map<int, Info>) {
    && (forall b :: b in info' <==> b in info || b in ids)
    && (forall b :: b in info ==> b in ids || info'[b] == info[b])
    && forall b :: b in ids ==> info'[b] == Info(0, 0, size, 0, false, false, false, page)
  }

  lemma JoinedNone(info: map<int, Info>, size: int, page: nat)
    ensures Joined(info, [], size, page, info)
  {
  }

  lemma JoinedNext(info: map<int, Info>, ids: seq<int>, k: nat, size: int, page: nat, info': map<int, Info>)
    requires k < |ids| && Fresh(info, ids) && Joined(info, ids[..k], size, page, info')
    ensures ids[k] !in info' && ids[k] != NULL
    ensures Joined(info, ids[..k + 1], size, page, info'[ids[k] := Info(0, 0, size, 0, false, false, false, page)])
  {
    assert ids[..k + 1] == ids[..k] + [ids[k]];
    assert ids[k] !in ids[..k];
  }

  /** Buffers without some of them. */
  ghost function Less(info: map<int, Info>, ids: seq<int>): map<int, Info> {
    map b | b in info && b !in ids :: info[b]
  }

  lemma LessNone(info: map<int, Info>)
    ensures Less(info, []) == info
  {
  }

  lemma LessHas(info: map<int, Info>, ids: seq<int>, k: nat)
    requires k < |ids| && Distinct(ids) && ids[k] in info
    ensures ids[k] in Less(info, ids[..k]) && Less(info, ids[..k])[ids[k]] == info[ids[k]]
  {
  }

  lemma LessNext(info: map<int, Info>, ids: seq<int>, k: nat)
    requires k < |ids|
    ensures Less(info, ids[..k]) - {ids[k]} == Less(info, ids[..k + 1])
  {
    assert ids[..k + 1] == ids[..k] + [ids[k]];
  }

  ghost predicate Idle(i: Info) {
    i.count == 0 && !i.dirt && !i.lock
  }

  /** None of the buffers of a page is in use, dirty or locked. */
  ghost predicate IdleAll(info: map<int, Info>, group: seq<int>) {
    forall k :: 0 <= k < |group| && group[k] in info ==> Idle(info[group[k]])
  }

  lemma NotCached(info: map<int, Info>, b: int, i: Info, dev: int, block: int)
    requires !Cached(info, dev, block) && i.block != block
    ensures !Cached(info[b := i], dev, block)
  {
  }

  /** The page list with a buffer added. */
  lemma PagedNew(info: map<int, Info>, pages: map<nat, seq<int>>, b: int, i: Info, before: seq<int>)
    requires Paged(info, pages) && b !in info && (if i.page in pages then pages[i.page] == before else before == [])
    ensures Paged(info[b := i], pages[i.page := before + [b]])
  {
    var info', pages' := info[b := i], pages[i.page := before + [b]];
    assert forall x :: x in before ==> OnPage(pages, i.page, x);
    assert b !in before;
    assert Distinct(before + [b]);
    forall p: nat, x: int | OnPage(pages', p, x)
      ensures x in info' && info'[x].page == p
    {
      assert OnPage(pages, p, x) || (p == i.page && x == b);
    }
    forall x | x in info' ensures OnPage(pages', info'[x].page, x) { assert x != b ==> OnPage(pages, info[x].page, x); }
  }

  /** A buffer that nobody can know of yet. */
  lemma CountedNew(info: map<int, Info>, procs: Procs, b: int, i: Info)
    requires Counted(info, procs) && b !in info && b != NULL && i.count == 0
    ensures Counted(info[b := i], procs)
  {
    assert Holders(procs, b) == {} by {
      forall pid: nat, slot: nat ensures Claim(procs, pid, slot) != b { }
    }
  }

  /** No buffers at all. */
  function NoBuffers(): Queues {
    Queues(map[], map[], map[], map[], map[], map[], NULL)
  }

  lemma NoneSound(hash: Hash, sizeOf: int -> int)
    ensures Sound(NoBuffers(), Lists([], map[]), hash, sizeOf, map[], map[])
  {
  }

  lemma GrowSound(q: Queues, l: Lists, hash: Hash, sizeOf: int -> int, procs: Procs,
      pages: map<nat, seq<int>>, b: int, i: Info, before: seq<int>)
    requires Sound(q, l, hash, sizeOf, procs, pages) && b !in q.info && b != NULL && i.dev == 0 && i.count == 0
    requires if i.page in pages then pages[i.page] == before else before == []
    ensures q.first != NULL ==> q.first in q.pf
    ensures Sound(Grown(q, b, i), l.(ring := [b] + l.ring), hash, sizeOf, procs, pages[i.page := before + [b]])
    ensures Grown(q, b, i).info == q.info[b := i]
  {
    hide Ok, Counted, Paged;
    GrownOk(q, l, hash, b, i);
    CountedNew(q.info, procs, b, i);
    PagedNew(q.info, pages, b, i, before);
    GrowServed(q.info, sizeOf, procs, b, i);
  }

  lemma GrowServed(info: map<int, Info>, sizeOf: int -> int, procs: Procs, b: int, i: Info)
    requires Served(info, sizeOf, procs) && b !in info
    ensures Served(info[b := i], sizeOf, procs)
  {
    forall p | p in procs ensures Serves(info[b := i], sizeOf, procs[p]) { assert Serves(info, sizeOf, procs[p]); }
  }

  lemma LoadGood(q: Queues, l: Lists, hash: Hash, sizeOf: int -> int, procs: Procs,
      pages: map<nat, seq<int>>, b: int, i: Info, before: seq<int>, pid: nat, p: Proc)
    requires Good(q, l, hash, sizeOf, procs, pages) && b !in q.info && b != NULL && i.count == 1 && pid !in procs
    requires i.dev != 0 && i.size == sizeOf(i.dev) && !Cached(q.info, i.dev, i.block)
    requires p == Proc(Done, i.dev, i.block, b, NULL)
    requires if i.page in pages then pages[i.page] == before else before == []
    ensures CanPut(q, b) && PutIn(q, hash, b, i).info == q.info[b := i]
    ensures Good(PutIn(q, hash, b, i), PutInLists(l, hash, b, i), hash, sizeOf, procs[pid := p],
        pages[i.page := before + [b]])
  {
    NullOut(q, l, hash);
    PutInOk(q, l, hash, b, i);
    hide Ok, Counted, Paged, Cached;
    CountedNew(q.info, procs, b, i.(count := 0));
    LoadCounted(q.info, procs, b, i, pid, p);
    PagedNew(q.info, pages, b, i, before);
    UniqueNew(q.info, b, i);
    GrowServed(q.info, sizeOf, procs, b, i);
  }

  lemma LoadCounted(info: map<int, Info>, procs: Procs, b: int, i: Info, pid: nat, p: Proc)
    requires Counted(info[b := i.(count := 0)], procs) && NULL !in info && b != NULL && pid !in procs && i.count == 1
    requires p == Proc(Done, i.dev, i.block, b, NULL)
    ensures Counted(info[b := i], procs[pid := p])
  {
    hide Holders;
    var info0, procs' := info[b := i.(count := 0)], procs[pid := p];
    forall x | x in info0 ensures info[b := i][x].count == |Holders(procs', x)| { ClaimsMoved(procs, procs', pid, x); }
    forall p: nat, slot: nat | Claim(procs', p, slot) != NULL ensures Claim(procs', p, slot) in info0 {
      if p != pid { assert Claim(procs, p, slot) == Claim(procs', p, slot); }
    }
  }

  lemma PageIn(q: Queues, l: Lists, hash: Hash, sizeOf: int -> int, procs: Procs, pages: map<nat, seq<int>>, page: nat)
    requires Good(q, l, hash, sizeOf, procs, pages) && page in pages
    ensures forall k :: 0 <= k < |pages[page]| ==> pages[page][k] in q.info
    ensures Distinct(pages[page]) && |l.ring| >= 2
  {
    hide Ok, Counted;
    assert forall k :: 0 <= k < |pages[page]| ==> OnPage(pages, page, pages[page][k]);
  }

  lemma FreeGood(q: Queues, l: Lists, hash: Hash, sizeOf: int -> int, procs: Procs,
      pages: map<nat, seq<int>>, page: nat, group: seq<int>)
    requires Good(q, l, hash, sizeOf, procs, pages) && page in pages && pages[page] == group != [] && |l.ring| >= 3
    requires group[0] in q.info && q.info[group[0]].count == 0
    ensures CanTake(q, group[0]) && TakeOut(q, hash, group[0]).info == q.info - {group[0]}
    ensures Good(TakeOut(q, hash, group[0]), TakeOutLists(q, l, hash, group[0]), hash, sizeOf, procs,
        pages[page := group[1..]])
    ensures |TakeOutLists(q, l, hash, group[0]).ring| == |l.ring| - 1
  {
    var b := group[0];
    RingDistinct(q, l);
    TakeOutOk(q, l, hash, b);
    WithoutIn(l.ring, b);
    assert b in l.ring;
    hide Ok, Counted, Paged, Without;
    FreePaged(q.info, pages, page, group);
    FreeCounted(q.info, sizeOf, procs, b);
  }

  lemma FreePaged(info: map<int, Info>, pages: map<nat, seq<int>>, page: nat, group: seq<int>)
    requires Paged(info, pages) && page in pages && pages[page] == group != []
    ensures Paged(info - {group[0]}, pages[page := group[1..]])
  {
    assert forall x :: x in group <==> x == group[0] || x in group[1..];
    assert OnPage(pages, page, group[0]);
    var pages' := pages[page := group[1..]];
    forall p: nat, b: int | OnPage(pages', p, b)
      ensures b in info - {group[0]} && info[b].page == p
    {
      assert OnPage(pages, p, b);
    }
  }

  /** A buffer without claims goes unnoticed. */
  lemma FreeCounted(info: map<int, Info>, sizeOf: int -> int, procs: Procs, b: int)
    requires Counted(info, procs) && Served(info, sizeOf, procs) && b in info && info[b].count == 0
    ensures Counted(info - {b}, procs) && Served(info - {b}, sizeOf, procs)
  {
    hide Holders;
    forall pid: nat, slot: nat | Claim(procs, pid, slot) != NULL ensures Claim(procs, pid, slot) in info - {b} {
      ClaimCounts(procs, pid, slot);
    }
    forall pid | pid in procs ensures Serves(info - {b}, sizeOf, procs[pid]) {
      assert Serves(info, sizeOf, procs[pid]) && PcOk(procs[pid]) && Claim(procs, pid, 0) == procs[pid].hold;
    }
  }

  lemma EmptyPage(q: Queues, l: Lists, hash: Hash, sizeOf: int -> int, procs: Procs,
      pages: map<nat, seq<int>>, page: nat)
    requires Good(q, l, hash, sizeOf, procs, pages) && page in pages && pages[page] == []
    ensures Good(q, l, hash, sizeOf, procs, pages - {page})
  {
    hide Ok, Counted, Unique, Sized, Served;
    var pages' := pages - {page};
    forall p: nat, b: int | OnPage(pages', p, b)
      ensures b in q.info && q.info[b].page == p
    {
      assert OnPage(pages, p, b);
    }
    forall b | b in q.info ensures OnPage(pages', q.info[b].page, b) { assert OnPage(pages, q.info[b].page, b); }
  }

  ghost predicate Eligible(i: Info, size: int, shared: set<nat>) {
    i.count == 0 && i.size == size && i.page !in shared
  }

  function Badness(i: Info): int {
    (if i.dirt then 2 else 0) + if i.lock then 1 else 0
  }

  /** Every free buffer before it on the ring is worse. */
  ghost predicate BestAt(info: map<int, Info>, ring: seq<int>, at: nat, size: int, shared: set<nat>)
    requires at < |ring|
  {
    forall k :: 0 <= k < at && ring[k] in info && ring[at] in info && Eligible(info[ring[k]], size, shared) ==>
      !NoBetter(info[ring[at]], info[ring[k]])
  }

  ghost predicate FirstBest(info: map<int, Info>, ring: seq<int>, b: int, size: int, shared: set<nat>) {
    exists at: nat :: at < |ring| && ring[at] == b && BestAt(info, ring, at, size, shared)
  }

  lemma BetterThanAll(info: map<int, Info>, ring: seq<int>, b: int, n: nat, size: int, shared: set<nat>)
    requires n < |ring| && ring[n] in info
    requires b == NULL || (b in info && Badness(info[ring[n]]) < Badness(info[b]))
    requires forall k :: 0 <= k < n && ring[k] in info && Eligible(info[ring[k]], size, shared) ==>
      b != NULL && b in info && Badness(info[b]) <= Badness(info[ring[k]])
    ensures BestAt(info, ring, n, size, shared)
  {
    forall k | 0 <= k < n && ring[k] in info && Eligible(info[ring[k]], size, shared)
      ensures !NoBetter(info[ring[n]], info[ring[k]])
    {
      BadnessOrder(info[ring[n]], info[ring[k]]);
    }
  }

  /** Clean before dirty, and among these unlocked before locked. */
  ghost predicate NoBetter(i: Info, best: Info) {
    (best.dirt ==> i.dirt) && (best.lock && i.dirt == best.dirt ==> i.lock)
  }

  lemma BadnessOrder(i: Info, best: Info)
    ensures Badness(best) <= Badness(i) <==> NoBetter(i, best)
  {
  }

  lemma BadnessNat(i: Info)
    ensures Badness(i) >= 0
  {
  }

  lemma ReassignLength(q: Queues, l: Lists, hash: Hash, sizeOf: int -> int, procs: Procs,
      pages: map<nat, seq<int>>, b: int, i: Info)
    requires Good(q, l, hash, sizeOf, procs, pages) && b in q.info
    ensures |ReassignedLists(q, l, hash, b, i).ring| == |l.ring|
  {
    hide Ok, Counted, ReassignedLists;
    ReassignOk(q, l, hash, b, i);
  }

  lemma LastLength(r: seq<int>, b: int, q: Queues, l: Lists, hash: Hash,
      sizeOf: int -> int, procs: Procs, pages: map<nat, seq<int>>)
    requires Good(q, l, hash, sizeOf, procs, pages) && b in q.info && r == l.ring
    ensures |Without(r, b) + [b]| == |r|
  {
    hide Counted, Without;
    RingDistinct(q, l);
    WithoutIn(r, b);
  }

  /** A process moves with claims on one buffer. */
  lemma RecountOne(info: map<int, Info>, procs: Procs, pid: nat, p: Proc, b: int, n: int)
    requires b in info && NULL !in info && pid in procs && info[b].count + n >= 0
    requires {p.hold, p.wait, procs[pid].hold, procs[pid].wait} <= {NULL, b}
    requires n == One(p.hold == b) + One(p.wait == b) - One(procs[pid].hold == b) - One(procs[pid].wait == b)
    ensures Recounted(info, info[b := info[b].(count := info[b].count + n)], procs, procs[pid := p], pid)
  {
    assert p.hold in {NULL, b} && p.wait in {NULL, b} && procs[pid].hold in {NULL, b} && procs[pid].wait in {NULL, b};
    assert info[b := info[b].(count := info[b].count + n)].Keys == info.Keys;
  }

  /** What a process claims is in use, and counted. */
  lemma Placed(q: Queues, l: Lists, hash: Hash, sizeOf: int -> int, procs: Procs, pages: map<nat, seq<int>>, pid: nat)
    requires Good(q, l, hash, sizeOf, procs, pages) && pid in procs
    ensures NULL !in q.info
    ensures var p := procs[pid];
      && PcOk(p)
      && (p.hold != NULL ==> p.hold in q.info && q.info[p.hold].count >= 1)
      && (p.wait != NULL ==> p.wait in q.info && q.info[p.wait].count >= 1)
      && (p.hold == p.wait != NULL ==> q.info[p.hold].count >= 2)
      && Serves(q.info, sizeOf, p)
  {
    NullOut(q, l, hash);
    hide Ok, Holders;
    var p := procs[pid];
    assert Claim(procs, pid, 0) == p.hold && Claim(procs, pid, 1) == p.wait;
    if p.hold != NULL { ClaimCounts(procs, pid, 0); }
    if p.wait != NULL { ClaimCounts(procs, pid, 1); }
    if p.hold == p.wait != NULL { TwoClaims(procs, pid); }
  }

  lemma TwoClaims(procs: Procs, pid: nat)
    requires pid in procs && procs[pid].hold == procs[pid].wait
    ensures |Holders(procs, procs[pid].hold)| >= 2
  {
    hide Holders;
    var b := procs[pid].hold;
    HoldersIn(procs, b, pid, 0);
    HoldersIn(procs, b, pid, 1);
    var r := Holders(procs, b);
    assert |r - {(pid, 0)}| == |r| - 1 && (pid, 1) in r - {(pid, 0)};
  }

  // ---------------------------------------------------------------- any run

  /** A step of one process, or something the rest of the kernel does to the cache. */
  datatype Event =
    | Go(pid: nat, shared: set<nat>)
    | Ask(pid: nat, dev: int, block: int)
    | Write(pid: nat, v: Bytes)
    | ReadBegins(b: int)
    | ReadEnds(b: int)
    | WriteBegins(b: int)
    | WriteEnds(b: int, v: Bytes)
    | IoFails(b: int, v: Bytes)
    | GiveUp(b: int)
    | MorePages(page: nat, size: int, ids: seq<int>)
    | Shrink(page: nat)
    | Last(b: int)
    | Aligned(dev: int, blocks: seq<int>, ids: seq<int>, pids: seq<nat>, page: nat)

  predicate Fresh(info: map<int, Info>, ids: seq<int>) {
    Distinct(ids) && forall k :: 0 <= k < |ids| ==> ids[k] != NULL && ids[k] !in info
  }

  predicate NewPids(procs: Procs, pids: seq<nat>) {
    (forall i, j :: 0 <= i < j < |pids| ==> pids[i] != pids[j]) && forall k :: 0 <= k < |pids| ==> pids[k] !in procs
  }

  /** What a block is to be from now on: by a process, or because a transfer failed or the medium was changed. */
  datatype Written = Written(dev: int, block: int, v: Bytes, writer: Option<nat>)

  /** The last that was written to a block. */
  ghost function Latest(first: Bytes, log: seq<Written>, dev: int, block: int): Bytes {
    if log == [] then first
    else
      var w := log[|log| - 1];
      if w.dev == dev && w.block == block then w.v else Latest(first, log[..|log| - 1], dev, block)
  }

  /** Every block is to be what was last written to it. */
  ghost predicate Follows(truth: Blocks, log: seq<Written>, truth': Blocks) {
    forall dev: int, block: int | dev != 0 ::
      BlockAt(truth', dev, block) == Latest(BlockAt(truth, dev, block), log, dev, block)
  }

  lemma FollowsNone(truth: Blocks, truth': Blocks)
    requires forall dev: int, block: int | dev != 0 :: BlockAt(truth', dev, block) == BlockAt(truth, dev, block)
    ensures Follows(truth, [], truth')
  {
  }

  lemma FollowsOne(truth: Blocks, w: Written)
    ensures Follows(truth, [w], truth[(w.dev, w.block) := w.v])
  {
    forall dev: int, block: int
      ensures Latest(BlockAt(truth, dev, block), [w], dev, block) == BlockAt(truth[(w.dev, w.block) := w.v], dev, block)
    {
      assert [w][..0] == [];
      assert Latest(BlockAt(truth, dev, block), [], dev, block) == BlockAt(truth, dev, block);
    }
  }

  lemma {:induction false} LatestConcat(first: Bytes, a: seq<Written>, b: seq<Written>, dev: int, block: int)
    ensures Latest(first, a + b, dev, block) == Latest(Latest(first, a, dev, block), b, dev, block)
  {
    if b == [] {
      assert a + b == a;
    } else {
      assert (a + b)[..|a + b| - 1] == a + b[..|b| - 1];
      LatestConcat(first, a, b[..|b| - 1], dev, block);
    }
  }

  lemma FollowsConcat(truth: Blocks, a: seq<Written>, truth1: Blocks, b: seq<Written>, truth2: Blocks)
    requires Follows(truth, a, truth1) && Follows(truth1, b, truth2)
    ensures Follows(truth, a + b, truth2)
  {
    hide Latest;
    forall dev: int, block: int | dev != 0
      ensures BlockAt(truth2, dev, block) == Latest(BlockAt(truth, dev, block), a + b, dev, block)
    {
      LatestConcat(BlockAt(truth, dev, block), a, b, dev, block);
    }
  }

  /** The process has a buffer, and nobody is reading into that. */
  ghost predicate CanWrite(procs: Procs, info: map<int, Info>, pid: nat) {
    && pid in procs && procs[pid].pc.Done? && procs[pid].hold in info
    && (info[procs[pid].hold].lock ==> info[procs[pid].hold].uptodate)
  }

  /** A failed transfer, a changed medium, or a late write of a buffer that one of these has hit. */
  ghost predicate Upsets(info: map<int, Info>, e: Event) {
    e.IoFails? || e.GiveUp? || (e.WriteEnds? && e.b in info && !info[e.b].uptodate)
  }

  lemma Lost(truth: Blocks, i: Info, v: Bytes) returns (w: seq<Written>)
    ensures w == [Written(i.dev, i.block, v, None)] && Follows(truth, w, truth[(i.dev, i.block) := v])
  {
    w := [Written(i.dev, i.block, v, None)];
    FollowsOne(truth, w[0]);
  }

  /** One event; a sleeping process whose buffer is still locked, or an event that cannot be, changes nothing. What a
      block is to be changes with a write by a process, and otherwise only when something fails. */
  method Step(c: Cache, e: Event) returns (ghost w: seq<Written>)
    requires c.Inv()
    modifies c
    ensures c.Inv() && Follows(old(c.truth), w, c.truth)
    ensures e.Write? && CanWrite(old(c.procs), old(c.q.info), e.pid) ==>
      w == [Written(old(c.procs)[e.pid].dev, old(c.procs)[e.pid].block, e.v, Some(e.pid))]
    ensures w != [] ==> e.Write? || Upsets(old(c.q.info), e)
    ensures forall k :: 0 <= k < |w| ==> w[k].writer == if e.Write? then Some(e.pid) else None
    ensures Transferred(old(c.q.info), old(c.data), e, c.q.info)
    ensures e.Go? && e.pid in old(c.procs) ==>
      e.pid in c.procs && Goes(old(c.q.info), c.sizeOf, old(c.procs)[e.pid], c.procs[e.pid])
  {
    hide Good, Intact, Follows;
    w := [];
    FollowsNone(c.truth, c.truth);
    match e {
      case Go(pid, shared) => if pid in c.procs { GoOn(c, pid, shared); }
      case Ask(pid, dev, block) => if pid !in c.procs || c.procs[pid].pc.Start? { c.Begin(pid, dev, block); }
      case Write(pid, v) =>
        if pid in c.procs && c.procs[pid].pc.Done? && c.procs[pid].hold in c.q.info
            && (c.q.info[c.procs[pid].hold].uptodate || !c.q.info[c.procs[pid].hold].lock) {
          w := [Written(c.procs[pid].dev, c.procs[pid].block, v, Some(pid))];
          FollowsOne(c.truth, w[0]);
          c.Modify(pid, v);
        }
      case MorePages(page, size, ids) => if page !in c.pages && Fresh(c.q.info, ids) { c.Grow(page, size, ids); }
      case Last(b) => if b in c.q.info { c.PutLastFree(b); }
      case Shrink(page) => if page in c.pages && c.nr >= |c.pages[page]| + 2 { var ok := c.TryToFree(page); }
      case Aligned(dev, blocks, ids, pids, page) =>
        if dev != 0 && |blocks| == |ids| == |pids| > 0 && page !in c.pages && Fresh(c.q.info, ids) && Distinct(blocks)
            && NewPids(c.procs, pids) {
          var ok := c.LoadAligned(dev, blocks, ids, pids, page);
        }
      case _ => w := Transfer(c, e);
    }
  }

  /** Where a process goes on from where it stands. */
  ghost predicate Goes(info: map<int, Info>, sizeOf: int -> int, p: Proc, p': Proc) {
    match p.pc
    case Start =>
      if Cached(info, p.dev, p.block) then p'.pc == if Unlocked(info, p'.hold) then Done else WaitHit else p'.pc.Scan?
    case WaitHit => p'.pc == AfterHit(info, p, sizeOf)
    case Scan => !p'.pc.Scan?
    case WaitVictim => p'.pc.WaitVictim? <==> !Unlocked(info, p.wait)
    case Starved => p'.pc.Start?
    case _ => p'.pc == if Unlocked(info, p.hold) then Start else Releasing
  }

  /** A process goes on from where it stands. */
  method GoOn(c: Cache, pid: nat, shared: set<nat>)
    requires c.Inv() && pid in c.procs
    modifies c
    ensures c.Inv() && c.truth == old(c.truth) && pid in c.procs
    ensures Goes(old(c.q.info), c.sizeOf, old(c.procs)[pid], c.procs[pid])
  {
    hide Good, Intact;
    match c.procs[pid].pc {
      case Start => c.LookUp(pid);
      case WaitHit => c.WakeHit(pid);
      case Scan => ghost var b := c.ScanStep(pid, shared);
      case WaitVictim => c.WakeVictim(pid);
      case Starved => Placed(c.q, c.l, c.hash, c.sizeOf, c.procs, c.pages, pid); c.Goto(pid, Start);
      case Done => c.Release(pid);
      case Releasing => c.WakeRelease(pid);
    }
  }

  /** What the devices do to the state of a buffer; transfers that cannot be change nothing. */
  ghost function Flags(i: Info, same: bool, e: Event): Info {
    match e
    case ReadBegins(_) => if i.lock || i.uptodate then i else i.(lock := true)
    case ReadEnds(_) => if i.lock && !i.uptodate then i.(lock := false, uptodate := true) else i
    case WriteBegins(_) => if i.lock || !i.dirt then i else i.(lock := true, dirt := false)
    case WriteEnds(_, _) => if i.lock && (i.dirt || same) then i.(lock := false, uptodate := true) else i
    case IoFails(_, _) => if i.lock then i.(lock := false, uptodate := false) else i
    case GiveUp(_) => i.(dirt := false, uptodate := false)
    case _ => i
  }

  ghost predicate Transferred(info: map<int, Info>, data: map<int, Bytes>, e: Event, info': map<int, Info>) {
    match e
    case ReadBegins(b) => OneChanged(info, b, false, e, info')
    case ReadEnds(b) => OneChanged(info, b, false, e, info')
    case WriteBegins(b) => OneChanged(info, b, false, e, info')
    case WriteEnds(b, v) => OneChanged(info, b, v == DataAt(data, b), e, info')
    case IoFails(b, _) => OneChanged(info, b, false, e, info')
    case GiveUp(b) => OneChanged(info, b, false, e, info')
    case _ => true
  }

  ghost predicate OneChanged(info: map<int, Info>, b: int, same: bool, e: Event, info': map<int, Info>) {
    info' == if b in info then info[b := Flags(info[b], same, e)] else info
  }

  /** What the devices do. */
  method Transfer(c: Cache, e: Event) returns (ghost w: seq<Written>)
    requires c.Inv() && !e.Write?
    modifies c
    ensures Transferred(old(c.q.info), old(c.data), e, c.q.info)
    ensures c.Inv() && Follows(old(c.truth), w, c.truth) && (w != [] ==> Upsets(old(c.q.info), e))
    ensures forall k :: 0 <= k < |w| ==> w[k].writer == None
  {
    hide Good, Intact, Follows;
    ghost var was := c.truth;
    FollowsNone(was, was);
    w := [];
    match e {
      case ReadBegins(b) => if b in c.q.info && !c.q.info[b].lock && !c.q.info[b].uptodate { c.StartRead(b); }
      case ReadEnds(b) => if b in c.q.info && c.q.info[b].lock && !c.q.info[b].uptodate { c.EndRead(b); }
      case WriteBegins(b) => if b in c.q.info && !c.q.info[b].lock && c.q.info[b].dirt { c.StartWrite(b); }
      case WriteEnds(b, v) =>
        if b in c.q.info && c.q.info[b].lock && (c.q.info[b].dirt || v == DataAt(c.data, b)) {
          ghost var i, x := c.q.info[b], DataAt(c.data, b);
          if i.dev != 0 { c.Known(b); }
          c.EndWrite(b, v);
          if i.uptodate { FollowsNone(was, c.truth); } else { w := Lost(was, i, x); }
        }
      case IoFails(b, v) =>
        if b in c.q.info && c.q.info[b].lock {
          w := Lost(was, c.q.info[b], v);
          c.Fail(b, v);
        }
      case GiveUp(b) =>
        if b in c.q.info {
          w := Lost(was, c.q.info[b], BlockAt(c.disk, c.q.info[b].dev, c.q.info[b].block));
          c.Invalidate(b);
        }
      case _ =>
    }
  }

  /** The invariant holds in every state that any interleaving of events can reach, and every block is to be what the
      log of writes says. */
  method Run(c: Cache, events: seq<Event>) returns (ghost log: seq<Written>)
    requires c.Inv()
    modifies c
    ensures c.Inv() && Follows(old(c.truth), log, c.truth)
  {
    hide Good, Intact, Follows;
    log := [];
    FollowsNone(c.truth, c.truth);
    for k := 0 to |events|
      invariant c.Inv() && Follows(old(c.truth), log, c.truth)
    {
      ghost var t := c.truth;
      ghost var w := Step(c, events[k]);
      FollowsConcat(old(c.truth), log, t, w, c.truth);
      log := log + w;
    }
  }

  /** A cache set up from nothing and used in any way: who reads a block through it finds what was last written. */
  method BootAndRun(hash: Hash, sizeOf: int -> int, page: nat, size: int, ids: seq<int>, disk: Blocks,
      events: seq<Event>)
    returns (c: Cache, ghost log: seq<Written>)
    requires Fresh(map[], ids) && |ids| >= 2
    ensures fresh(c) && c.Inv() && c.hash == hash && c.sizeOf == sizeOf
    ensures forall pid: nat :: pid in c.procs && Reads(c, pid) ==>
      DataAt(c.data, c.procs[pid].hold)
        == Latest(BlockAt(disk, c.procs[pid].dev, c.procs[pid].block), log, c.procs[pid].dev, c.procs[pid].block)
  {
    hide Good, Fresh, Intact;
    c := new Cache(hash, sizeOf, page, size, ids, disk);
    log := Run(c, events);
    forall pid: nat | pid in c.procs && Reads(c, pid)
      ensures DataAt(c.data, c.procs[pid].hold)
        == Latest(BlockAt(disk, c.procs[pid].dev, c.procs[pid].block), log, c.procs[pid].dev, c.procs[pid].block)
    {
      LastWritten(c, pid);
    }
  }

  /** The process holds an up-to-date buffer, as at the end of bread. */
  ghost predicate Reads(c: Cache, pid: nat)
    reads c
  {
    && pid in c.procs && c.procs[pid].pc.Done? && c.procs[pid].dev != 0
    && c.procs[pid].hold in c.q.info && c.q.info[c.procs[pid].hold].uptodate
  }

  lemma LastWritten(c: Cache, pid: nat)
    requires c.Inv() && Reads(c, pid)
    ensures DataAt(c.data, c.procs[pid].hold) == BlockAt(c.truth, c.procs[pid].dev, c.procs[pid].block)
  {
    hide Good, Intact;
    Placed(c.q, c.l, c.hash, c.sizeOf, c.procs, c.pages, pid);
    c.Known(c.procs[pid].hold);
  }

  /** What the invariant says: one buffer for a block, found on its chain; every buffer once on the ring; the served
      hold their blocks. */
  lemma Coherent(q: Queues, l: Lists, hash: Hash, sizeOf: int -> int, procs: Procs,
      pages: map<nat, seq<int>>, dev: int, block: int)
    requires Good(q, l, hash, sizeOf, procs, pages)
    ensures forall b, c ::
      b in q.info && c in q.info ==>
        q.info[b].dev == q.info[c].dev == dev != 0 && q.info[b].block == q.info[c].block == block ==> b == c
    ensures Cached(q.info, dev, block) <==>
      exists b :: b in ChainOf(l.chains, hash(dev, block)) && b in q.info && q.info[b].dev == dev
        && q.info[b].block == block
    ensures Distinct(l.ring) && forall b :: b in l.ring <==> b in q.info
    ensures forall p: nat ::
      p in procs && procs[p].pc.Done? && procs[p].dev == dev && procs[p].block == block ==>
        procs[p].hold in q.info && q.info[procs[p].hold].dev == dev && q.info[procs[p].hold].block == block
  {
    hide Ring, Counted, Paged;
    RingDistinct(q, l);
    var h := hash(dev, block);
    assert ChainOk(q, l, hash, h);
    if Cached(q.info, dev, block) {
      var b :| b in q.info && q.info[b].dev == dev != 0 && q.info[b].block == block;
      assert Filed(q, l, hash, b);
    }
    forall p: nat | p in procs ensures Serves(q.info, sizeOf, procs[p]) { }
  }
}

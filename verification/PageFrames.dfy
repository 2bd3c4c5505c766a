/** Page frames, their reference counts and the page tables kept in them (mm/memory.c, mm/swap.c). */
module PageFrames {
  import opened Basics

  const PTRS: nat := 1024       // entries of a page table or directory
  const PAGE_SIZE: nat := 4096

  /** A page table entry: nothing, or a present page with its write and copy-on-write bits. */
  datatype Pte = Empty | Present(page: nat, rw: bool, cow: bool)

  /** A directory entry: nothing, a table of this process, or a reserved table of the kernel. */
  datatype Dirent = NoTable | Own(table: nat) | Kernel(id: nat)

  /** What a page frame is used for. */
  datatype Frame = Unused | Page(bytes: seq<int>) | Table(entries: seq<Pte>) | Dir(slots: seq<Dirent>)

  /** What a process finds at a page of its space: the bytes, and whether it may write them. */
  datatype Cell = Cell(bytes: seq<int>, writable: bool)

  datatype Memory = Memory(frames: seq<Frame>, memMap: seq<nat>, free: seq<nat>)

  // ---------------------------------------------------------------- entries and their mappers

  /** Entry `j` of the table in frame `t`; frames that are no table have no entries. */
  function Entry(frames: seq<Frame>, t: nat, j: nat): Pte {
    if t < |frames| && frames[t].Table? && j < |frames[t].entries| then frames[t].entries[j] else Empty
  }

  predicate IsTable(frames: seq<Frame>, t: nat) {
    t < |frames| && frames[t].Table? && |frames[t].entries| == PTRS
  }

  function Put(frames: seq<Frame>, t: nat, j: nat, e: Pte): seq<Frame>
    requires IsTable(frames, t) && j < PTRS
  {
    frames[t := Table(frames[t].entries[j := e])]
  }

  predicate Maps(e: Pte, p: nat) {
    e.Present? && e.page == p
  }

  /** The entries that map page `p`. */
  ghost function Refs(frames: seq<Frame>, p: nat): set<(nat, nat)> {
    set t: nat, j: nat | t < |frames| && j < PTRS && Maps(Entry(frames, t, j), p) :: (t, j)
  }

  lemma RefsIn(frames: seq<Frame>, p: nat, t: nat, j: nat)
    ensures (t, j) in Refs(frames, p) <==> t < |frames| && j < PTRS && Maps(Entry(frames, t, j), p)
  {
  }

  /** How a change of one entry changes the number of mappers of a page. */
  lemma PutRefs(frames: seq<Frame>, t: nat, j: nat, e: Pte, p: nat)
    requires IsTable(frames, t) && j < PTRS
    ensures |Refs(Put(frames, t, j, e), p)| == |Refs(frames, p)| + One(Maps(e, p)) - One(Maps(Entry(frames, t, j), p))
  {
    hide Refs;
    var r, r' := Refs(frames, p), Refs(Put(frames, t, j, e), p);
    RefsIn(frames, p, t, j);
    forall t': nat, j': nat ensures (t', j') in r' <==> if (t', j') == (t, j) then Maps(e, p) else (t', j') in r {
      RefsIn(frames, p, t', j');
      RefsIn(Put(frames, t, j, e), p, t', j');
    }
    PairsOnly(r, r', (t, j), Maps(e, p));
  }

  /** Two memories with the same entries everywhere. */
  ghost predicate SameEntries(frames: seq<Frame>, frames': seq<Frame>) {
    |frames| == |frames'| && forall t: nat, j: nat :: Entry(frames, t, j) == Entry(frames', t, j)
  }

  lemma SameRefs(frames: seq<Frame>, frames': seq<Frame>, p: nat)
    requires SameEntries(frames, frames')
    ensures Refs(frames', p) == Refs(frames, p)
  {
  }

  lemma TwoMappers(frames: seq<Frame>, p: nat, t: nat, j: nat, t': nat, j': nat)
    requires Maps(Entry(frames, t, j), p) && Maps(Entry(frames, t', j'), p) && (t, j) != (t', j') && j < PTRS
    requires j' < PTRS
    ensures |Refs(frames, p)| >= 2
  {
    hide Refs;
    RefsIn(frames, p, t, j);
    RefsIn(frames, p, t', j');
    var r := Refs(frames, p);
    assert |r - {(t, j)}| == |r| - 1 && (t', j') in r - {(t, j)};
  }

  // ---------------------------------------------------------------- the invariant

  /** The free list holds each unused frame once. */
  ghost predicate FreeOk(m: Memory) {
    && Distinct(m.free)
    && (forall p :: p in m.free ==> p < |m.frames| && m.frames[p].Unused?)
    && (forall p :: 0 <= p < |m.frames| && m.frames[p].Unused? ==> p in m.free)
  }

  /** The reference count of a frame is what its use calls for. */
  ghost predicate FrameOk(m: Memory, reserved: set<nat>, p: nat)
    requires p < |m.frames| && p < |m.memMap|
  {
    && (p in reserved ==> m.frames[p].Page?)
    && match m.frames[p] {
         case Unused => m.memMap[p] == 0
         case Page(bytes) => |bytes| == PAGE_SIZE && (p in reserved || m.memMap[p] == |Refs(m.frames, p)| >= 1)
         case Table(entries) => |entries| == PTRS && m.memMap[p] == 1
         case Dir(slots) => |slots| == PTRS && m.memMap[p] == 1
       }
  }

  /** An entry maps a page; a writable one is copy-on-write and maps an ordinary page with one reference. */
  ghost predicate EntryOk(m: Memory, reserved: set<nat>, e: Pte) {
    e.Present? ==>
      && e.page < |m.frames| && e.page < |m.memMap| && m.frames[e.page].Page?
      && (e.rw ==> e.cow && e.page !in reserved && m.memMap[e.page] == 1)
  }

  ghost predicate Core(m: Memory, reserved: set<nat>) {
    && |m.memMap| == |m.frames|
    && FreeOk(m)
    && (forall p :: 0 <= p < |m.frames| ==> FrameOk(m, reserved, p))
    && (forall t: nat, j: nat :: EntryOk(m, reserved, Entry(m.frames, t, j)))
  }

  /** What an entry shows. */
  function CellOf(frames: seq<Frame>, e: Pte): Option<Cell> {
    if e.Present? && e.page < |frames| && frames[e.page].Page?
    then Some(Cell(frames[e.page].bytes, e.rw || e.cow)) else None
  }

  function CellAt(frames: seq<Frame>, t: nat, j: nat): Option<Cell> {
    CellOf(frames, Entry(frames, t, j))
  }

  /** Directories, and which frames are tables, are as before. */
  ghost predicate SameShape(frames: seq<Frame>, frames': seq<Frame>) {
    && |frames| == |frames'|
    && forall p :: 0 <= p < |frames| ==>
         (frames[p].Table? <==> frames'[p].Table?) && (frames[p].Dir? || frames'[p].Dir? ==> frames[p] == frames'[p])
  }

  // ---------------------------------------------------------------- free_page and get_free_page

  function Release(m: Memory, reserved: set<nat>, p: nat): Memory
    requires p < |m.frames| && p < |m.memMap|
  {
    if m.memMap[p] == 0 || p in reserved then m
    else if m.memMap[p] == 1 then Memory(m.frames[p := Unused], m.memMap[p := 0], [p] + m.free)
    else m.(memMap := m.memMap[p := m.memMap[p] - 1])
  }

  predicate HasFree(m: Memory) {
    m.free != [] && m.free[0] < |m.frames| && m.free[0] < |m.memMap|
  }

  /** The first free frame put to a use. */
  function Take(m: Memory, use: Frame): Memory
    requires HasFree(m)
  {
    Memory(m.frames[m.free[0] := use], m.memMap[m.free[0] := 1], m.free[1..])
  }

  lemma FreeFits(m: Memory, reserved: set<nat>)
    requires Core(m, reserved) && m.free != []
    ensures HasFree(m) && m.frames[m.free[0]].Unused? && m.free[0] !in reserved
  {
    hide Refs;
    assert m.free[0] in m.free;
    assert FrameOk(m, reserved, m.free[0]);
  }

  lemma TakeFree(m: Memory, use: Frame)
    requires FreeOk(m) && HasFree(m) && !use.Unused?
    ensures FreeOk(Take(m, use))
  {
    assert forall q :: q in m.free <==> q == m.free[0] || q in m.free[1..];
    assert m.free[0] !in m.free[1..];
  }

  lemma ReleaseFree(m: Memory, reserved: set<nat>, p: nat)
    requires FreeOk(m) && p < |m.frames| && p < |m.memMap| && !m.frames[p].Unused?
    ensures FreeOk(Release(m, reserved, p))
  {
    assert forall q :: q in [p] + m.free <==> q == p || q in m.free;
    forall i | 0 <= i < |m.free| ensures m.free[i] != p { assert m.free[i] in m.free; }
  }

  // ---------------------------------------------------------------- an entry cleared

  /** A present entry cleared and its page released. */
  function Drop(m: Memory, reserved: set<nat>, t: nat, j: nat): Memory
    requires CanDrop(m, t, j)
  {
    Release(m.(frames := Put(m.frames, t, j, Empty)), reserved, Entry(m.frames, t, j).page)
  }

  predicate CanDrop(m: Memory, t: nat, j: nat) {
    && |m.memMap| == |m.frames| && IsTable(m.frames, t) && j < PTRS
    && Entry(m.frames, t, j).Present? && Entry(m.frames, t, j).page < |m.frames| && Entry(m.frames, t, j).page != t
  }

  lemma EntryIsPage(m: Memory, reserved: set<nat>, t: nat, j: nat)
    requires Core(m, reserved) && Entry(m.frames, t, j).Present?
    ensures IsTable(m.frames, t) && j < PTRS && CanDrop(m, t, j) && m.frames[Entry(m.frames, t, j).page].Page?
  {
    hide Refs, Distinct;
    assert FrameOk(m, reserved, t);
    assert EntryOk(m, reserved, Entry(m.frames, t, j));
  }

  /** An entry is empty exactly when it shows nothing. */
  lemma NoCell(m: Memory, reserved: set<nat>, t: nat, j: nat)
    requires Core(m, reserved)
    ensures Entry(m.frames, t, j).Empty? <==> CellAt(m.frames, t, j).None?
  {
    hide Refs, Distinct;
    assert EntryOk(m, reserved, Entry(m.frames, t, j));
  }

  lemma TableFull(m: Memory, reserved: set<nat>, t: nat)
    requires Core(m, reserved) && t < |m.frames| && m.frames[t].Table?
    ensures IsTable(m.frames, t)
  {
    hide Refs, Distinct;
    assert FrameOk(m, reserved, t);
  }

  /** The entries after a drop: the page that may become unused is no table. */
  lemma DropEntry(m: Memory, reserved: set<nat>, t: nat, j: nat, t': nat, j': nat)
    requires CanDrop(m, t, j) && !m.frames[Entry(m.frames, t, j).page].Table?
    ensures Entry(Drop(m, reserved, t, j).frames, t', j') == if (t', j') == (t, j) then Empty
        else Entry(m.frames, t', j')
  {
  }

  lemma DropRefs(m: Memory, reserved: set<nat>, t: nat, j: nat, p: nat)
    requires CanDrop(m, t, j) && !m.frames[Entry(m.frames, t, j).page].Table?
    ensures |Refs(Drop(m, reserved, t, j).frames, p)| == |Refs(m.frames, p)| - One(Maps(Entry(m.frames, t, j), p))
  {
    hide Refs, Release;
    var f' := Put(m.frames, t, j, Empty);
    PutRefs(m.frames, t, j, Empty, p);
    assert SameEntries(f', Drop(m, reserved, t, j).frames) by { ReleaseEntries(m.(frames := f'), reserved,
        Entry(m.frames, t, j).page); }
    SameRefs(f', Drop(m, reserved, t, j).frames, p);
  }

  lemma ReleaseEntries(m: Memory, reserved: set<nat>, p: nat)
    requires p < |m.frames| && p < |m.memMap| && !m.frames[p].Table?
    ensures SameEntries(m.frames, Release(m, reserved, p).frames)
  {
  }

  lemma DropFrame(m: Memory, reserved: set<nat>, t: nat, j: nat, p: nat)
    requires Core(m, reserved) && CanDrop(m, t, j) && p < |m.frames|
    ensures FrameOk(Drop(m, reserved, t, j), reserved, p)
  {
    hide Refs, FreeOk, EntryOk;
    EntryIsPage(m, reserved, t, j);
    assert FrameOk(m, reserved, p);
    DropRefs(m, reserved, t, j, p);
  }

  lemma DropOk(m: Memory, reserved: set<nat>, t: nat, j: nat, t': nat, j': nat)
    requires Core(m, reserved) && CanDrop(m, t, j)
    ensures EntryOk(Drop(m, reserved, t, j), reserved, Entry(Drop(m, reserved, t, j).frames, t', j'))
    ensures (t', j') != (t, j) ==> CellAt(Drop(m, reserved, t, j).frames, t', j') == CellAt(m.frames, t', j')
  {
    hide Refs, FreeOk;
    EntryIsPage(m, reserved, t, j);
    DropEntry(m, reserved, t, j, t', j');
    var q, e := Entry(m.frames, t, j).page, Entry(m.frames, t', j');
    assert EntryOk(m, reserved, e) && FrameOk(m, reserved, q);
    if (t', j') != (t, j) && Maps(e, q) {
      EntryIsPage(m, reserved, t', j');
      TwoMappers(m.frames, q, t, j, t', j');
    }
  }

  lemma DropShape(m: Memory, reserved: set<nat>, t: nat, j: nat)
    requires Core(m, reserved) && CanDrop(m, t, j)
    ensures FreeOk(Drop(m, reserved, t, j)) && SameShape(m.frames, Drop(m, reserved, t, j).frames)
  {
    hide Refs;
    EntryIsPage(m, reserved, t, j);
    var m1 := m.(frames := Put(m.frames, t, j, Empty));
    assert FreeOk(m1);
    ReleaseFree(m1, reserved, Entry(m.frames, t, j).page);
  }

  /** Dropping an entry keeps the invariant and disturbs no other entry. */
  lemma DropCore(m: Memory, reserved: set<nat>, t: nat, j: nat)
    requires Core(m, reserved) && CanDrop(m, t, j)
    ensures Core(Drop(m, reserved, t, j), reserved) && SameShape(m.frames, Drop(m, reserved, t, j).frames)
    ensures forall t': nat, j': nat ::
      CellAt(Drop(m, reserved, t, j).frames, t', j') == if (t', j') == (t, j) then None else CellAt(m.frames, t', j')
  {
    hide Refs, FreeOk, EntryOk, FrameOk, SameShape;
    var m' := Drop(m, reserved, t, j);
    DropShape(m, reserved, t, j);
    EntryIsPage(m, reserved, t, j);
    forall p | 0 <= p < |m'.frames| ensures FrameOk(m', reserved, p) { DropFrame(m, reserved, t, j, p); }
    forall t': nat, j': nat
      ensures EntryOk(m', reserved, Entry(m'.frames, t', j'))
      ensures CellAt(m'.frames, t', j') == if (t', j') == (t, j) then None else CellAt(m.frames, t', j')
    {
      DropOk(m, reserved, t, j, t', j');
      DropEntry(m, reserved, t, j, t', j');
    }
  }

  // ---------------------------------------------------------------- an entry shared at fork

  /** The shared form of an entry: write permission on a copy-on-write page is taken away. */
  function Shared(e: Pte): Pte {
    if e.Present? && e.rw && e.cow then e.(rw := false) else e
  }

  predicate CanShare(m: Memory, o: nat, n: nat, j: nat) {
    && CanDrop(m, o, j) && IsTable(m.frames, n) && o != n && Entry(m.frames, n, j).Empty?
  }

  /** Entry `j` of table `o` copied to the empty entry `j` of table `n`. */
  function Share(m: Memory, reserved: set<nat>, o: nat, n: nat, j: nat): Memory
    requires CanShare(m, o, n, j)
  {
    var e := Shared(Entry(m.frames, o, j));
    var f1 := Put(m.frames, n, j, e);
    if e.page in reserved then m.(frames := f1)
    else m.(frames := Put(f1, o, j, e), memMap := m.memMap[e.page := m.memMap[e.page] + 1])
  }

  lemma ShareEntry(m: Memory, reserved: set<nat>, o: nat, n: nat, j: nat, t': nat, j': nat)
    requires CanShare(m, o, n, j)
    requires Entry(m.frames, o, j).page in reserved ==> !Entry(m.frames, o, j).rw
    ensures Entry(Share(m, reserved, o, n, j).frames, t', j')
         == if (t', j') in {(o, j), (n, j)} then Shared(Entry(m.frames, o, j)) else Entry(m.frames, t', j')
  {
  }

  lemma ShareRefs(m: Memory, reserved: set<nat>, o: nat, n: nat, j: nat, p: nat)
    requires CanShare(m, o, n, j)
    ensures |Refs(Share(m, reserved, o, n, j).frames, p)| == |Refs(m.frames, p)| + One(Maps(Entry(m.frames, o, j), p))
  {
    hide Refs;
    var e := Shared(Entry(m.frames, o, j));
    PutRefs(m.frames, n, j, e, p);
    PutRefs(Put(m.frames, n, j, e), o, j, e, p);
  }

  lemma ShareFrame(m: Memory, reserved: set<nat>, o: nat, n: nat, j: nat, p: nat)
    requires Core(m, reserved) && CanShare(m, o, n, j) && p < |m.frames|
    ensures FrameOk(Share(m, reserved, o, n, j), reserved, p)
  {
    hide Refs, FreeOk, EntryOk;
    EntryIsPage(m, reserved, o, j);
    assert FrameOk(m, reserved, p);
    ShareRefs(m, reserved, o, n, j, p);
  }

  lemma ShareOk(m: Memory, reserved: set<nat>, o: nat, n: nat, j: nat, t': nat, j': nat)
    requires Core(m, reserved) && CanShare(m, o, n, j)
    ensures EntryOk(Share(m, reserved, o, n, j), reserved, Entry(Share(m, reserved, o, n, j).frames, t', j'))
    ensures CellAt(Share(m, reserved, o, n, j).frames, t', j') == if (t', j') == (n, j) then CellAt(m.frames, o, j)
        else CellAt(m.frames, t', j')
  {
    hide Refs, FreeOk;
    EntryIsPage(m, reserved, o, j);
    var e, e' := Entry(m.frames, o, j), Entry(m.frames, t', j');
    assert EntryOk(m, reserved, e) && EntryOk(m, reserved, e') && FrameOk(m, reserved, e.page);
    ShareEntry(m, reserved, o, n, j, t', j');
    if (t', j') !in {(o, j), (n, j)} && Maps(e', e.page) {
      EntryIsPage(m, reserved, t', j');
      TwoMappers(m.frames, e.page, o, j, t', j');
    }
  }

  lemma ShareShape(m: Memory, reserved: set<nat>, o: nat, n: nat, j: nat)
    requires Core(m, reserved) && CanShare(m, o, n, j)
    ensures FreeOk(Share(m, reserved, o, n, j)) && SameShape(m.frames, Share(m, reserved, o, n, j).frames)
  {
    hide Refs, EntryOk, FrameOk;
  }

  /** Sharing shows the original's cell in the copy and changes no other. */
  lemma ShareCore(m: Memory, reserved: set<nat>, o: nat, n: nat, j: nat)
    requires Core(m, reserved) && CanShare(m, o, n, j)
    ensures Core(Share(m, reserved, o, n, j), reserved) && SameShape(m.frames, Share(m, reserved, o, n, j).frames)
    ensures forall t': nat, j': nat ::
      CellAt(Share(m, reserved, o, n, j).frames, t', j') == if (t', j') == (n, j) then CellAt(m.frames, o, j)
        else CellAt(m.frames, t', j')
  {
    hide Refs, FreeOk, EntryOk, FrameOk, SameShape;
    var m' := Share(m, reserved, o, n, j);
    ShareShape(m, reserved, o, n, j);
    forall p | 0 <= p < |m'.frames| ensures FrameOk(m', reserved, p) { ShareFrame(m, reserved, o, n, j, p); }
    forall t': nat, j': nat
      ensures EntryOk(m', reserved, Entry(m'.frames, t', j'))
      ensures CellAt(m'.frames, t', j') == if (t', j') == (n, j) then CellAt(m.frames, o, j)
          else CellAt(m.frames, t', j')
    {
      ShareOk(m, reserved, o, n, j, t', j');
    }
  }

  // ---------------------------------------------------------------- frames for tables and directories

  /** A frame whose contents map nothing. */
  predicate Blank(use: Frame) {
    match use
    case Unused => false
    case Page(_) => false
    case Table(entries) => |entries| == PTRS && forall j :: 0 <= j < PTRS ==> entries[j].Empty?
    case Dir(slots) => |slots| == PTRS
  }

  lemma TakeBlankFrame(m: Memory, reserved: set<nat>, use: Frame, p: nat)
    requires Core(m, reserved) && HasFree(m) && Blank(use) && p < |m.frames|
    ensures FrameOk(Take(m, use), reserved, p) && SameEntries(m.frames, Take(m, use).frames)
  {
    hide Refs;
    FreeFits(m, reserved);
    assert FrameOk(m, reserved, p);
    SameRefs(m.frames, Take(m, use).frames, p);
  }

  /** A blank table or directory in a new frame changes no entry. */
  lemma TakeBlank(m: Memory, reserved: set<nat>, use: Frame)
    requires Core(m, reserved) && HasFree(m) && Blank(use)
    ensures Core(Take(m, use), reserved) && m.frames[m.free[0]].Unused?
    ensures forall t: nat, j: nat :: CellAt(Take(m, use).frames, t, j) == CellAt(m.frames, t, j)
  {
    hide Refs, FrameOk;
    FreeFits(m, reserved);
    TakeFree(m, use);
    var m' := Take(m, use);
    forall p | 0 <= p < |m'.frames| ensures FrameOk(m', reserved, p) { TakeBlankFrame(m, reserved, use, p); }
    forall t: nat, j: nat
      ensures EntryOk(m', reserved, Entry(m'.frames, t, j)) && CellAt(m'.frames, t, j) == CellAt(m.frames, t, j)
    {
      TakeBlankFrame(m, reserved, use, m.free[0]);
      assert EntryOk(m, reserved, Entry(m.frames, t, j));
    }
  }

  lemma GiveBlankFrame(m: Memory, reserved: set<nat>, q: nat, p: nat)
    requires Core(m, reserved) && q < |m.frames| && Blank(m.frames[q]) && p < |m.frames|
    ensures FrameOk(Release(m, reserved, q), reserved, p) && SameEntries(m.frames, Release(m, reserved, q).frames)
  {
    hide Refs;
    assert FrameOk(m, reserved, p) && FrameOk(m, reserved, q);
    SameRefs(m.frames, Release(m, reserved, q).frames, p);
  }

  lemma GiveBlank(m: Memory, reserved: set<nat>, q: nat)
    requires Core(m, reserved) && q < |m.frames| && Blank(m.frames[q])
    ensures q < |m.memMap| && Core(Release(m, reserved, q), reserved)
    ensures Release(m, reserved, q).frames == m.frames[q := Unused]
    ensures forall t: nat, j: nat :: CellAt(Release(m, reserved, q).frames, t, j) == CellAt(m.frames, t, j)
  {
    hide Refs;
    assert FrameOk(m, reserved, q);
    ReleaseFree(m, reserved, q);
    GiveBlankEntries(m, reserved, q);
    var m' := Release(m, reserved, q);
    forall p | 0 <= p < |m'.frames| ensures FrameOk(m', reserved, p) { GiveBlankFrame(m, reserved, q, p); }
  }

  lemma GiveBlankEntries(m: Memory, reserved: set<nat>, q: nat)
    requires Core(m, reserved) && q < |m.frames| && Blank(m.frames[q])
    ensures forall t: nat, j: nat ::
      EntryOk(Release(m, reserved, q), reserved, Entry(Release(m, reserved, q).frames, t, j))
    ensures forall t: nat, j: nat :: CellAt(Release(m, reserved, q).frames, t, j) == CellAt(m.frames, t, j)
  {
    hide Refs, FreeOk;
    var m' := Release(m, reserved, q);
    GiveBlankFrame(m, reserved, q, q);
    forall t: nat, j: nat
      ensures EntryOk(m', reserved, Entry(m'.frames, t, j)) && CellAt(m'.frames, t, j) == CellAt(m.frames, t, j)
    {
      assert EntryOk(m, reserved, Entry(m.frames, t, j));
      assert FrameOk(m, reserved, q);
    }
  }

  // ---------------------------------------------------------------- a new page mapped

  function MapNew(m: Memory, t: nat, j: nat, bytes: seq<int>): Memory
    requires HasFree(m) && IsTable(m.frames, t) && j < PTRS && m.free[0] != t
  {
    var m1 := Take(m, Page(bytes));
    m1.(frames := Put(m1.frames, t, j, Present(m.free[0], true, true)))
  }

  predicate CanMap(m: Memory, t: nat, j: nat, bytes: seq<int>) {
    HasFree(m) && IsTable(m.frames, t) && j < PTRS && m.free[0] != t && Entry(m.frames, t, j).Empty?
      && |bytes| == PAGE_SIZE
  }

  lemma NoRefs(m: Memory, reserved: set<nat>, p: nat)
    requires Core(m, reserved) && p < |m.frames| && !m.frames[p].Page?
    ensures Refs(m.frames, p) == {}
  {
    hide FreeOk, FrameOk;
    forall t: nat, j: nat ensures !Maps(Entry(m.frames, t, j), p) {
      assert EntryOk(m, reserved, Entry(m.frames, t, j));
    }
  }

  lemma MapNewRefs(m: Memory, reserved: set<nat>, t: nat, j: nat, bytes: seq<int>, p: nat)
    requires Core(m, reserved) && CanMap(m, t, j, bytes)
    ensures |Refs(MapNew(m, t, j, bytes).frames, p)| == |Refs(m.frames, p)| + One(p == m.free[0])
  {
    hide Refs, FrameOk, EntryOk;
    FreeFits(m, reserved);
    var f1 := Take(m, Page(bytes)).frames;
    assert SameEntries(m.frames, f1);
    SameRefs(m.frames, f1, p);
    PutRefs(f1, t, j, Present(m.free[0], true, true), p);
  }

  lemma MapNewFrame(m: Memory, reserved: set<nat>, t: nat, j: nat, bytes: seq<int>, p: nat)
    requires Core(m, reserved) && CanMap(m, t, j, bytes) && p < |m.frames|
    ensures FrameOk(MapNew(m, t, j, bytes), reserved, p)
  {
    hide Refs, EntryOk;
    FreeFits(m, reserved);
    assert FrameOk(m, reserved, p);
    MapNewRefs(m, reserved, t, j, bytes, p);
    NoRefs(m, reserved, m.free[0]);
  }

  lemma MapNewOk(m: Memory, reserved: set<nat>, t: nat, j: nat, bytes: seq<int>, t': nat, j': nat)
    requires Core(m, reserved) && CanMap(m, t, j, bytes)
    ensures EntryOk(MapNew(m, t, j, bytes), reserved, Entry(MapNew(m, t, j, bytes).frames, t', j'))
    ensures CellAt(MapNew(m, t, j, bytes).frames, t', j') == if (t', j') == (t, j) then Some(Cell(bytes, true))
        else CellAt(m.frames, t', j')
  {
    hide Refs, FrameOk;
    FreeFits(m, reserved);
    assert EntryOk(m, reserved, Entry(m.frames, t', j'));
  }

  lemma MapNewShape(m: Memory, reserved: set<nat>, t: nat, j: nat, bytes: seq<int>)
    requires Core(m, reserved) && CanMap(m, t, j, bytes)
    ensures FreeOk(MapNew(m, t, j, bytes)) && SameShape(m.frames, MapNew(m, t, j, bytes).frames)
  {
    hide Refs, FrameOk, EntryOk;
    FreeFits(m, reserved);
    TakeFree(m, Page(bytes));
  }

  lemma MapNewCore(m: Memory, reserved: set<nat>, t: nat, j: nat, bytes: seq<int>)
    requires Core(m, reserved) && CanMap(m, t, j, bytes)
    ensures Core(MapNew(m, t, j, bytes), reserved) && SameShape(m.frames, MapNew(m, t, j, bytes).frames)
    ensures forall t': nat, j': nat ::
      CellAt(MapNew(m, t, j, bytes).frames, t', j') == if (t', j') == (t, j) then Some(Cell(bytes, true))
        else CellAt(m.frames, t', j')
  {
    hide Refs, FreeOk, EntryOk, FrameOk, SameShape;
    var m' := MapNew(m, t, j, bytes);
    MapNewShape(m, reserved, t, j, bytes);
    forall p | 0 <= p < |m'.frames| ensures FrameOk(m', reserved, p) { MapNewFrame(m, reserved, t, j, bytes, p); }
    forall t': nat, j': nat
      ensures EntryOk(m', reserved, Entry(m'.frames, t', j'))
      ensures CellAt(m'.frames, t', j') == if (t', j') == (t, j) then Some(Cell(bytes, true))
          else CellAt(m.frames, t', j')
    {
      MapNewOk(m, reserved, t, j, bytes, t', j');
    }
  }

  // ---------------------------------------------------------------- write permission and stores

  /** The page behind an entry has no other user. */
  predicate Sole(m: Memory, reserved: set<nat>, p: nat) {
    p < |m.memMap| && m.memMap[p] == 1 && p !in reserved
  }

  predicate CanGrant(m: Memory, reserved: set<nat>, t: nat, j: nat) {
    CanDrop(m, t, j) && Entry(m.frames, t, j).cow && Sole(m, reserved, Entry(m.frames, t, j).page)
  }

  function Grant(m: Memory, t: nat, j: nat): Memory
    requires CanDrop(m, t, j)
  {
    m.(frames := Put(m.frames, t, j, Entry(m.frames, t, j).(rw := true)))
  }

  lemma GrantFrame(m: Memory, reserved: set<nat>, t: nat, j: nat, p: nat)
    requires Core(m, reserved) && CanGrant(m, reserved, t, j) && p < |m.frames|
    ensures FrameOk(Grant(m, t, j), reserved, p)
  {
    hide Refs, EntryOk;
    assert FrameOk(m, reserved, p);
    PutRefs(m.frames, t, j, Entry(m.frames, t, j).(rw := true), p);
  }

  /** Making a sole mapper writable shows the same cells. */
  lemma GrantCore(m: Memory, reserved: set<nat>, t: nat, j: nat)
    requires Core(m, reserved) && CanGrant(m, reserved, t, j)
    ensures Core(Grant(m, t, j), reserved) && SameShape(m.frames, Grant(m, t, j).frames)
    ensures forall t': nat, j': nat :: CellAt(Grant(m, t, j).frames, t', j') == CellAt(m.frames, t', j')
  {
    hide Refs, FrameOk;
    var m' := Grant(m, t, j);
    forall p | 0 <= p < |m'.frames| ensures FrameOk(m', reserved, p) { GrantFrame(m, reserved, t, j, p); }
    forall t': nat, j': nat
      ensures EntryOk(m', reserved, Entry(m'.frames, t', j')) && CellAt(m'.frames, t', j') == CellAt(m.frames, t', j')
    {
      assert EntryOk(m, reserved, Entry(m.frames, t', j')) && EntryOk(m, reserved, Entry(m.frames, t, j));
    }
  }

  predicate CanStore(m: Memory, t: nat, j: nat, bytes: seq<int>) {
    CanDrop(m, t, j) && Entry(m.frames, t, j).rw && |bytes| == PAGE_SIZE
  }

  /** A store through a writable entry. */
  function Store(m: Memory, t: nat, j: nat, bytes: seq<int>): Memory
    requires CanDrop(m, t, j)
  {
    m.(frames := m.frames[Entry(m.frames, t, j).page := Page(bytes)])
  }

  lemma StoreFrame(m: Memory, reserved: set<nat>, t: nat, j: nat, bytes: seq<int>, p: nat)
    requires Core(m, reserved) && CanStore(m, t, j, bytes) && p < |m.frames|
    ensures FrameOk(Store(m, t, j, bytes), reserved, p) && SameEntries(m.frames, Store(m, t, j, bytes).frames)
  {
    hide Refs, EntryOk, FreeOk;
    EntryIsPage(m, reserved, t, j);
    assert FrameOk(m, reserved, p) && FrameOk(m, reserved, Entry(m.frames, t, j).page);
    SameRefs(m.frames, Store(m, t, j, bytes).frames, p);
  }

  lemma StoreOk(m: Memory, reserved: set<nat>, t: nat, j: nat, bytes: seq<int>, t': nat, j': nat)
    requires Core(m, reserved) && CanStore(m, t, j, bytes)
    ensures EntryOk(Store(m, t, j, bytes), reserved, Entry(Store(m, t, j, bytes).frames, t', j'))
    ensures CellAt(Store(m, t, j, bytes).frames, t', j') == if (t', j') == (t, j) then Some(Cell(bytes, true))
        else CellAt(m.frames, t', j')
  {
    hide Refs, FreeOk;
    EntryIsPage(m, reserved, t, j);
    StoreFrame(m, reserved, t, j, bytes, t);
    var q, e := Entry(m.frames, t, j).page, Entry(m.frames, t', j');
    assert EntryOk(m, reserved, e) && EntryOk(m, reserved, Entry(m.frames, t, j)) && FrameOk(m, reserved, q);
    if (t', j') != (t, j) && Maps(e, q) {
      EntryIsPage(m, reserved, t', j');
      TwoMappers(m.frames, q, t, j, t', j');
    }
  }

  /** A store is seen through its own entry only. */
  lemma StoreCore(m: Memory, reserved: set<nat>, t: nat, j: nat, bytes: seq<int>)
    requires Core(m, reserved) && CanStore(m, t, j, bytes)
    ensures Core(Store(m, t, j, bytes), reserved) && SameShape(m.frames, Store(m, t, j, bytes).frames)
    ensures forall t': nat, j': nat ::
      CellAt(Store(m, t, j, bytes).frames, t', j') == if (t', j') == (t, j) then Some(Cell(bytes, true))
        else CellAt(m.frames, t', j')
  {
    hide Refs, EntryOk, FrameOk;
    EntryIsPage(m, reserved, t, j);
    var m' := Store(m, t, j, bytes);
    forall p | 0 <= p < |m'.frames| ensures FrameOk(m', reserved, p) { StoreFrame(m, reserved, t, j, bytes, p); }
    forall t': nat, j': nat
      ensures EntryOk(m', reserved, Entry(m'.frames, t', j'))
      ensures CellAt(m'.frames, t', j') == if (t', j') == (t, j) then Some(Cell(bytes, true))
          else CellAt(m.frames, t', j')
    {
      StoreOk(m, reserved, t, j, bytes, t', j');
    }
  }

  // ---------------------------------------------------------------- copying a page on a write

  /** The write-protect copy: a new page with the same bytes mapped writable, the old page released. */
  function CopyUp(m: Memory, reserved: set<nat>, t: nat, j: nat): Memory
    requires CanCopy(m, t, j)
  {
    var was := Entry(m.frames, t, j).page;
    Release(MapNew(m, t, j, m.frames[was].bytes), reserved, was)
  }

  predicate CanCopy(m: Memory, t: nat, j: nat) {
    && CanDrop(m, t, j) && HasFree(m) && m.frames[Entry(m.frames, t, j).page].Page?
    && m.free[0] != t && m.free[0] != Entry(m.frames, t, j).page
  }

  /** Unless the page has one reference only, the copy is a drop followed by mapping a new page. */
  lemma CopyIsDropMap(m: Memory, reserved: set<nat>, t: nat, j: nat)
    requires Core(m, reserved) && CanCopy(m, t, j) && !Sole(m, reserved, Entry(m.frames, t, j).page)
    ensures var bytes := m.frames[Entry(m.frames, t, j).page].bytes;
      CanMap(Drop(m, reserved, t, j), t, j, bytes)
        && CopyUp(m, reserved, t, j) == MapNew(Drop(m, reserved, t, j), t, j, bytes)
  {
    hide Refs, EntryOk;
    var p := Entry(m.frames, t, j).page;
    assert FrameOk(m, reserved, p);
    assert m.frames[t].entries[j := Empty][j := Present(m.free[0], true, true)] ==
        m.frames[t].entries[j := Present(m.free[0], true, true)];
    assert CopyUp(m, reserved, t, j).frames == MapNew(Drop(m, reserved, t, j), t, j, m.frames[p].bytes).frames;
    assert CopyUp(m, reserved, t, j).memMap == MapNew(Drop(m, reserved, t, j), t, j, m.frames[p].bytes).memMap;
  }

  lemma CopyUpCore(m: Memory, reserved: set<nat>, t: nat, j: nat)
    requires Core(m, reserved) && CanCopy(m, t, j) && !Sole(m, reserved, Entry(m.frames, t, j).page)
    requires Entry(m.frames, t, j).cow
    ensures Core(CopyUp(m, reserved, t, j), reserved) && SameShape(m.frames, CopyUp(m, reserved, t, j).frames)
    ensures forall t': nat, j': nat :: CellAt(CopyUp(m, reserved, t, j).frames, t', j') == CellAt(m.frames, t', j')
  {
    hide Refs, Core, Drop, MapNew, CopyUp;
    CopyIsDropMap(m, reserved, t, j);
    DropCore(m, reserved, t, j);
    MapNewCore(Drop(m, reserved, t, j), reserved, t, j, m.frames[Entry(m.frames, t, j).page].bytes);
  }
}

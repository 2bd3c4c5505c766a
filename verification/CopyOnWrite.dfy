/** Copy-on-write fork, faults and exit (mm/memory.c) against copying every page at fork. */
module CopyOnWrite {
  import opened Basics
  import opened PageFrames
  import opened Ownership

  /** What directory `d` shows at entry `j` of its table `i`. */
  function Shows(frames: seq<Frame>, d: nat, i: nat, j: nat): Option<Cell> {
    if Slot(frames, d, i).Own? then CellAt(frames, Slot(frames, d, i).table, j) else None
  }

  /** Every directory but perhaps `d` has the slots and shows the cells it had. */
  ghost predicate OthersKept(frames: seq<Frame>, frames': seq<Frame>, d: nat) {
    && (forall d': nat, i: nat :: d' != d ==> Slot(frames', d', i) == Slot(frames, d', i))
    && (forall d': nat, i: nat, j: nat :: d' != d ==> Shows(frames', d', i, j) == Shows(frames, d', i, j))
  }

  /** In directory `d` nothing but perhaps slot `i` has changed. */
  ghost predicate SlotsKeptBut(frames: seq<Frame>, frames': seq<Frame>, d: nat, i: nat) {
    && (forall i': nat :: i' != i ==> Slot(frames', d, i') == Slot(frames, d, i'))
    && (forall i': nat, j: nat :: i' != i ==> Shows(frames', d, i', j) == Shows(frames, d, i', j))
  }

  /** Slot `i` of directory `d` is what slot `i` of `p` was: the kernel's tables shared, its own with equal cells. */
  ghost predicate Copied(frames: seq<Frame>, p: nat, frames': seq<Frame>, d: nat, i: nat) {
    && (Slot(frames', d, i).Own? <==> Slot(frames, p, i).Own?)
    && (Slot(frames, p, i).Own? || Slot(frames', d, i) == Slot(frames, p, i))
    && (forall j: nat :: Shows(frames', d, i, j) == Shows(frames, p, i, j))
  }

  /** Nothing a process can see has changed. */
  ghost predicate AllKept(frames: seq<Frame>, frames': seq<Frame>) {
    && (forall d: nat, i: nat :: Slot(frames', d, i) == Slot(frames, d, i))
    && (forall d: nat, i: nat, j: nat :: Shows(frames', d, i, j) == Shows(frames, d, i, j))
  }

  /** A table in nobody's directory may change without being seen. */
  lemma SpareUnseen(frames: seq<Frame>, frames': seq<Frame>, cr3: map<nat, nat>, spare: set<nat>, n: nat)
    requires Owned(frames, cr3, spare) && n in spare
    requires forall d: nat, i: nat :: Slot(frames', d, i) == Slot(frames, d, i)
    requires forall t: nat, j: nat :: t != n ==> CellAt(frames', t, j) == CellAt(frames, t, j)
    ensures AllKept(frames, frames')
  {
    hide CellAt, Slot;
  }

  lemma DirFull(m: Memory, reserved: set<nat>, d: nat)
    requires Core(m, reserved) && d < |m.frames| && m.frames[d].Dir?
    ensures IsDir(m.frames, d)
  {
    hide Refs, Distinct;
    assert FrameOk(m, reserved, d);
  }

  lemma SetSlotFrame(m: Memory, reserved: set<nat>, d: nat, i: nat, s: Dirent, p: nat)
    requires Core(m, reserved) && IsDir(m.frames, d) && i < PTRS && p < |m.frames|
    ensures SameEntries(m.frames, SetSlot(m.frames, d, i, s))
    ensures FrameOk(m.(frames := SetSlot(m.frames, d, i, s)), reserved, p)
  {
    hide Refs;
    assert FrameOk(m, reserved, p);
    SameRefs(m.frames, SetSlot(m.frames, d, i, s), p);
  }

  lemma SetSlotCore(m: Memory, reserved: set<nat>, d: nat, i: nat, s: Dirent)
    requires Core(m, reserved) && IsDir(m.frames, d) && i < PTRS
    ensures Core(m.(frames := SetSlot(m.frames, d, i, s)), reserved)
    ensures forall t: nat, j: nat :: CellAt(SetSlot(m.frames, d, i, s), t, j) == CellAt(m.frames, t, j)
  {
    hide Refs, FrameOk;
    var m' := m.(frames := SetSlot(m.frames, d, i, s));
    forall p | 0 <= p < |m'.frames| ensures FrameOk(m', reserved, p) { SetSlotFrame(m, reserved, d, i, s, p); }
    SetSlotFrame(m, reserved, d, i, s, d);
    forall t: nat, j: nat
      ensures EntryOk(m', reserved, Entry(m'.frames, t, j)) && CellAt(m'.frames, t, j) == CellAt(m.frames, t, j)
    {
      assert EntryOk(m, reserved, Entry(m.frames, t, j));
    }
  }

  /** Changing a slot is seen there and nowhere else. */
  lemma Relink(m: Memory, reserved: set<nat>, cr3: map<nat, nat>, spare: set<nat>, d: nat, i: nat, s: Dirent)
    requires Core(m, reserved) && Owned(m.frames, cr3, spare) && IsDir(m.frames, d) && i < PTRS
    requires s.Own? ==> s.table in spare && s.table < |m.frames| && m.frames[s.table].Table?
    ensures var f' := SetSlot(m.frames, d, i, s);
      && Core(m.(frames := f'), reserved) && Owned(f', cr3, spare + TableIn(Slot(m.frames, d, i)) - TableIn(s))
      && SlotsKeptBut(m.frames, f', d, i) && OthersKept(m.frames, f', d) && Slot(f', d, i) == s
      && forall j: nat :: Shows(f', d, i, j) == if s.Own? then CellAt(m.frames, s.table, j) else None
  {
    SetSlotCore(m, reserved, d, i, s);
    OwnedSlot(m.frames, cr3, spare, d, i, s);
    hide Core, Owned, CellAt, Slot, SetSlot;
  }

  lemma SameCells(frames: seq<Frame>, frames': seq<Frame>)
    requires forall d: nat, i: nat :: Slot(frames', d, i) == Slot(frames, d, i)
    requires forall t: nat, j: nat :: CellAt(frames', t, j) == CellAt(frames, t, j)
    ensures AllKept(frames, frames')
  {
    hide CellAt, Slot;
  }

  lemma SameCellsBut(frames: seq<Frame>, frames': seq<Frame>, d: nat)
    requires forall d': nat, i: nat :: d' != d ==> Slot(frames', d', i) == Slot(frames, d', i)
    requires forall t: nat, j: nat :: CellAt(frames', t, j) == CellAt(frames, t, j)
    ensures OthersKept(frames, frames', d)
  {
    hide CellAt, Slot;
  }

  lemma OwnTable(frames: seq<Frame>, cr3: map<nat, nat>, spare: set<nat>, d: nat, i: nat)
    requires Owned(frames, cr3, spare) && Slot(frames, d, i).Own?
    ensures var t := Slot(frames, d, i).table; t < |frames| && frames[t].Table? && t !in spare
  {
  }

  lemma ProcessDir(frames: seq<Frame>, cr3: map<nat, nat>, spare: set<nat>, pid: nat)
    requires Owned(frames, cr3, spare) && pid in cr3
    ensures cr3[pid] < |frames| && frames[cr3[pid]].Dir?
  {
  }

  lemma BlankCells(frames: seq<Frame>, t: nat)
    requires IsTable(frames, t) && Blank(frames[t])
    ensures forall j: nat :: CellAt(frames, t, j).None?
  {
  }

  lemma OutsideTable(frames: seq<Frame>, t: nat)
    requires IsTable(frames, t)
    ensures forall j: nat :: j >= PTRS ==> CellAt(frames, t, j).None?
  {
  }

  /** A slot without a table of its own copied as it is. */
  lemma SameSlot(frames: seq<Frame>, p: nat, frames': seq<Frame>, d: nat, i: nat)
    requires Slot(frames', d, i) == Slot(frames, p, i) && !Slot(frames, p, i).Own?
    ensures Copied(frames, p, frames', d, i)
  {
  }

  lemma CopiedTable(frames: seq<Frame>, p: nat, frames1: seq<Frame>, frames': seq<Frame>, d: nat, i: nat)
    requires Slot(frames, p, i).Own? && Slot(frames', d, i).Own?
    requires forall j: nat ::
      CellAt(frames1, Slot(frames, p, i).table, j) == CellAt(frames, Slot(frames, p, i).table, j)
    requires forall j: nat :: Shows(frames', d, i, j) == CellAt(frames1, Slot(frames, p, i).table, j)
    ensures Copied(frames, p, frames', d, i)
  {
    hide CellAt, Slot;
  }

  /** How many slots have a table of their own. */
  function OwnTables(slots: seq<Dirent>): nat {
    if slots == [] then 0 else OwnTables(slots[..|slots| - 1]) + |TableIn(slots[|slots| - 1])|
  }

  lemma OwnTablesStep(slots: seq<Dirent>, i: nat)
    requires i < |slots|
    ensures OwnTables(slots[..i + 1]) == OwnTables(slots[..i]) + |TableIn(slots[i])|
  {
    assert slots[..i + 1][..i] == slots[..i];
  }

  lemma {:induction false} OwnTablesPrefix(slots: seq<Dirent>, i: nat)
    requires i <= |slots|
    ensures OwnTables(slots[..i]) <= OwnTables(slots)
    decreases |slots| - i
  {
    if i < |slots| {
      OwnTablesStep(slots, i);
      OwnTablesPrefix(slots, i + 1);
    } else {
      assert slots[..i] == slots;
    }
  }

  lemma SlotAt(frames: seq<Frame>, d: nat, i: nat)
    requires IsDir(frames, d) && i < PTRS
    ensures Slot(frames, d, i) == frames[d].slots[i]
  {
  }

  lemma PastDir(frames: seq<Frame>, d: nat, i: nat)
    requires IsDir(frames, d) && i >= PTRS
    ensures Slot(frames, d, i).NoTable?
  {
  }

  lemma NewIsNobodys(frames: seq<Frame>, cr3: map<nat, nat>, d: nat)
    requires Owned(frames, cr3, {}) && d < |frames| && frames[d].Unused?
    ensures !HasProcess(cr3, d)
  {
  }

  lemma BlankSlots(frames: seq<Frame>, frames': seq<Frame>, d: nat)
    requires d < |frames| && frames[d].Unused? && AllKept(frames, frames')
    ensures forall i: nat :: Slot(frames', d, i).NoTable?
  {
  }

  /** A frame that is no directory before and after shows nothing, before and after. */
  lemma NeverSeen(frames: seq<Frame>, frames': seq<Frame>, d: nat)
    requires OthersKept(frames, frames', d) && d < |frames| && frames[d].Unused?
    requires forall i: nat :: Slot(frames', d, i).NoTable?
    ensures AllKept(frames, frames')
  {
    hide CellAt;
    assert forall i: nat :: Slot(frames, d, i).NoTable?;
  }

  lemma CopiedKept(frames: seq<Frame>, p: nat, frames1: seq<Frame>, frames': seq<Frame>, d: nat, i: nat, i': nat)
    requires OthersKept(frames, frames1, d) && p != d && SlotsKeptBut(frames1, frames', d, i)
    requires Copied(frames1, p, frames', d, i)
    requires i' < i ==> Copied(frames, p, frames1, d, i')
    requires i' <= i
    ensures Copied(frames, p, frames', d, i')
  {
    hide Slot, Shows;
  }

  lemma CopyUpEntry(m: Memory, reserved: set<nat>, t: nat, j: nat)
    requires Core(m, reserved) && CanCopy(m, t, j) && !Sole(m, reserved, Entry(m.frames, t, j).page)
    ensures Entry(CopyUp(m, reserved, t, j).frames, t, j) == Present(m.free[0], true, true)
  {
    hide Refs, Core;
    CopyIsDropMap(m, reserved, t, j);
  }

  /** The entry at (`i`, `j`) of directory `d` lets the processor write. */
  ghost predicate Writable(frames: seq<Frame>, d: nat, i: nat, j: nat) {
    Slot(frames, d, i).Own? && Entry(frames, Slot(frames, d, i).table, j).Present?
      && Entry(frames, Slot(frames, d, i).table, j).rw
  }

  /** A write to (`i`, `j`) of directory `d` needs a page of its own first. */
  predicate NeedsCopy(m: Memory, reserved: set<nat>, d: nat, i: nat, j: nat) {
    && Slot(m.frames, d, i).Own?
    && var e := Entry(m.frames, Slot(m.frames, d, i).table, j);
       e.Present? && !e.rw && e.cow && !Sole(m, reserved, e.page)
  }

  /** How many frames a first touch of (`i`, `j`) takes: for the page, and for a table where there is none. */
  function FramesFor(frames: seq<Frame>, d: nat, i: nat, j: nat): nat {
    match Slot(frames, d, i)
    case Own(t) => if Entry(frames, t, j).Empty? then 1 else 0
    case NoTable => 2
    case Kernel(_) => 0
  }

  /** A cell after a store to it, or as it was. */
  function Stored(c: Option<Cell>, here: bool, off: nat, value: int): Option<Cell> {
    if here && c.Some? && c.value.writable && off < |c.value.bytes|
    then Some(Cell(c.value.bytes[off := value], true)) else c
  }

  lemma StillPresent(frames: seq<Frame>, frames': seq<Frame>, d: nat, i: nat, j: nat)
    requires AllKept(frames, frames') && Shows(frames, d, i, j).Some?
    ensures Shows(frames', d, i, j) == Shows(frames, d, i, j)
  {
  }

  lemma PageFull(m: Memory, reserved: set<nat>, p: nat)
    requires Core(m, reserved) && p < |m.frames| && m.frames[p].Page?
    ensures |m.frames[p].bytes| == PAGE_SIZE
  {
    hide Refs, Distinct;
    assert FrameOk(m, reserved, p);
  }

  lemma RwCell(m: Memory, reserved: set<nat>, t: nat, j: nat)
    requires Core(m, reserved) && Entry(m.frames, t, j).Present? && Entry(m.frames, t, j).rw
    ensures CellAt(m.frames, t, j).Some? && CellAt(m.frames, t, j).value.writable
    ensures Entry(m.frames, t, j).page < |m.frames| && m.frames[Entry(m.frames, t, j).page].Page?
    ensures CellAt(m.frames, t, j).value.bytes == m.frames[Entry(m.frames, t, j).page].bytes
  {
    hide Refs, Distinct;
    assert EntryOk(m, reserved, Entry(m.frames, t, j));
  }

  lemma StoreSeen(frames: seq<Frame>, frames': seq<Frame>, cr3: map<nat, nat>, d: nat, i: nat, j: nat, off: nat,
      value: int)
    requires Owned(frames, cr3, {}) && Slot(frames, d, i).Own? && off < PAGE_SIZE
    requires forall d: nat, i: nat :: Slot(frames', d, i) == Slot(frames, d, i)
    requires var c := CellAt(frames, Slot(frames, d, i).table, j);
        c.Some? && c.value.writable && |c.value.bytes| == PAGE_SIZE
    requires forall t: nat, j': nat ::
      CellAt(frames', t, j') == Stored(CellAt(frames, t, j'), (t, j') == (Slot(frames, d, i).table, j), off, value)
    ensures forall d': nat, i': nat, j': nat ::
      Shows(frames', d', i', j') == Stored(Shows(frames, d', i', j'), (d', i', j') == (d, i, j), off, value)
  {
    hide CellAt, Slot, Stored;
    forall d': nat, i': nat, j': nat
      ensures Shows(frames', d', i', j') == Stored(Shows(frames, d', i', j'), (d', i', j') == (d, i, j), off, value)
    {
      if Slot(frames, d', i').Own? {
        OneOwner(frames, cr3, d, i, d', i');
      } else {
        NotStored(off, value);
      }
      NotHere(frames, d', i', j', off, value);
    }
  }

  lemma NotStored(off: nat, value: int)
    ensures Stored(None, false, off, value) == None && Stored(None, true, off, value) == None
  {
  }

  lemma NotHere(frames: seq<Frame>, d: nat, i: nat, j: nat, off: nat, value: int)
    ensures Stored(Shows(frames, d, i, j), false, off, value) == Shows(frames, d, i, j)
  {
  }

  lemma OneOwner(frames: seq<Frame>, cr3: map<nat, nat>, d: nat, i: nat, d': nat, i': nat)
    requires Owned(frames, cr3, {}) && Slot(frames, d, i).Own? && Slot(frames, d', i').Own?
    ensures Slot(frames, d, i).table == Slot(frames, d', i').table <==> (d, i) == (d', i')
  {
    if Slot(frames, d, i).table == Slot(frames, d', i').table {
      assert Slot(frames, d', i') == Slot(frames, d, i);
    }
  }

  /** The fault handler changes nothing visible, the store one cell. */
  lemma WriteSeen(frames: seq<Frame>, frames1: seq<Frame>, frames': seq<Frame>, d: nat, i: nat, j: nat, off: nat,
      value: int)
    requires AllKept(frames, frames1)
    requires forall d: nat, i: nat :: Slot(frames', d, i) == Slot(frames1, d, i)
    requires Writable(frames1, d, i, j) == (Shows(frames1, d, i, j).Some? && Shows(frames1, d, i, j).value.writable)
    requires forall d': nat, i': nat, j': nat ::
      Shows(frames', d', i', j') == Stored(Shows(frames1, d', i', j'), Writable(frames1, d, i, j)
        && (d', i', j') == (d, i, j), off, value)
    ensures OthersKept(frames, frames', d) && SlotsKeptBut(frames, frames', d, i)
    ensures Slot(frames', d, i) == Slot(frames, d, i)
    ensures forall j': nat :: Shows(frames', d, i, j') == Stored(Shows(frames, d, i, j'), j' == j, off, value)
  {
    hide Slot, Shows, Writable;
  }

  function Zeros(): (r: seq<int>)
    ensures |r| == PAGE_SIZE && forall i :: 0 <= i < PAGE_SIZE ==> r[i] == 0
  {
    seq(PAGE_SIZE, _ => 0)
  }

  lemma MapSeen(frames: seq<Frame>, frames': seq<Frame>, cr3: map<nat, nat>, d: nat, i: nat, j: nat, c: Option<Cell>)
    requires Owned(frames, cr3, {}) && Slot(frames, d, i).Own?
    requires forall d: nat, i: nat :: Slot(frames', d, i) == Slot(frames, d, i)
    requires forall t: nat, j': nat ::
      CellAt(frames', t, j') == if (t, j') == (Slot(frames, d, i).table, j) then c else CellAt(frames, t, j')
    ensures forall d': nat, i': nat, j': nat ::
      Shows(frames', d', i', j') == if (d', i', j') == (d, i, j) then c else Shows(frames, d', i', j')
  {
    hide CellAt, Slot;
    forall d': nat, i': nat, j': nat
      ensures Shows(frames', d', i', j') == if (d', i', j') == (d, i, j) then c else Shows(frames, d', i', j')
    {
      if Slot(frames, d', i').Own? { OneOwner(frames, cr3, d, i, d', i'); }
    }
  }

  /** A directory in frame 0, all other frames free. */
  function FirstMemory(slots: seq<Dirent>, n: nat): Memory {
    Memory([Dir(slots)] + seq(n, _ => Unused), [1] + seq(n, _ => 0), seq(n, i => i + 1))
  }

  lemma FirstOk(slots: seq<Dirent>, n: nat)
    requires |slots| == PTRS
    ensures Core(FirstMemory(slots, n), {})
  {
    hide Refs;
    var m := FirstMemory(slots, n);
    forall p | 0 <= p < |m.frames| && m.frames[p].Unused? ensures p in m.free { assert m.free[p - 1] == p; }
  }

  lemma FirstOwned(slots: seq<Dirent>, n: nat, pid: nat)
    requires |slots| == PTRS && forall i :: 0 <= i < PTRS ==> !slots[i].Own?
    ensures Owned(FirstMemory(slots, n).frames, map[pid := 0], {})
  {
    var m := map[pid := 0];
    assert pid in m && m[pid] == 0;
    assert HasProcess(m, 0);
  }

  class Mm {
    const reserved: set<nat>
    var m: Memory
    var cr3: map<nat, nat>

    ghost predicate Valid(spare: set<nat>)
      reads this
    {
      Core(m, reserved) && Owned(m.frames, cr3, spare)
    }

    /** One process with nothing but the tables of the kernel, and `n` free frames. */
    constructor (slots: seq<Dirent>, pid: nat, n: nat)
      requires |slots| == PTRS && forall i :: 0 <= i < PTRS ==> !slots[i].Own?
      ensures Valid({}) && cr3 == map[pid := 0] && reserved == {} && |m.free| == n
    {
      reserved := {};
      m := FirstMemory(slots, n);
      cr3 := map[pid := 0];
      new;
      FirstOk(slots, n);
      FirstOwned(slots, n, pid);
    }

    /** Every entry of a table let go, one after the other. */
    method DropEntries(t: nat, ghost spare: set<nat>)
      requires Valid(spare) && t in spare && IsTable(m.frames, t)
      modifies `m
      ensures Valid(spare) && SameShape(old(m.frames), m.frames) && IsTable(m.frames, t) && Blank(m.frames[t])
      ensures forall t': nat, j: nat :: t' != t ==> CellAt(m.frames, t', j) == CellAt(old(m.frames), t', j)
    {
      hide Core, Owned, Drop, CellAt;
      var j: nat := 0;
      while j < PTRS
        invariant j <= PTRS && Core(m, reserved) && SameShape(old(m.frames), m.frames) && IsTable(m.frames, t)
        invariant forall j': nat :: j' < j ==> CellAt(m.frames, t, j').None?
        invariant forall t': nat, j': nat :: t' != t ==> CellAt(m.frames, t', j') == CellAt(old(m.frames), t', j')
      {
        NoCell(m, reserved, t, j);
        if m.frames[t].entries[j].Present? {
          EntryIsPage(m, reserved, t, j);
          DropCore(m, reserved, t, j);
          m := Drop(m, reserved, t, j);
          TableFull(m, reserved, t);
        }
        j := j + 1;
      }
      forall j: nat | j < PTRS ensures m.frames[t].entries[j].Empty? { NoCell(m, reserved, t, j); }
      OwnedShape(old(m.frames), m.frames, cr3, spare);
    }

    /** A table in hand given back with all its pages. */
    method GiveTable(t: nat, ghost spare: set<nat>)
      requires Valid(spare) && t in spare && IsTable(m.frames, t)
      modifies `m
      ensures Valid(spare - {t}) && AllKept(old(m.frames), m.frames)
      ensures forall d: nat :: IsDir(old(m.frames), d) ==> IsDir(m.frames, d)
    {
      hide Core, Owned, CellAt, Release, Shows;
      DropEntries(t, spare);
      SlotsKept(old(m.frames), m.frames);
      SpareUnseen(old(m.frames), m.frames, cr3, spare, t);
      label L:
      GiveBlank(m, reserved, t);
      OwnedGive(m.frames, cr3, spare, t);
      m := Release(m, reserved, t);
      SameCells(old@L(m.frames), m.frames);
    }

    /** free_one_table: a slot cleared, its own table and pages given back. */
    method FreeOneTable(d: nat, i: nat, ghost spare: set<nat>)
      requires Valid(spare) && IsDir(m.frames, d) && i < PTRS
      modifies `m
      ensures Valid(spare) && IsDir(m.frames, d) && Slot(m.frames, d, i).NoTable?
      ensures SlotsKeptBut(old(m.frames), m.frames, d, i) && OthersKept(old(m.frames), m.frames, d)
    {
      hide Core, Owned, CellAt, Shows, Release;
      var s := m.frames[d].slots[i];
      if s.NoTable? { return; }
      Relink(m, reserved, cr3, spare, d, i, NoTable);
      m := m.(frames := SetSlot(m.frames, d, i, NoTable));
      assert spare + TableIn(s) - TableIn(NoTable) == spare + TableIn(s);
      if s.Own? {
        OwnTable(old(m.frames), cr3, spare, d, i);
        TableFull(m, reserved, s.table);
        GiveTable(s.table, spare + {s.table});
        assert spare + {s.table} - {s.table} == spare;
      }
    }

    /** free_page_tables: the whole space of a process given back. */
    method FreePageTables(pid: nat)
      requires Valid({}) && pid in cr3
      modifies this
      ensures Valid({}) && cr3 == old(cr3 - {pid})
      ensures OthersKept(old(m.frames), m.frames, old(cr3[pid]))
      ensures forall i: nat :: Slot(m.frames, old(cr3[pid]), i).NoTable?
    {
      hide Core, Owned, CellAt, Shows, Release;
      var d := cr3[pid];
      OwnedExit(m.frames, cr3, {}, pid);
      assert {} + {d} == {d};
      ProcessDir(m.frames, cr3, {}, pid);
      DirFull(m, reserved, d);
      cr3 := cr3 - {pid};
      var i: nat := 0;
      while i < PTRS
        invariant i <= PTRS && Valid({d}) && IsDir(m.frames, d) && cr3 == old(cr3 - {pid})
        invariant forall i': nat :: i' < i ==> Slot(m.frames, d, i').NoTable?
        invariant OthersKept(old(m.frames), m.frames, d)
      {
        label L:
        FreeOneTable(d, i, {d});
        assert forall i': nat :: i' < i ==> Slot(m.frames, d, i') == Slot(old@L(m.frames), d, i');
        i := i + 1;
      }
      label E:
      GiveBlank(m, reserved, d);
      OwnedGive(m.frames, cr3, {d}, d);
      m := Release(m, reserved, d);
      SameCellsBut(old@E(m.frames), m.frames, d);
      assert {d} - {d} == {};
    }

    /** The entries of table `o` shared into the blank table `n`. */
    method CopyTable(o: nat, n: nat, ghost spare: set<nat>)
      requires Valid(spare) && n in spare && o != n && IsTable(m.frames, o) && IsTable(m.frames, n)
      requires Blank(m.frames[n])
      modifies `m
      ensures Valid(spare) && SameShape(old(m.frames), m.frames) && m.free == old(m.free)
      ensures forall j: nat :: CellAt(m.frames, n, j) == CellAt(old(m.frames), o, j)
      ensures forall t: nat, j: nat :: t != n ==> CellAt(m.frames, t, j) == CellAt(old(m.frames), t, j)
    {
      hide Core, Owned, CellAt;
      BlankCells(m.frames, n);
      var j: nat := 0;
      while j < PTRS
        invariant j <= PTRS && Core(m, reserved) && SameShape(old(m.frames), m.frames) && IsTable(m.frames, o)
        invariant IsTable(m.frames, n)
        invariant m.free == old(m.free)
        invariant forall j': nat :: CellAt(m.frames, n, j') == if j' < j then CellAt(old(m.frames), o, j') else None
        invariant forall t: nat, j': nat :: t != n ==> CellAt(m.frames, t, j') == CellAt(old(m.frames), t, j')
      {
        NoCell(m, reserved, o, j);
        NoCell(m, reserved, n, j);
        if m.frames[o].entries[j].Present? {
          EntryIsPage(m, reserved, o, j);
          ShareCore(m, reserved, o, n, j);
          m := Share(m, reserved, o, n, j);
        }
        j := j + 1;
      }
      OutsideTable(old(m.frames), o);
      OwnedShape(old(m.frames), m.frames, cr3, spare);
    }

    /** One directory entry copied at fork; false when there is no frame for a table. */
    method CopySlot(p: nat, d: nat, i: nat) returns (ok: bool)
      requires Valid({}) && IsDir(m.frames, p) && IsDir(m.frames, d) && p != d && i < PTRS
      requires Slot(m.frames, d, i).NoTable?
      modifies `m
      ensures Valid({}) && IsDir(m.frames, p) && IsDir(m.frames, d)
      ensures ok == (Slot(old(m.frames), p, i).Own? ==> old(m.free) != [])
      ensures |m.free| == |old(m.free)| - if ok then |TableIn(Slot(old(m.frames), p, i))| else 0
      ensures OthersKept(old(m.frames), m.frames, d) && SlotsKeptBut(old(m.frames), m.frames, d, i)
      ensures ok ==> Copied(old(m.frames), p, m.frames, d, i)
      ensures !ok ==> m == old(m)
    {
      hide Core, Owned, CellAt, Shows, Take, Share;
      var s := m.frames[p].slots[i];
      if s.NoTable? {
        SameSlot(m.frames, p, m.frames, d, i);
        return true;
      }
      if s.Kernel? {
        Relink(m, reserved, cr3, {}, d, i, s);
        m := m.(frames := SetSlot(m.frames, d, i, s));
        SameSlot(old(m.frames), p, m.frames, d, i);
        return true;
      }
      if m.free == [] { return false; }
      ok := true;
      var n := NewTable({});
      assert {} + {n} == {n};
      label L:
      OwnTable(m.frames, cr3, {n}, p, i);
      TableFull(m, reserved, s.table);
      CopyTable(s.table, n, {n});
      SlotsKept(old@L(m.frames), m.frames);
      SpareUnseen(old@L(m.frames), m.frames, cr3, {n}, n);
      Relink(m, reserved, cr3, {n}, d, i, Own(n));
      assert {n} + TableIn(NoTable) - TableIn(Own(n)) == {};
      m := m.(frames := SetSlot(m.frames, d, i, Own(n)));
      CopiedTable(old(m.frames), p, old@L(m.frames), m.frames, d, i);
    }

    /** A blank table in a new frame. */
    method NewTable(ghost spare: set<nat>) returns (n: nat)
      requires Valid(spare) && m.free != []
      modifies `m
      ensures Valid(spare + {n}) && IsTable(m.frames, n) && Blank(m.frames[n]) && |m.frames| == |old(m.frames)|
      ensures n < |old(m.frames)| && old(m.frames)[n].Unused? && m.frames == old(m.frames)[n := m.frames[n]]
      ensures m.free == old(m.free[1..]) && AllKept(old(m.frames), m.frames)
      ensures forall t: nat, j: nat :: CellAt(m.frames, t, j) == CellAt(old(m.frames), t, j)
    {
      hide Core, Owned, CellAt, Shows;
      var blank := Table(seq(PTRS, _ => Empty));
      FreeFits(m, reserved);
      n := m.free[0];
      TakeBlank(m, reserved, blank);
      OwnedTakeTable(m.frames, cr3, spare, n, blank);
      m := Take(m, blank);
      SameCells(old(m.frames), m.frames);
    }

    /** A directory for a new process in a new frame. */
    method NewDir(pid: nat) returns (d: nat)
      requires Valid({}) && m.free != [] && pid !in cr3
      modifies this
      ensures Valid({}) && IsDir(m.frames, d) && cr3 == old(cr3)[pid := d] && m.free == old(m.free[1..])
      ensures d < |old(m.frames)| && old(m.frames)[d].Unused? && m.frames == old(m.frames)[d := m.frames[d]]
      ensures AllKept(old(m.frames), m.frames)
    {
      hide Core, Owned, CellAt, Shows;
      var blank := Dir(seq(PTRS, _ => NoTable));
      FreeFits(m, reserved);
      d := m.free[0];
      TakeBlank(m, reserved, blank);
      OwnedTakeDir(m.frames, cr3, {}, d, blank, pid);
      m := Take(m, blank);
      cr3 := cr3[pid := d];
      SameCells(old(m.frames), m.frames);
    }

    /** copy_page_tables: the child gets the kernel's tables and a copy of each table of its own. */
    method CopyPageTables(parent: nat, child: nat) returns (ok: bool)
      requires Valid({}) && parent in cr3 && child !in cr3
      modifies this
      ensures Valid({})
      ensures ok ==> child in cr3
      ensures cr3 == if ok then old(cr3)[child := cr3[child]] else old(cr3)
      ensures ok ==> !HasProcess(old(cr3), cr3[child])
      ensures ok ==> OthersKept(old(m.frames), m.frames, cr3[child])
      ensures ok ==> forall i: nat :: Copied(old(m.frames), old(cr3[parent]), m.frames, cr3[child], i)
      ensures !ok ==> AllKept(old(m.frames), m.frames)
      ensures parent in old(cr3) && old(IsDir(m.frames, cr3[parent]))
      ensures ok == (|old(m.free)| > OwnTables(old(m.frames)[old(cr3)[parent]].slots))
    {
      hide Core, Owned, CellAt, Shows, Slot;
      var p := cr3[parent];
      ProcessDir(m.frames, cr3, {}, parent);
      DirFull(m, reserved, p);
      ghost var slots := m.frames[p].slots;
      if m.free == [] { return false; }
      var d := NewDir(child);
      NewIsNobodys(old(m.frames), old(cr3), d);
      BlankSlots(old(m.frames), m.frames, d);
      var i: nat := 0;
      while i < PTRS
        invariant i <= PTRS && Valid({}) && IsDir(m.frames, p) && IsDir(m.frames, d) && cr3 == old(cr3)[child := d]
        invariant OthersKept(old(m.frames), m.frames, d)
        invariant forall i': nat :: i' < i ==> Copied(old(m.frames), p, m.frames, d, i')
        invariant forall i': nat :: i' >= i ==> Slot(m.frames, d, i').NoTable?
        invariant |m.free| == |old(m.free)| - 1 - OwnTables(slots[..i])
      {
        label L:
        assert OwnTables(slots[..i + 1]) == OwnTables(slots[..i]) + |TableIn(slots[i])| by { OwnTablesStep(slots, i); }
        SlotAt(old(m.frames), p, i);
        ok := CopySlot(p, d, i);
        if !ok {
          OwnTablesPrefix(slots, i + 1);
          FreePageTables(child);
          assert cr3 == old(cr3);
          NeverSeen(old(m.frames), m.frames, d);
          return;
        }
        forall i': nat | i' <= i ensures Copied(old(m.frames), p, m.frames, d, i') {
          CopiedKept(old(m.frames), p, old@L(m.frames), m.frames, d, i, i');
        }
        i := i + 1;
      }
      ok := true;
      assert slots[..PTRS] == slots;
      forall i: nat | i >= PTRS ensures Copied(old(m.frames), p, m.frames, d, i) {
        PastDir(old(m.frames), p, i);
        SameSlot(old(m.frames), p, m.frames, d, i);
      }
    }

    /** __do_wp_page: a private copy of the page when others use it, write permission when none do. */
    method CopyOrGrant(d: nat, i: nat, j: nat)
      requires Valid({}) && IsDir(m.frames, d) && i < PTRS && j < PTRS
      requires m.free == [] ==> !NeedsCopy(m, reserved, d, i, j)
      requires Slot(m.frames, d, i).Own? && Entry(m.frames, Slot(m.frames, d, i).table, j).Present?
      requires Entry(m.frames, Slot(m.frames, d, i).table, j).cow
      modifies `m
      ensures Valid({}) && AllKept(old(m.frames), m.frames)
      ensures Writable(m.frames, d, i, j)
      ensures m.free == if NeedsCopy(old(m), reserved, d, i, j) then old(m.free[1..]) else old(m.free)
    {
      hide Core, Owned, CellAt, Shows;
      var t := m.frames[d].slots[i].table;
      EntryIsPage(m, reserved, t, j);
      var e := m.frames[t].entries[j];
      if e.rw { return; }
      if m.memMap[e.page] != 1 || e.page in reserved {
        FreeFits(m, reserved);
        CopyUpCore(m, reserved, t, j);
        m := CopyUp(m, reserved, t, j);
        CopyUpEntry(old(m), reserved, t, j);
      } else {
        GrantCore(m, reserved, t, j);
        m := Grant(m, t, j);
      }
      SlotsKept(old(m.frames), m.frames);
      OwnedShape(old(m.frames), m.frames, cr3, {});
      SameCells(old(m.frames), m.frames);
    }

    /** Write permission for the only user of a page. */
    method GrantSole(d: nat, i: nat, j: nat)
      requires Valid({}) && IsDir(m.frames, d) && i < PTRS && j < PTRS
      requires Slot(m.frames, d, i).Own? && CanGrant(m, reserved, Slot(m.frames, d, i).table, j)
      modifies `m
      ensures Valid({}) && AllKept(old(m.frames), m.frames) && Writable(m.frames, d, i, j) && m.free == old(m.free)
    {
      hide Core, Owned, CellAt, Shows;
      var t := m.frames[d].slots[i].table;
      GrantCore(m, reserved, t, j);
      m := Grant(m, t, j);
      SlotsKept(old(m.frames), m.frames);
      OwnedShape(old(m.frames), m.frames, cr3, {});
      SameCells(old(m.frames), m.frames);
    }

    /** do_wp_page for an address of the user: true when the process gets SIGSEGV. */
    method DoWpPage(pid: nat, i: nat, j: nat) returns (segv: bool)
      requires Valid({}) && pid in cr3 && i < PTRS && j < PTRS
      requires m.free == [] ==> !NeedsCopy(m, reserved, cr3[pid], i, j)
      modifies `m
      ensures Valid({}) && AllKept(old(m.frames), m.frames) && IsDir(m.frames, cr3[pid])
      ensures var c := Shows(m.frames, cr3[pid], i, j);
        segv == (c.Some? && !c.value.writable) && Writable(m.frames, cr3[pid], i, j) == (c.Some? && c.value.writable)
      ensures m.free == if NeedsCopy(old(m), reserved, cr3[pid], i, j) then old(m.free[1..]) else old(m.free)
    {
      hide Core, Owned;
      segv := false;
      var d := cr3[pid];
      ProcessDir(m.frames, cr3, {}, pid);
      DirFull(m, reserved, d);
      var s := m.frames[d].slots[i];
      if !s.Own? { return; }
      OwnTable(m.frames, cr3, {}, d, i);
      TableFull(m, reserved, s.table);
      NoCell(m, reserved, s.table, j);
      var e := m.frames[s.table].entries[j];
      if !e.Present? || e.rw { return; }
      if !e.cow { return true; }
      EntryIsPage(m, reserved, s.table, j);
      if m.memMap[e.page] == 1 && e.page !in reserved {
        GrantSole(d, i, j);
      } else {
        CopyOrGrant(d, i, j);
      }
      StillPresent(old(m.frames), m.frames, d, i, j);
      DirFull(m, reserved, d);
    }

    /** A store by a process: the fault handler, then the store itself when it is allowed. */
    method Write(pid: nat, i: nat, j: nat, off: nat, value: int) returns (segv: bool)
      requires Valid({}) && pid in cr3 && i < PTRS && j < PTRS && off < PAGE_SIZE
      requires m.free == [] ==> !NeedsCopy(m, reserved, cr3[pid], i, j)
      modifies `m
      ensures Valid({}) && OthersKept(old(m.frames), m.frames, cr3[pid])
      ensures SlotsKeptBut(old(m.frames), m.frames, cr3[pid], i)
      ensures Slot(m.frames, cr3[pid], i) == Slot(old(m.frames), cr3[pid], i)
      ensures forall j': nat ::
        Shows(m.frames, cr3[pid], i, j') == Stored(Shows(old(m.frames), cr3[pid], i, j'), j' == j, off, value)
      ensures segv == (Shows(old(m.frames), cr3[pid], i, j).Some?
          && !Shows(old(m.frames), cr3[pid], i, j).value.writable)
      ensures |m.free| == |old(m.free)| - if NeedsCopy(old(m), reserved, cr3[pid], i, j) then 1 else 0
    {
      hide Core, Owned, AllKept, NeedsCopy;
      segv := DoWpPage(pid, i, j);
      label L:
      var d := cr3[pid];
      if m.frames[d].slots[i].Own? {
        var t := m.frames[d].slots[i].table;
        OwnTable(m.frames, cr3, {}, d, i);
        TableFull(m, reserved, t);
        var e := m.frames[t].entries[j];
        if e.Present? && e.rw {
          StoreByte(d, i, j, off, value);
        }
      }
      WriteSeen(old(m.frames), old@L(m.frames), m.frames, d, i, j, off, value);
    }

    /** The store itself, through a writable entry. */
    method StoreByte(d: nat, i: nat, j: nat, off: nat, value: int)
      requires Valid({}) && IsDir(m.frames, d) && i < PTRS && j < PTRS && off < PAGE_SIZE && Writable(m.frames, d, i, j)
      modifies `m
      ensures Valid({}) && forall d: nat, i: nat :: Slot(m.frames, d, i) == Slot(old(m.frames), d, i)
      ensures forall d': nat, i': nat, j': nat ::
        Shows(m.frames, d', i', j') == Stored(Shows(old(m.frames), d', i', j'), (d', i', j') == (d, i, j), off, value)
      ensures m.free == old(m.free)
    {
      hide Core, Owned, CellAt;
      var t := m.frames[d].slots[i].table;
      EntryIsPage(m, reserved, t, j);
      var p := m.frames[t].entries[j].page;
      PageFull(m, reserved, p);
      var bytes := m.frames[p].bytes[off := value];
      RwCell(m, reserved, t, j);
      StoreCore(m, reserved, t, j, bytes);
      m := Store(m, t, j, bytes);
      SlotsKept(old(m.frames), m.frames);
      OwnedShape(old(m.frames), m.frames, cr3, {});
      StoreSeen(old(m.frames), m.frames, cr3, d, i, j, off, value);
    }

    /** get_empty_pgtable: a table for slot `i` if it has none. */
    method GetEmptyPgtable(d: nat, i: nat)
      requires Valid({}) && IsDir(m.frames, d) && i < PTRS && !Slot(m.frames, d, i).Kernel?
      requires Slot(m.frames, d, i).Own? || m.free != []
      modifies `m
      ensures Valid({}) && IsDir(m.frames, d) && Slot(m.frames, d, i).Own?
      ensures old(Slot(m.frames, d, i)).Own? ==> m == old(m)
      ensures !old(Slot(m.frames, d, i)).Own? ==> |m.free| == |old(m.free)| - 1
      ensures OthersKept(old(m.frames), m.frames, d) && SlotsKeptBut(old(m.frames), m.frames, d, i)
      ensures forall j: nat :: Shows(m.frames, d, i, j) == Shows(old(m.frames), d, i, j)
    {
      hide Core, Owned, CellAt;
      if m.frames[d].slots[i].Own? { return; }
      var n := NewTable({});
      assert {} + {n} == {n};
      BlankCells(m.frames, n);
      Relink(m, reserved, cr3, {n}, d, i, Own(n));
      assert {n} + TableIn(NoTable) - TableIn(Own(n)) == {};
      m := m.(frames := SetSlot(m.frames, d, i, Own(n)));
    }

    /** get_empty_page: a page of zeros at an empty entry. */
    method GetEmptyPage(d: nat, i: nat, j: nat)
      requires Valid({}) && IsDir(m.frames, d) && i < PTRS && j < PTRS && m.free != [] && Slot(m.frames, d, i).Own?
      requires Entry(m.frames, Slot(m.frames, d, i).table, j).Empty?
      modifies `m
      ensures Valid({}) && forall d: nat, i: nat :: Slot(m.frames, d, i) == Slot(old(m.frames), d, i)
      ensures forall d': nat, i': nat, j': nat ::
        Shows(m.frames, d', i', j') == if (d', i', j') == (d, i, j) then Some(Cell(Zeros(), true))
          else Shows(old(m.frames), d', i', j')
      ensures m.free == old(m.free[1..])
    {
      hide Core, Owned, CellAt;
      var t := m.frames[d].slots[i].table;
      FreeFits(m, reserved);
      OwnTable(m.frames, cr3, {}, d, i);
      TableFull(m, reserved, t);
      MapNewCore(m, reserved, t, j, Zeros());
      m := MapNew(m, t, j, Zeros());
      SlotsKept(old(m.frames), m.frames);
      OwnedShape(old(m.frames), m.frames, cr3, {});
      MapSeen(old(m.frames), m.frames, cr3, d, i, j, Some(Cell(Zeros(), true)));
    }

    /** The first touch of a page of an anonymous area. */
    method Touch(pid: nat, i: nat, j: nat)
      requires Valid({}) && pid in cr3 && i < PTRS && j < PTRS && !Slot(m.frames, cr3[pid], i).Kernel?
      requires |m.free| >= FramesFor(m.frames, cr3[pid], i, j)
      modifies `m
      ensures Valid({}) && OthersKept(old(m.frames), m.frames, cr3[pid])
      ensures SlotsKeptBut(old(m.frames), m.frames, cr3[pid], i)
      ensures !Slot(m.frames, cr3[pid], i).Kernel?
      ensures forall j': nat ::
        Shows(m.frames, cr3[pid], i, j') == if j' == j && Shows(old(m.frames), cr3[pid], i, j).None?
          then Some(Cell(Zeros(), true)) else Shows(old(m.frames), cr3[pid], i, j')
      ensures |m.free| == |old(m.free)| - FramesFor(old(m.frames), cr3[pid], i, j)
    {
      hide Core, Owned, CellAt;
      var d := cr3[pid];
      ProcessDir(m.frames, cr3, {}, pid);
      DirFull(m, reserved, d);
      GetEmptyPgtable(d, i);
      var t := m.frames[d].slots[i].table;
      OwnTable(m.frames, cr3, {}, d, i);
      TableFull(m, reserved, t);
      NoCell(m, reserved, t, j);
      assert CellAt(m.frames, t, j) == Shows(m.frames, d, i, j) == Shows(old(m.frames), d, i, j);
      if m.frames[t].entries[j].Empty? {
        GetEmptyPage(d, i, j);
      }
    }
  }
}

/** Whole runs of forks, writes, first touches and exits, against spaces copied page by page at fork. */
module ForkRuns {
  import opened Basics
  import opened PageFrames
  import opened Ownership
  import opened CopyOnWrite

  /** What a process can reach: its own cells, and the tables of the kernel. */
  datatype Space = Space(cells: map<(nat, nat), Cell>, kernel: map<nat, nat>)

  ghost function SpaceOf(frames: seq<Frame>, d: nat): Space {
    Space(map i: nat, j: nat | i < PTRS && j < PTRS && Shows(frames, d, i, j).Some? ::
      (i, j) := Shows(frames, d, i, j).value,
          map i: nat | i < PTRS && Slot(frames, d, i).Kernel? :: Slot(frames, d, i).id)
  }

  ghost function Spaces(frames: seq<Frame>, cr3: map<nat, nat>): map<nat, Space> {
    map pid | pid in cr3 :: SpaceOf(frames, cr3[pid])
  }

  datatype Op =
    | Fork(parent: nat, child: nat)
    | Write(pid: nat, i: nat, j: nat, off: nat, value: int)
    | Touch(pid: nat, i: nat, j: nat)
    | Exit(pid: nat)

  predicate InRange(op: Op) {
    match op
    case Fork(_, _) => true
    case Write(_, i, j, off, _) => i < PTRS && j < PTRS && off < PAGE_SIZE
    case Touch(_, i, j) => i < PTRS && j < PTRS
    case Exit(_) => true
  }

  function Map(s: Space, i: nat, j: nat, c: Cell): Space {
    s.(cells := s.cells[(i, j) := c])
  }

  /** An operation on spaces that share nothing: fork copies every page at once. */
  function Eager(s: map<nat, Space>, op: Op): map<nat, Space> {
    match op
    case Fork(parent, child) => if parent in s && child !in s then s[child := s[parent]] else s
    case Write(pid, i, j, off, value) =>
      if pid in s && (i, j) in s[pid].cells && s[pid].cells[(i, j)].writable && off < |s[pid].cells[(i, j)].bytes|
      then s[pid := Map(s[pid], i, j, Cell(s[pid].cells[(i, j)].bytes[off := value], true))] else s
    case Touch(pid, i, j) =>
      if pid in s && (i, j) !in s[pid].cells && i !in s[pid].kernel
          then s[pid := Map(s[pid], i, j, Cell(Zeros(), true))] else s
    case Exit(pid) => s - {pid}
  }

  function EagerRun(s: map<nat, Space>, ops: seq<Op>): map<nat, Space> {
    if ops == [] then s else Eager(EagerRun(s, ops[..|ops| - 1]), ops[|ops| - 1])
  }

  // ---------------------------------------------------------------- from cells to spaces

  lemma CellsOf(frames: seq<Frame>, d: nat, i: nat, j: nat)
    ensures (i, j) in SpaceOf(frames, d).cells <==> i < PTRS && j < PTRS && Shows(frames, d, i, j).Some?
    ensures i < PTRS && j < PTRS && Shows(frames, d, i, j).Some? ==>
      SpaceOf(frames, d).cells[(i, j)] == Shows(frames, d, i, j).value
  {
    hide Shows, Slot;
  }

  lemma SameCells(c: map<(nat, nat), Cell>, c': map<(nat, nat), Cell>)
    requires forall i: nat, j: nat :: ((i, j) in c <==> (i, j) in c') && ((i, j) in c ==> c[(i, j)] == c'[(i, j)])
    ensures c == c'
  {
    forall x: (nat, nat) ensures (x in c <==> x in c') && (x in c ==> c[x] == c'[x]) {
      assert x == (x.0, x.1);
    }
  }

  /** Two directories that show the same and have the same kernel slots give the same space. */
  lemma SameSpace(frames: seq<Frame>, d: nat, frames': seq<Frame>, d': nat)
    requires forall i: nat, j: nat :: Shows(frames', d', i, j) == Shows(frames, d, i, j)
    requires forall i: nat ::
      Slot(frames', d', i).Kernel? || Slot(frames, d, i).Kernel? ==> Slot(frames', d', i) == Slot(frames, d, i)
    ensures SpaceOf(frames', d') == SpaceOf(frames, d)
  {
    hide Shows, Slot;
    var s, s' := SpaceOf(frames, d), SpaceOf(frames', d');
    forall i: nat, j: nat
      ensures ((i, j) in s'.cells <==> (i, j) in s.cells) && ((i, j) in s.cells ==> s'.cells[(i, j)] == s.cells[(i, j)])
    {
      CellsOf(frames, d, i, j);
      CellsOf(frames', d', i, j);
    }
    SameCells(s.cells, s'.cells);
    assert s'.kernel == s.kernel;
  }

  /** One cell of a space changed. */
  lemma OneCell(frames: seq<Frame>, frames': seq<Frame>, d: nat, i: nat, j: nat, c: Cell)
    requires i < PTRS && j < PTRS
    requires forall i': nat, j': nat ::
      Shows(frames', d, i', j') == if (i', j') == (i, j) then Some(c) else Shows(frames, d, i', j')
    requires forall i': nat ::
      Slot(frames', d, i').Kernel? || Slot(frames, d, i').Kernel? ==> Slot(frames', d, i') == Slot(frames, d, i')
    ensures SpaceOf(frames', d) == Map(SpaceOf(frames, d), i, j, c)
  {
    hide Shows, Slot;
    var s, s' := Map(SpaceOf(frames, d), i, j, c), SpaceOf(frames', d);
    forall i': nat, j': nat
      ensures ((i', j') in s'.cells <==> (i', j') in s.cells)
      ensures ((i', j') in s.cells ==> s'.cells[(i', j')] == s.cells[(i', j')])
    {
      CellsOf(frames, d, i', j');
      CellsOf(frames', d, i', j');
    }
    SameCells(s.cells, s'.cells);
    assert s'.kernel == s.kernel;
  }

  /** Every process but those of directory `d` keeps its space. */
  lemma OtherSpaces(frames: seq<Frame>, frames': seq<Frame>, d: nat, e: nat)
    requires OthersKept(frames, frames', d) && e != d
    ensures SpaceOf(frames', e) == SpaceOf(frames, e)
  {
    hide Shows, Slot;
    SameSpace(frames, e, frames', e);
  }

  lemma KeptSpaces(frames: seq<Frame>, frames': seq<Frame>, cr3: map<nat, nat>)
    requires AllKept(frames, frames')
    ensures Spaces(frames', cr3) == Spaces(frames, cr3)
  {
    hide Shows, Slot, SpaceOf;
    forall pid | pid in cr3 ensures SpaceOf(frames', cr3[pid]) == SpaceOf(frames, cr3[pid]) {
      SameSpace(frames, cr3[pid], frames', cr3[pid]);
    }
  }

  lemma ForkSpaces(frames: seq<Frame>, cr3: map<nat, nat>, frames': seq<Frame>, d: nat, parent: nat, child: nat)
    requires parent in cr3 && child !in cr3 && !HasProcess(cr3, d) && OthersKept(frames, frames', d)
    requires forall i: nat :: Copied(frames, cr3[parent], frames', d, i)
    ensures Spaces(frames', cr3[child := d]) == Eager(Spaces(frames, cr3), Fork(parent, child))
  {
    hide Shows, Slot, SpaceOf;
    forall i: nat, j: nat ensures Shows(frames', d, i, j) == Shows(frames, cr3[parent], i, j) {
      assert Copied(frames, cr3[parent], frames', d, i);
    }
    forall i: nat
      ensures Slot(frames', d, i).Kernel? || Slot(frames, cr3[parent], i).Kernel? ==>
          Slot(frames', d, i) == Slot(frames, cr3[parent], i)
    {
      assert Copied(frames, cr3[parent], frames', d, i);
    }
    SameSpace(frames, cr3[parent], frames', d);
    forall pid | pid in cr3 ensures SpaceOf(frames', cr3[pid]) == SpaceOf(frames, cr3[pid]) {
      assert cr3[pid] != d;
      OtherSpaces(frames, frames', d, cr3[pid]);
    }
  }

  lemma OneSpace(frames: seq<Frame>, frames': seq<Frame>, cr3: map<nat, nat>, pid: nat, s: Space)
    requires Owned(frames, cr3, {}) && pid in cr3 && OthersKept(frames, frames', cr3[pid])
    requires SpaceOf(frames', cr3[pid]) == s
    ensures Spaces(frames', cr3) == Spaces(frames, cr3)[pid := s]
  {
    hide Shows, Slot, SpaceOf;
    forall p | p in cr3 && p != pid ensures SpaceOf(frames', cr3[p]) == SpaceOf(frames, cr3[p]) {
      OneProcess(frames, cr3, p, pid);
      OtherSpaces(frames, frames', cr3[pid], cr3[p]);
    }
  }

  lemma OneProcess(frames: seq<Frame>, cr3: map<nat, nat>, p: nat, q: nat)
    requires Owned(frames, cr3, {}) && p in cr3 && q in cr3 && p != q
    ensures cr3[p] != cr3[q]
  {
  }

  lemma ExitSpaces(frames: seq<Frame>, frames': seq<Frame>, cr3: map<nat, nat>, pid: nat)
    requires Owned(frames, cr3, {}) && pid in cr3 && OthersKept(frames, frames', cr3[pid])
    ensures Spaces(frames', cr3 - {pid}) == Spaces(frames, cr3) - {pid}
  {
    hide Shows, Slot, SpaceOf;
    forall p | p in cr3 && p != pid ensures SpaceOf(frames', cr3[p]) == SpaceOf(frames, cr3[p]) {
      OneProcess(frames, cr3, p, pid);
      OtherSpaces(frames, frames', cr3[pid], cr3[p]);
    }
  }

  lemma WriteSpaces(frames: seq<Frame>, frames': seq<Frame>, cr3: map<nat, nat>, pid: nat, i: nat, j: nat, off: nat,
      value: int)
    requires Owned(frames, cr3, {}) && pid in cr3 && i < PTRS && j < PTRS
    requires OthersKept(frames, frames', cr3[pid]) && SlotsKeptBut(frames, frames', cr3[pid], i)
    requires Slot(frames', cr3[pid], i) == Slot(frames, cr3[pid], i)
    requires forall j': nat ::
      Shows(frames', cr3[pid], i, j') == Stored(Shows(frames, cr3[pid], i, j'), j' == j, off, value)
    ensures Spaces(frames', cr3) == Eager(Spaces(frames, cr3), Write(pid, i, j, off, value))
  {
    hide Shows, Slot, SpaceOf, Owned;
    var d := cr3[pid];
    var c := Shows(frames, d, i, j);
    CellsOf(frames, d, i, j);
    if c.Some? && c.value.writable && off < |c.value.bytes| {
      OneCell(frames, frames', d, i, j, Cell(c.value.bytes[off := value], true));
    } else {
      SameSpace(frames, d, frames', d);
    }
    OneSpace(frames, frames', cr3, pid, SpaceOf(frames', d));
    assert Spaces(frames, cr3)[pid] == SpaceOf(frames, d);
  }

  lemma TouchSpaces(frames: seq<Frame>, frames': seq<Frame>, cr3: map<nat, nat>, pid: nat, i: nat, j: nat)
    requires Owned(frames, cr3, {}) && pid in cr3 && i < PTRS && j < PTRS
    requires OthersKept(frames, frames', cr3[pid]) && SlotsKeptBut(frames, frames', cr3[pid], i)
    requires !Slot(frames', cr3[pid], i).Kernel? && !Slot(frames, cr3[pid], i).Kernel?
    requires forall j': nat ::
      Shows(frames', cr3[pid], i, j') == if j' == j && Shows(frames, cr3[pid], i, j).None?
        then Some(Cell(Zeros(), true)) else Shows(frames, cr3[pid], i, j')
    ensures Spaces(frames', cr3) == Eager(Spaces(frames, cr3), Touch(pid, i, j))
  {
    hide Shows, Slot, Owned, Zeros;
    var d := cr3[pid];
    CellsOf(frames, d, i, j);
    if Shows(frames, d, i, j).None? {
      OneCell(frames, frames', d, i, j, Cell(Zeros(), true));
    } else {
      SameSpace(frames, d, frames', d);
    }
    OneSpace(frames, frames', cr3, pid, SpaceOf(frames', d));
    assert Spaces(frames, cr3)[pid] == SpaceOf(frames, d);
  }

  /** Nothing to do for an operation on a process that is not there, or on an address of the kernel. */
  lemma NoEffect(frames: seq<Frame>, cr3: map<nat, nat>, op: Op)
    requires match op
             case Fork(parent, child) => parent !in cr3 || child in cr3
             case Write(pid, _, _, _, _) => pid !in cr3
             case Touch(pid, i, _) => pid !in cr3 || (i < PTRS && Slot(frames, cr3[pid], i).Kernel?)
             case Exit(pid) => pid !in cr3
    ensures Eager(Spaces(frames, cr3), op) == Spaces(frames, cr3)
  {
    hide Shows, Slot;
  }

  /** Memory is too short: no frame for the directory and each table of the parent of a fork, for the copy a write
      needs, or for the page, and the table, of a first touch. */
  predicate Short(m: Memory, reserved: set<nat>, cr3: map<nat, nat>, op: Op) {
    match op
    case Fork(parent, child) =>
      parent in cr3 && child !in cr3 && IsDir(m.frames, cr3[parent])
        && |m.free| <= OwnTables(m.frames[cr3[parent]].slots)
    case Write(pid, i, j, _, _) => pid in cr3 && m.free == [] && NeedsCopy(m, reserved, cr3[pid], i, j)
    case Touch(pid, i, j) => pid in cr3 && |m.free| < FramesFor(m.frames, cr3[pid], i, j)
    case Exit(_) => false
  }

  /** One operation as the kernel does it; false exactly when memory is short. */
  method Step(mm: Mm, op: Op) returns (ok: bool)
    requires mm.Valid({}) && InRange(op)
    modifies mm
    ensures mm.Valid({})
    ensures Spaces(mm.m.frames, mm.cr3) == if ok then Eager(Spaces(old(mm.m.frames), old(mm.cr3)), op)
        else Spaces(old(mm.m.frames), old(mm.cr3))
    ensures ok <==> !Short(old(mm.m), mm.reserved, old(mm.cr3), op)
  {
    hide Core, Owned, Shows, SpaceOf, Spaces, Eager, Slot, NeedsCopy;
    match op {
      case Fork(parent, child) =>
        if parent !in mm.cr3 || child in mm.cr3 { NoEffect(mm.m.frames, mm.cr3, op); return true; }
        ok := mm.CopyPageTables(parent, child);
        if ok {
          ForkSpaces(old(mm.m.frames), old(mm.cr3), mm.m.frames, mm.cr3[child], parent, child);
        } else {
          KeptSpaces(old(mm.m.frames), mm.m.frames, mm.cr3);
        }
      case Write(pid, i, j, off, value) =>
        if pid !in mm.cr3 { NoEffect(mm.m.frames, mm.cr3, op); return true; }
        if mm.m.free == [] && NeedsCopy(mm.m, mm.reserved, mm.cr3[pid], i, j) { return false; }
        var segv := mm.Write(pid, i, j, off, value);
        ok := true;
        WriteSpaces(old(mm.m.frames), mm.m.frames, mm.cr3, pid, i, j, off, value);
      case Touch(pid, i, j) =>
        if pid !in mm.cr3 { NoEffect(mm.m.frames, mm.cr3, op); return true; }
        if |mm.m.free| < FramesFor(mm.m.frames, mm.cr3[pid], i, j) { return false; }
        ok := true;
        if Slot(mm.m.frames, mm.cr3[pid], i).Kernel? { NoEffect(mm.m.frames, mm.cr3, op); return; }
        mm.Touch(pid, i, j);
        TouchSpaces(old(mm.m.frames), mm.m.frames, mm.cr3, pid, i, j);
      case Exit(pid) =>
        ok := true;
        if pid !in mm.cr3 { NoEffect(mm.m.frames, mm.cr3, op); return; }
        mm.FreePageTables(pid);
        ExitSpaces(old(mm.m.frames), mm.m.frames, old(mm.cr3), pid);
        ExitIsEager(old(mm.m.frames), old(mm.cr3), pid);
    }
  }

  lemma ExitIsEager(frames: seq<Frame>, cr3: map<nat, nat>, pid: nat)
    ensures Eager(Spaces(frames, cr3), Exit(pid)) == Spaces(frames, cr3) - {pid}
  {
  }

  /** A run, up to the first operation there is no memory for: each process finds what eager copying would give it.
      `m` and `cr3` are the memory and the processes before that operation. */
  method Run(mm: Mm, ops: seq<Op>) returns (n: nat, ghost m: Memory, ghost cr3: map<nat, nat>)
    requires mm.Valid({}) && forall k :: 0 <= k < |ops| ==> InRange(ops[k])
    modifies mm
    ensures mm.Valid({}) && n <= |ops|
    ensures Spaces(mm.m.frames, mm.cr3) == EagerRun(Spaces(old(mm.m.frames), old(mm.cr3)), ops[..n])
    ensures n < |ops| ==> Short(m, mm.reserved, cr3, ops[n]) && Spaces(m.frames, cr3) == Spaces(mm.m.frames, mm.cr3)
  {
    hide Core, Owned, Spaces, Eager, Short;
    n, m, cr3 := 0, mm.m, mm.cr3;
    while n < |ops|
      invariant mm.Valid({}) && n <= |ops|
      invariant Spaces(mm.m.frames, mm.cr3) == EagerRun(Spaces(old(mm.m.frames), old(mm.cr3)), ops[..n])
    {
      m, cr3 := mm.m, mm.cr3;
      var ok := Step(mm, ops[n]);
      if !ok { return; }
      assert ops[..n + 1][..n] == ops[..n];
      n := n + 1;
    }
  }
}

/** The address areas of a process: do_munmap, insert_vm_struct, merge_segments, do_mmap (mm/mmap.c). */
module Mmap {
  import opened AreaList

  datatype Status = Ok | EInval | ENoMem | EOther

  /** Areas taken off the list because they touch a range, disjoint from the list and each other. */
  ghost predicate Pending(l: seq<Area>, fs: seq<Area>, lo: int, hi: int) {
    && (forall k :: 0 <= k < |fs| ==> Wf(fs[k]) && Touches(fs[k], lo, hi) && Free(l, fs[k]))
    && (forall j, k :: 0 <= j < k < |fs| ==> Disjoint(fs[j], fs[k]))
  }

  /** No area of the list touches the range. */
  ghost predicate Clear(l: seq<Area>, lo: int, hi: int) {
    forall k :: 0 <= k < |l| ==> !Touches(l[k], lo, hi)
  }

  /** What should be mapped when the range is gone. */
  ghost predicate Outside(l: seq<Area>, lo: int, hi: int, x: int, at: Attr) {
    Maps(l, x, at) && !(lo <= x < hi)
  }

  lemma RemoveAt(l: seq<Area>, fs: seq<Area>, i: nat, lo: int, hi: int)
    requires Sorted(l) && i < |l| && Touches(l[i], lo, hi) && Pending(l, fs, lo, hi)
    ensures Sorted(l[..i] + l[i + 1..]) && Pending(l[..i] + l[i + 1..], [l[i]] + fs, lo, hi)
  {
    var r := l[..i] + l[i + 1..];
    assert forall k :: 0 <= k < |r| ==> r[k] == l[if k < i then k else k + 1];
    forall k | 0 <= k < |fs| ensures Free(r, fs[k]) && Disjoint(l[i], fs[k]) { assert Free(l, fs[k]); }
  }

  lemma RemoveMaps(l: seq<Area>, fs: seq<Area>, i: nat, x: int, at: Attr)
    requires i < |l|
    ensures Maps(l, x, at) || Maps(fs, x, at) <==> Maps(l[..i] + l[i + 1..], x, at) || Maps([l[i]] + fs, x, at)
  {
    hide Maps;
    assert l == l[..i] + [l[i]] + l[i + 1..];
    MapsConcat(l[..i] + [l[i]], l[i + 1..], x, at);
    MapsConcat(l[..i], [l[i]], x, at);
    MapsConcat(l[..i], l[i + 1..], x, at);
    MapsConcat([l[i]], fs, x, at);
  }

  class Space {
    var mmap: seq<Area>

    constructor ()
      ensures mmap == []
    {
      mmap := [];
    }

    /** insert_vm_struct: an area put at its place; the list stays in order just when it is put where nothing is. */
    method InsertVmStruct(a: Area) returns (ghost i: nat)
      requires Sorted(mmap)
      modifies this
      ensures i <= |old(mmap)| && mmap == old(mmap)[..i] + [a] + old(mmap)[i..]
      ensures forall j :: i <= j < |old(mmap)| ==> old(mmap)[j].start > a.start
      ensures Sorted(mmap) <==> Wf(a) && Free(old(mmap), a)
      ensures forall x, at :: Maps(mmap, x, at) <==> Maps(old(mmap), x, at) || (Inside(a, x) && AttrOf(a, x) == at)
      ensures forall b :: Free(old(mmap), b) && Disjoint(a, b) ==> Free(mmap, b)
      ensures forall lo, hi :: Clear(old(mmap), lo, hi) && !Touches(a, lo, hi) ==> Clear(mmap, lo, hi)
    {
      hide Maps, Free, Clear;
      var k: nat := 0;
      while k < |mmap| && mmap[k].start <= a.start
        invariant k <= |mmap| && mmap == old(mmap)
        invariant forall j :: 0 <= j < k ==> mmap[j].start <= a.start
      {
        k := k + 1;
      }
      i := k;
      if Wf(a) && Free(mmap, a) { Inserted(mmap, a, k); }
      if Sorted(mmap[..k] + [a] + mmap[k..]) { NotInserted(mmap, a, k); }
      InsertedKeeps(mmap, a, k);
      mmap := mmap[..k] + [a] + mmap[k..];
      forall x, at ensures Maps(mmap, x, at) <==> Maps(old(mmap), x, at) || (Inside(a, x) && AttrOf(a, x) == at) {
        InsertedMaps(old(mmap), a, k, x, at);
      }
    }

    /** unmap_fixup: of an area taken off the list, what lies outside the range is put back. */
    method UnmapFixup(area: Area, addr: int, len: int)
      requires Sorted(mmap) && Wf(area) && Free(mmap, area)
      modifies this
      ensures !Cuttable(area, addr, addr + len) ==> mmap == old(mmap)
      ensures Cuttable(area, addr, addr + len) ==> Sorted(mmap) && PutBack(old(mmap), area, addr, addr + len, mmap)
      ensures forall b :: Free(old(mmap), b) && Disjoint(area, b) ==> Free(mmap, b)
      ensures forall lo, hi ::
        Clear(old(mmap), lo, hi) && StaysOut(area, addr, addr + len, lo, hi) ==> Clear(mmap, lo, hi)
    {
      hide Maps, Sorted, Wrap, Free, Clear;
      var end := addr + len;
      if addr < area.start || addr >= area.end || end <= area.start || end > area.end || end < addr {
        return;
      }
      if addr == area.start && end == area.end { return; }
      var a := area;
      if addr >= a.start && end == a.end { a := a.(end := addr); }
      if addr == a.start && end <= a.end { a := Above(a, end); }
      FreePart(mmap, area, a);
      if addr > a.start && end < a.end {
        var mpnt := Above(a, end);
        FreePart(mmap, area, mpnt);
        FreePart(mmap, area, a.(end := addr));
        ghost var i := InsertVmStruct(mpnt);
        a := a.(end := addr);
      }
      ghost var i := InsertVmStruct(a);
      forall x ensures AttrOf(Above(area, end), x) == AttrOf(area, x) { AboveAttr(area, end, x); }
    }

    /** The areas that touch a range taken off the list. */
    method TakeOff(addr: int, end: int) returns (free: seq<Area>)
      requires Sorted(mmap) && addr < end
      modifies this
      ensures Sorted(mmap) && Clear(mmap, addr, end) && Pending(mmap, free, addr, end)
      ensures forall x, at :: Maps(old(mmap), x, at) <==> Maps(mmap, x, at) || Maps(free, x, at)
      ensures free == [] ==> mmap == old(mmap)
    {
      hide Maps, Pending, Free;
      free := [];
      var i: nat := 0;
      NonePending(mmap, addr, end);
      while i < |mmap|
        invariant i <= |mmap| && Sorted(mmap) && Pending(mmap, free, addr, end)
        invariant forall k :: 0 <= k < i ==> !Touches(mmap[k], addr, end)
        invariant forall x, at :: Maps(old(mmap), x, at) <==> Maps(mmap, x, at) || Maps(free, x, at)
        invariant free == [] ==> mmap == old(mmap)
        decreases |mmap| - i
      {
        var mpnt := mmap[i];
        if (addr < mpnt.start && end <= mpnt.start) || (addr >= mpnt.end && end > mpnt.end) {
          i := i + 1;
        } else {
          ghost var l, fs := mmap, free;
          RemoveAt(mmap, free, i, addr, end);
          free := [mpnt] + free;
          mmap := mmap[..i] + mmap[i + 1..];
          forall x, at
            ensures Maps(l, x, at) || Maps(fs, x, at) <==> Maps(mmap, x, at) || Maps(free, x, at)
          {
            RemoveMaps(l, fs, i, x, at);
          }
        }
      }
    }

    /** What the areas taken off keep outside the range put back. */
    method PutRemains(fs: seq<Area>, addr: int, end: int)
      requires Sorted(mmap) && Clear(mmap, addr, end) && Pending(mmap, fs, addr, end) && addr < end
      modifies this
      ensures Sorted(mmap) && Clear(mmap, addr, end)
      ensures forall x, at :: Maps(mmap, x, at) <==> Maps(old(mmap), x, at) || Outside(fs, addr, end, x, at)
    {
      hide Maps, Sorted, Free, Clear, Pending;
      var free := fs;
      while free != []
        invariant Sorted(mmap) && Clear(mmap, addr, end) && Pending(mmap, free, addr, end)
        invariant forall x, at ::
          Maps(old(mmap), x, at) || Outside(fs, addr, end, x, at) <==>
            Maps(mmap, x, at) || Outside(free, addr, end, x, at)
        decreases |free|
      {
        var mpnt := free[0];
        FirstPending(mmap, free, addr, end);
        var st := if addr < mpnt.start then mpnt.start else addr;
        var en := if end > mpnt.end then mpnt.end else end;
        ghost var l, rest := mmap, free;
        UnmapFixup(mpnt, st, en - st);
        free := free[1..];
        StillPending(l, rest, mmap, addr, end);
        forall x, at
          ensures Maps(l, x, at) || Outside(rest, addr, end, x, at) <==>
              Maps(mmap, x, at) || Outside(free, addr, end, x, at)
        {
          FirstMaps(rest, x, at);
        }
      }
      NoneOutside(addr, end);
    }

    /** do_munmap: the page-rounded range unmapped, everything else as it was. */
    method DoMunmap(addr: int, len: int) returns (err: Status)
      requires Sorted(mmap) && 0 <= addr < WORD && 0 <= len < WORD
      modifies this
      ensures err == if !Aligned(addr) || addr > TASK_SIZE || len > TASK_SIZE - addr then EInval else Ok
      ensures Sorted(mmap) && (err.EInval? ==> mmap == old(mmap))
      ensures err.Ok? ==> forall x, at :: Maps(mmap, x, at) <==> Outside(old(mmap), addr, addr + RoundUp(len), x, at)
      ensures err.Ok? && len > 0 ==> Clear(mmap, addr, addr + RoundUp(len))
    {
      hide Maps, Sorted, Clear, Pending;
      if !Aligned(addr) || addr > TASK_SIZE || len > TASK_SIZE - addr { return EInval; }
      err := Ok;
      var size := PageAlign(len);
      AlignIsRoundUp(len);
      if size == 0 { return; }
      var free := TakeOff(addr, addr + size);
      forall x, at | Maps(mmap, x, at) ensures !(addr <= x < addr + size) {
        ClearOutside(mmap, addr, addr + size, x, at);
      }
      if free == [] { return; }
      PutRemains(free, addr, addr + size);
    }
  }

  /** Whole pages that hold `len` bytes. */
  function RoundUp(len: int): int {
    (len + PAGE_SIZE - 1) / PAGE_SIZE * PAGE_SIZE
  }

  lemma AlignIsRoundUp(len: int)
    requires 0 <= len <= TASK_SIZE
    ensures PageAlign(len) == RoundUp(len) && 0 <= len <= RoundUp(len) < len + PAGE_SIZE
  {
  }

  lemma NonePending(l: seq<Area>, lo: int, hi: int)
    ensures Pending(l, [], lo, hi) && forall x, at :: !Maps([], x, at)
  {
  }

  lemma NoneOutside(lo: int, hi: int)
    ensures forall x, at :: !Maps([], x, at)
  {
  }

  lemma FirstPending(l: seq<Area>, fs: seq<Area>, lo: int, hi: int)
    requires Pending(l, fs, lo, hi) && fs != []
    ensures Wf(fs[0]) && Touches(fs[0], lo, hi) && Free(l, fs[0])
  {
  }

  /** The lists of what stays off are disjoint from what has been put back. */
  lemma StillPending(l: seq<Area>, fs: seq<Area>, l': seq<Area>, lo: int, hi: int)
    requires Pending(l, fs, lo, hi) && fs != [] && forall b :: Free(l, b) && Disjoint(fs[0], b) ==> Free(l', b)
    ensures Pending(l', fs[1..], lo, hi)
  {
  }

  lemma ClearOutside(l: seq<Area>, lo: int, hi: int, x: int, at: Attr)
    requires Clear(l, lo, hi) && Maps(l, x, at)
    ensures !(lo <= x < hi)
  {
  }

  lemma FirstMaps(fs: seq<Area>, x: int, at: Attr)
    requires fs != []
    ensures Maps(fs, x, at) <==> (Inside(fs[0], x) && AttrOf(fs[0], x) == at) || Maps(fs[1..], x, at)
  {
    assert fs == [fs[0]] + fs[1..];
    MapsConcat([fs[0]], fs[1..], x, at);
    MapsOne(fs[0], x, at);
  }

  predicate Cuttable(a: Area, lo: int, hi: int) {
    a.start <= lo < a.end && a.start < hi <= a.end && lo <= hi
  }

  /** The parts of an area outside `lo`..`hi` do not reach into `lo'`..`hi'`. */
  predicate StaysOut(a: Area, lo: int, hi: int, lo': int, hi': int) {
    (a.start < lo ==> lo <= lo') && (hi < a.end ==> hi' <= hi)
  }

  /** The list with the parts of an area outside a range added. */
  ghost predicate PutBack(l: seq<Area>, a: Area, lo: int, hi: int, l': seq<Area>) {
    forall x, at :: Maps(l', x, at) <==> Maps(l, x, at) || (Inside(a, x) && AttrOf(a, x) == at && !(lo <= x < hi))
  }

  lemma FreePart(l: seq<Area>, a: Area, b: Area)
    requires Free(l, a) && a.start <= b.start && b.end <= a.end
    ensures Free(l, b)
  {
  }

  lemma NotInserted(l: seq<Area>, a: Area, i: nat)
    requires i <= |l| && Sorted(l[..i] + [a] + l[i..])
    ensures Wf(a) && Free(l, a)
  {
    var r := l[..i] + [a] + l[i..];
    assert r[i] == a;
    forall k | 0 <= k < |l| ensures Disjoint(l[k], a) { assert l[k] == r[if k < i then k else k + 1]; }
  }

  lemma InsertedKeeps(l: seq<Area>, a: Area, i: nat)
    requires i <= |l|
    ensures forall b :: Free(l, b) && Disjoint(a, b) ==> Free(l[..i] + [a] + l[i..], b)
    ensures forall lo, hi :: Clear(l, lo, hi) && !Touches(a, lo, hi) ==> Clear(l[..i] + [a] + l[i..], lo, hi)
  {
  }

  // ---------------------------------------------------------------- merging

  /** The test of merge_segments, with its offset test or with ignoff_mergep. */
  predicate Mergeable(p: Area, m: Area, ignoreOffset: bool) {
    && p.ops == m.ops && p.prot == m.prot && p.inode == m.inode && p.end == m.start && p.share == m.share
    && (if ignoreOffset then p.inode == 0 else Wrap(p.offset + (p.end - p.start)) == m.offset)
  }

  ghost predicate Merged(l: seq<Area>, ignoreOffset: bool, n: nat) {
    forall i :: 0 <= i < |l| - 1 && i < n ==> !Mergeable(l[i], l[i + 1], ignoreOffset)
  }

  /** Two neighbours that one area could stand for. */
  ghost predicate Alike(p: Area, m: Area) {
    && p.end == m.start && m.start < m.end && 0 <= m.offset < WORD
    && forall x :: Inside(m, x) ==> AttrOf(p.(end := m.end), x) == AttrOf(m, x)
  }

  /** Of neighbours that one area could stand for, those with a file, or without one, are made one. */
  lemma MergedAlike(p: Area, m: Area, ignoreOffset: bool)
    requires Alike(p, m) && ignoreOffset == (m.inode == 0)
    ensures Mergeable(p, m, ignoreOffset)
  {
    assert Inside(m, m.start);
    assert AttrOf(p.(end := m.end), m.start) == AttrOf(m, m.start);
  }

  /** No neighbours are left that should be one. */
  ghost predicate NoneAlike(l: seq<Area>, ignoreOffset: bool) {
    forall i :: 0 <= i < |l| - 1 && ignoreOffset == (l[i + 1].inode == 0) ==> !Alike(l[i], l[i + 1])
  }

  lemma NoneLeft(l: seq<Area>, ignoreOffset: bool)
    requires Merged(l, ignoreOffset, |l|)
    ensures NoneAlike(l, ignoreOffset)
  {
    hide Mergeable, Alike;
    forall i | 0 <= i < |l| - 1 && ignoreOffset == (l[i + 1].inode == 0) ensures !Alike(l[i], l[i + 1]) {
      if Alike(l[i], l[i + 1]) { MergedAlike(l[i], l[i + 1], ignoreOffset); }
    }
  }

  lemma MergeAttr(p: Area, m: Area, ignoreOffset: bool, x: int)
    requires Mergeable(p, m, ignoreOffset)
    ensures AttrOf(p.(end := m.end), x) == AttrOf(m, x)
  {
    assert !ignoreOffset ==> Wrap(m.offset + x - m.start) == Wrap(p.offset + x - p.start);
  }

  lemma MergeMaps(l: seq<Area>, i: nat, ignoreOffset: bool, x: int, at: Attr)
    requires i + 1 < |l| && Wf(l[i]) && Wf(l[i + 1]) && Mergeable(l[i], l[i + 1], ignoreOffset)
    ensures Maps(l[..i] + [l[i].(end := l[i + 1].end)] + l[i + 2..], x, at) <==> Maps(l, x, at)
  {
    hide Maps, Wrap;
    var p, m := l[i], l[i + 1];
    var q := p.(end := m.end);
    MergeAttr(p, m, ignoreOffset, x);
    assert l == l[..i] + [p] + [m] + l[i + 2..];
    MapsConcat(l[..i] + [p] + [m], l[i + 2..], x, at);
    MapsConcat(l[..i] + [p], [m], x, at);
    MapsConcat(l[..i], [p], x, at);
    MapsConcat(l[..i] + [q], l[i + 2..], x, at);
    MapsConcat(l[..i], [q], x, at);
    MapsOne(p, x, at);
    MapsOne(m, x, at);
    MapsOne(q, x, at);
  }

  lemma MergeSorted(l: seq<Area>, i: nat, ignoreOffset: bool)
    requires Sorted(l) && i + 1 < |l| && Mergeable(l[i], l[i + 1], ignoreOffset) && Merged(l, ignoreOffset, i)
    ensures var r := l[..i] + [l[i].(end := l[i + 1].end)] + l[i + 2..]; Sorted(r) && Merged(r, ignoreOffset, i)
  {
    hide Mergeable;
    var r := l[..i] + [l[i].(end := l[i + 1].end)] + l[i + 2..];
    assert forall k :: 0 <= k < |r| ==> r[k] == if k < i then l[k] else if k == i then l[i].(end := l[i + 1].end)
        else l[k + 1];
    forall k | 0 <= k < |r| - 1 && k < i ensures !Mergeable(r[k], r[k + 1], ignoreOffset) {
      assert !Mergeable(l[k], l[k + 1], ignoreOffset);
      EndIsFree(l[k], l[k + 1], r[k + 1], ignoreOffset);
    }
  }

  /** Where the upper area ends plays no part in the test. */
  lemma EndIsFree(p: Area, m: Area, m': Area, ignoreOffset: bool)
    requires m' == m.(end := m'.end)
    ensures Mergeable(p, m', ignoreOffset) == Mergeable(p, m, ignoreOffset)
  {
  }

  /** An area that ends at zero, with none behind it that starts there. */
  ghost predicate Broken(l: seq<Area>) {
    exists i :: 0 <= i < |l| && l[i].end == 0 && NoneAtZero(l, i)
  }

  ghost predicate NoneAtZero(l: seq<Area>, i: nat) {
    forall j :: i < j < |l| ==> l[j].start > 0
  }

  lemma BrokenUnsorted(l: seq<Area>)
    requires Broken(l)
    ensures !Sorted(l)
  {
  }

  lemma MergeBroken(l: seq<Area>, i: nat, ignoreOffset: bool)
    requires Broken(l) && i + 1 < |l| && Mergeable(l[i], l[i + 1], ignoreOffset)
    ensures Broken(l[..i] + [l[i].(end := l[i + 1].end)] + l[i + 2..])
  {
    var r := l[..i] + [l[i].(end := l[i + 1].end)] + l[i + 2..];
    var k :| 0 <= k < |l| && l[k].end == 0 && NoneAtZero(l, k);
    MergedEnd(l[i], l[i + 1], ignoreOffset);
    hide Mergeable;
    var k' := if k <= i then k else k - 1;
    assert forall j :: i < j < |r| ==> r[j] == l[j + 1];
    assert r[k'].end == 0 && NoneAtZero(r, k');
  }

  /** merge_segments: neighbours made one as far as they can, every address mapped as before. */
  method MergeSegments(s: Space, ignoreOffset: bool)
    modifies s
    ensures |s.mmap| <= |old(s.mmap)| && (Broken(old(s.mmap)) ==> Broken(s.mmap))
    ensures Sorted(old(s.mmap)) ==> Sorted(s.mmap) && NoneAlike(s.mmap, ignoreOffset)
    ensures Sorted(old(s.mmap)) ==> forall x, at :: Maps(s.mmap, x, at) <==> Maps(old(s.mmap), x, at)
  {
    hide Maps, Mergeable, Sorted, Broken, Merged, NoneAlike;
    var i: nat := 0;
    ghost var sorted := Sorted(s.mmap);
    NothingMerged(s.mmap, ignoreOffset);
    while i + 1 < |s.mmap|
      invariant i <= |s.mmap| <= |old(s.mmap)| && (Broken(old(s.mmap)) ==> Broken(s.mmap))
      invariant sorted ==> Sorted(s.mmap) && Merged(s.mmap, ignoreOffset, i)
      invariant sorted ==> forall x, at :: Maps(s.mmap, x, at) <==> Maps(old(s.mmap), x, at)
      decreases |s.mmap| - i
    {
      var prev, mpnt := s.mmap[i], s.mmap[i + 1];
      if Mergeable(prev, mpnt, ignoreOffset) {
        ghost var l := s.mmap;
        if Broken(l) { MergeBroken(l, i, ignoreOffset); }
        s.mmap := s.mmap[..i] + [prev.(end := mpnt.end)] + s.mmap[i + 2..];
        if sorted {
          MergeSorted(l, i, ignoreOffset);
          SortedWf(l, i);
          forall x, at ensures Maps(s.mmap, x, at) <==> Maps(l, x, at) { MergeMaps(l, i, ignoreOffset, x, at); }
        }
      } else {
        if sorted { MergedNext(s.mmap, i, ignoreOffset); }
        i := i + 1;
      }
    }
    if sorted {
      MergedAll(s.mmap, i, ignoreOffset);
      NoneLeft(s.mmap, ignoreOffset);
    }
  }

  lemma NothingMerged(l: seq<Area>, ignoreOffset: bool)
    ensures Merged(l, ignoreOffset, 0)
  {
  }

  lemma MergedNext(l: seq<Area>, i: nat, ignoreOffset: bool)
    requires Merged(l, ignoreOffset, i) && i + 1 < |l| && !Mergeable(l[i], l[i + 1], ignoreOffset)
    ensures Merged(l, ignoreOffset, i + 1)
  {
  }

  lemma MergedAll(l: seq<Area>, i: nat, ignoreOffset: bool)
    requires Merged(l, ignoreOffset, i) && i + 1 >= |l|
    ensures Merged(l, ignoreOffset, |l|)
  {
  }

  lemma SortedWf(l: seq<Area>, i: nat)
    requires Sorted(l) && i + 1 < |l|
    ensures Wf(l[i]) && Wf(l[i + 1])
  {
  }

  lemma MergedEnd(p: Area, m: Area, ignoreOffset: bool)
    requires Mergeable(p, m, ignoreOffset)
    ensures p.end == m.start
  {
  }

  // ---------------------------------------------------------------- finding room

  /** Nothing is mapped in the `len` bytes from `a`. */
  ghost predicate Room(l: seq<Area>, a: int, len: int) {
    forall i :: 0 <= i < |l| ==> l[i].end <= a || a + len <= l[i].start
  }

  /** A page-aligned place in the range of the search. */
  predicate Candidate(a: int, len: int) {
    SHM_RANGE_START <= a && a + len < SHM_RANGE_END && Aligned(a)
  }

  /** The first area in the way, or the length of the list. */
  method InTheWay(l: seq<Area>, addr: int, len: int) returns (k: nat)
    requires forall i :: 0 <= i < |l| ==> Wf(l[i])
    ensures k <= |l|
    ensures k < |l| ==> l[k].end > addr && Wrap(addr + len) > l[k].start
    ensures k == |l| ==> forall i :: 0 <= i < |l| ==> l[i].end <= addr || Wrap(addr + len) <= l[i].start
  {
    k := 0;
    while k < |l|
      invariant k <= |l|
      invariant forall i :: 0 <= i < k ==> l[i].end <= addr || Wrap(addr + len) <= l[i].start
    {
      if addr >= l[k].end || Wrap(addr + len) <= l[k].start {
        k := k + 1;
      } else {
        return;
      }
    }
  }

  /** Past an area in the way there is the first place worth trying next. */
  lemma NextPlace(l: seq<Area>, k: nat, addr: int, len: int)
    requires k < |l| && Wf(l[k]) && Aligned(addr) && 0 <= addr < l[k].end && addr + len > l[k].start
    ensures addr < PageAlign(l[k].end) <= TASK_SIZE && Aligned(PageAlign(l[k].end))
    ensures forall a :: addr <= a < PageAlign(l[k].end) && Aligned(a) ==> !Room(l, a, len)
  {
    var e := l[k].end;
    assert PageAlign(e) < e + PAGE_SIZE && e <= PageAlign(e);
    forall a | addr <= a < PageAlign(e) && Aligned(a) ensures !Room(l, a, len) {
      assert a + PAGE_SIZE <= PageAlign(e) by { PageApart(a, PageAlign(e)); }
      assert !(l[k].end <= a || a + len <= l[k].start);
    }
  }

  lemma PageApart(a: int, b: int)
    requires Aligned(a) && Aligned(b) && a < b
    ensures a + PAGE_SIZE <= b
  {
  }

  /** The lowest room in the range of the search, if there is any, unless the length is all of TASK_SIZE. */
  method FindRoom(l: seq<Area>, len: int) returns (found: bool, addr: int)
    requires Sorted(l) && 0 < len <= TASK_SIZE
    ensures len < TASK_SIZE && found ==> Candidate(addr, len) && Room(l, addr, len)
    ensures len < TASK_SIZE && found ==> forall a :: Candidate(a, len) && a < addr ==> !Room(l, a, len)
    ensures len < TASK_SIZE && !found ==> forall a :: Candidate(a, len) ==> !Room(l, a, len)
    ensures len == TASK_SIZE ==> found && addr == SHM_RANGE_START && !Candidate(addr, len)
  {
    hide Room, PageAlign;
    addr := SHM_RANGE_START;
    while Wrap(addr + len) < SHM_RANGE_END
      invariant Aligned(addr) && SHM_RANGE_START <= addr <= TASK_SIZE
      invariant len == TASK_SIZE ==> addr == SHM_RANGE_START
      invariant addr == SHM_RANGE_START || len < SHM_RANGE_END - SHM_RANGE_START
      invariant forall a :: Candidate(a, len) && a < addr ==> !Room(l, a, len)
      decreases TASK_SIZE - addr
    {
      var k := InTheWay(l, addr, len);
      if k == |l| {
        if len < TASK_SIZE { IsRoom(l, addr, len); }
        return true, addr;
      }
      NextPlace(l, k, addr, len);
      addr := PageAlign(l[k].end);
    }
    found := false;
  }

  lemma IsRoom(l: seq<Area>, addr: int, len: int)
    requires forall i :: 0 <= i < |l| ==> l[i].end <= addr || addr + len <= l[i].start
    ensures Room(l, addr, len)
  {
  }

  // ---------------------------------------------------------------- do_mmap

  /** What to map: a file through its own operation, or plain memory; `denied` is what the checks of the file say,
      `nodev` that it has no such operation, `fails` what the mapper says. */
  datatype Want = Want(
    addr: int, len: int, fixed: bool, prot: int, inode: nat, offset: int, ops: nat, denied: bool, nodev: bool,
      fails: bool)

  predicate Words(w: Want) {
    0 <= w.addr < WORD && 0 <= w.len < WORD && 0 <= w.offset < WORD
  }

  function NewArea(w: Want, addr: int, len: int): Area {
    Area(addr, Wrap(addr + len), w.prot, w.inode, if w.inode == 0 then 0 else w.offset, w.ops, 0)
  }

  /** What an address of the range from `addr` is to be mapped to. */
  ghost function Wanted(w: Want, addr: int, x: int): Attr {
    Attr(w.prot, w.inode, if w.inode == 0 then 0 else Wrap(w.offset + (x - addr)), w.ops, 0)
  }

  lemma NewAttr(w: Want, addr: int, len: int, x: int)
    ensures AttrOf(NewArea(w, addr, len), x) == Wanted(w, addr, x)
  {
    assert w.offset + x - addr == w.offset + (x - addr);
  }

  /** The range from `addr` mapped as wanted, everything else as it was. */
  ghost predicate MappedIn(l: seq<Area>, w: Want, addr: int, len: int, l': seq<Area>) {
    forall x, at :: Maps(l', x, at) <==> if addr <= x < addr + len then at == Wanted(w, addr, x)
      else Maps(l, x, at)
  }

  lemma ClearIsFree(l: seq<Area>, a: Area)
    requires Clear(l, a.start, a.end) && Sorted(l)
    ensures Free(l, a)
  {
  }

  /** The new area put at its place and merged with its neighbours, where nothing is mapped; the list is out of order
      when the end of the area wraps to zero. */
  method PutArea(s: Space, w: Want, addr: int, len: int, ghost l: seq<Area>)
    requires Sorted(s.mmap) && 0 < addr + len <= WORD && 0 <= addr && 0 < len
    requires addr + len <= TASK_SIZE ==> Clear(s.mmap, addr, addr + len)
    requires addr + len <= TASK_SIZE ==> forall x, at :: Maps(s.mmap, x, at) <==> Outside(l, addr, addr + len, x, at)
    modifies s
    ensures addr + len <= TASK_SIZE ==> Sorted(s.mmap) && MappedIn(l, w, addr, len, s.mmap)
    ensures addr + len <= TASK_SIZE ==> NoneAlike(s.mmap, w.inode == 0)
    ensures addr + len == WORD ==> !Sorted(s.mmap)
  {
    forall x ensures AttrOf(NewArea(w, addr, len), x) == Wanted(w, addr, x) { NewAttr(w, addr, len, x); }
    hide Maps, Sorted, Clear, Free, AttrOf, Broken, NoneAlike, Wanted;
    ghost var was := s.mmap;
    var a := NewArea(w, addr, len);
    if addr + len <= TASK_SIZE { ClearIsFree(s.mmap, a); }
    ghost var i := s.InsertVmStruct(a);
    if addr + len == WORD { EndsAtZero(was, a, i); }
    MergeSegments(s, w.inode == 0);
    if addr + len == WORD { BrokenUnsorted(s.mmap); }
  }

  lemma EndsAtZero(l: seq<Area>, a: Area, i: nat)
    requires i <= |l| && a.end == 0 && a.start >= 0 && forall j :: i <= j < |l| ==> l[j].start > a.start
    ensures Broken(l[..i] + [a] + l[i..])
  {
    var r := l[..i] + [a] + l[i..];
    assert r[i] == a && NoneAtZero(r, i);
  }

  /** A mapping of all of TASK_SIZE at no given place: the search wraps around. */
  predicate Wraps(w: Want) {
    !w.fixed && PageAlign(w.len) == TASK_SIZE
  }

  /** One that nothing keeps from being made: the end of its area wraps to zero. */
  predicate GoesAstray(w: Want) {
    Wraps(w) && w.addr == 0 && !w.denied && !w.nodev && w.prot != 0 && !w.fails
  }

  lemma AstrayExample()
    ensures var w := Want(0, TASK_SIZE, false, 1, 0, 0, 0, false, false, false); Words(w) && GoesAstray(w)
  {
  }

  /** The range asked for ends in user space. */
  ghost predicate InSpace(w: Want) {
    w.addr <= TASK_SIZE && PageAlign(w.len) <= TASK_SIZE && w.addr <= TASK_SIZE - PageAlign(w.len)
  }

  /** There is a place for it, where `room` says what is free. */
  ghost predicate HasPlace(w: Want, room: (int, int) -> bool) {
    if w.fixed then Aligned(w.addr)
    else PageAlign(w.len) == TASK_SIZE || exists a :: Candidate(a, PageAlign(w.len)) && room(a, PageAlign(w.len))
  }

  /** The place: the one asked for, or the lowest there is. */
  ghost predicate IsPlace(w: Want, addr: int, room: (int, int) -> bool) {
    var len := PageAlign(w.len);
    if w.fixed then addr == w.addr
    else if len == TASK_SIZE then addr == SHM_RANGE_START
    else Candidate(addr, len) && room(addr, len) && forall a :: Candidate(a, len) && a < addr ==> !room(a, len)
  }

  /** What each request is answered. */
  ghost predicate Answers(w: Want, err: Status, addr: int, room: (int, int) -> bool) {
    var some, allowed, place := PageAlign(w.len) != 0, InSpace(w) && !w.denied, HasPlace(w, room);
    var misplaced := !InSpace(w) || (allowed && w.fixed && !place);
    var useless := allowed && place && !w.nodev && w.prot == 0;
    var broken := allowed && place && (w.nodev || (w.prot != 0 && w.fails));
    && (err.Ok? <==> !some || (allowed && place && !w.nodev && w.prot != 0 && !w.fails))
    && (err.ENoMem? <==> some && allowed && !w.fixed && !place)
    && (err.EInval? <==> some && (misplaced || useless))
    && (err.EOther? <==> some && ((InSpace(w) && w.denied) || broken))
    && (some && (err.Ok? || (err.EOther? && !w.denied)) ==> IsPlace(w, addr, room))
  }

  /** do_mmap: the list stays in order exactly when the new area does not wrap. A failure of the mapper comes after the
      old mappings of the range are gone. */
  method DoMmap(s: Space, w: Want) returns (err: Status, addr: int)
    requires Sorted(s.mmap) && Words(w)
    modifies s
    ensures Answers(w, err, addr, (a, len) => Room(old(s.mmap), a, len))
    ensures err.Ok? && Wraps(w) ==> GoesAstray(w)
    ensures Sorted(s.mmap) <==> !GoesAstray(w)
    ensures err.EInval? || err.ENoMem? || PageAlign(w.len) == 0 ==> s.mmap == old(s.mmap)
    ensures err.Ok? && PageAlign(w.len) > 0 && !Wraps(w) ==> MappedIn(old(s.mmap), w, addr, PageAlign(w.len), s.mmap)
    ensures err.Ok? && PageAlign(w.len) > 0 && !Wraps(w) ==> NoneAlike(s.mmap, w.inode == 0)
    ensures err.EOther? && (w.denied || w.nodev || Wraps(w)) ==> s.mmap == old(s.mmap)
    ensures err.EOther? && !(w.denied || w.nodev || Wraps(w)) ==>
      forall x, at :: Maps(s.mmap, x, at) <==> Outside(old(s.mmap), addr, addr + PageAlign(w.len), x, at)
  {
    hide Maps, Sorted, Clear, Room, MappedIn, Wrap, Wanted, NoneAlike;
    addr := w.addr;
    var len := PageAlign(w.len);
    if len == 0 { return Ok, addr; }
    if addr > TASK_SIZE || len > TASK_SIZE || addr > TASK_SIZE - len { return EInval, addr; }
    if w.denied { return EOther, addr; }
    AlignedLength(w.len);
    if w.fixed {
      if !Aligned(addr) { return EInval, addr; }
    } else {
      var found: bool;
      found, addr := FindRoom(s.mmap, len);
      if !found { return ENoMem, addr; }
    }
    if w.nodev { return EOther, addr; }
    if w.prot == 0 { return EInval, addr; }
    RoundUpSame(len);
    var e := s.DoMunmap(addr, len);
    if w.fails { return EOther, addr; }
    err := Ok;
    PutArea(s, w, addr, len, old(s.mmap));
  }

  lemma AlignedLength(len: int)
    ensures Aligned(PageAlign(len)) && PageAlign(len) >= 0
  {
  }

  lemma RoundUpSame(len: int)
    requires Aligned(len)
    ensures RoundUp(len) == len
  {
  }

  // ---------------------------------------------------------------- runs

  datatype Op = Map(want: Want) | Unmap(addr: int, len: int)

  predicate InWords(op: Op) {
    match op
    case Map(w) => Words(w)
    case Unmap(addr, len) => 0 <= addr < WORD && 0 <= len < WORD
  }

  predicate Strays(op: Op) {
    op.Map? && GoesAstray(op.want)
  }

  /** What a call answered. */
  datatype Answer = Answer(err: Status, addr: int)

  /** Whether address `x` is mapped with `at` after a call, if before it `was` says so. */
  ghost predicate Effect(op: Op, r: Answer, was: bool, x: int, at: Attr) {
    match op
    case Map(w) =>
      var len := PageAlign(w.len);
      if r.err.Ok? && r.addr <= x < r.addr + len then at == Wanted(w, r.addr, x)
      else was && !(r.err.EOther? && !w.denied && !w.nodev && !Wraps(w) && r.addr <= x < r.addr + len)
    case Unmap(addr, len) => was && !(r.err.Ok? && addr <= x < addr + RoundUp(len))
  }

  /** What the calls of a run and their answers make of the addresses. */
  ghost predicate After(l: seq<Area>, ops: seq<Op>, rs: seq<Answer>, x: int, at: Attr)
    requires |ops| == |rs|
  {
    if ops == [] then Maps(l, x, at)
    else
      var n := |ops| - 1;
      Effect(ops[n], rs[n], After(l, ops[..n], rs[..n], x, at), x, at)
  }

  /** The answer to a call, where `room` says what is free. */
  ghost predicate Right(op: Op, r: Answer, room: (int, int) -> bool) {
    match op
    case Map(w) => Answers(w, r.err, r.addr, room)
    case Unmap(addr, len) =>
      r.err == if !Aligned(addr) || addr > TASK_SIZE || len > TASK_SIZE - addr then EInval else Ok
  }

  /** Two ways to say what is free. */
  lemma RightSame(op: Op, r: Answer, room: (int, int) -> bool, room': (int, int) -> bool)
    requires Right(op, r, room) && forall a, len :: len > 0 ==> room(a, len) == room'(a, len)
    ensures Right(op, r, room')
  {
    if op.Map? {
      AlignedLength(op.want.len);
      var len := PageAlign(op.want.len);
      hide PageAlign;
      assert len != 0 ==> HasPlace(op.want, room) == HasPlace(op.want, room');
      assert len != 0 ==> IsPlace(op.want, r.addr, room) == IsPlace(op.want, r.addr, room');
    }
  }

  /** Nothing is mapped in the `len` bytes from `a` after a run. */
  ghost predicate Vacant(l: seq<Area>, ops: seq<Op>, rs: seq<Answer>, a: int, len: int)
    requires |ops| == |rs|
  {
    forall x, at :: After(l, ops, rs, x, at) ==> !(a <= x < a + len)
  }

  /** Every call is answered by what the calls before it have left. */
  ghost predicate AllRight(l: seq<Area>, ops: seq<Op>, rs: seq<Answer>)
    requires |rs| <= |ops|
  {
    forall n :: 0 <= n < |rs| ==> Right(ops[n], rs[n], (a, len) => Vacant(l, ops[..n], rs[..n], a, len))
  }

  lemma RoomMaps(l: seq<Area>, a: int, len: int)
    requires Sorted(l) && len > 0
    ensures Room(l, a, len) <==> forall x, at :: Maps(l, x, at) ==> !(a <= x < a + len)
  {
    if !Room(l, a, len) {
      var i :| 0 <= i < |l| && !(l[i].end <= a || a + len <= l[i].start);
      var x := if l[i].start < a then a else l[i].start;
      assert Maps(l, x, AttrOf(l[i], x));
    }
  }

  /** One call. */
  method OneCall(s: Space, op: Op) returns (r: Answer)
    requires Sorted(s.mmap) && InWords(op)
    modifies s
    ensures Right(op, r, (a, len) => Room(old(s.mmap), a, len)) && (Sorted(s.mmap) <==> !Strays(op))
    ensures !Strays(op) ==> forall x, at :: Maps(s.mmap, x, at) <==> Effect(op, r, Maps(old(s.mmap), x, at), x, at)
  {
    hide Maps, Sorted, PageAlign, RoundUp, AttrOf, Wraps, Answers, Room;
    match op {
      case Map(w) =>
        var err, addr := DoMmap(s, w);
        r := Answer(err, addr);
        AlignedLength(w.len);
      case Unmap(addr, len) =>
        var err := s.DoMunmap(addr, len);
        r := Answer(err, addr);
    }
  }

  lemma RightNext(l0: seq<Area>, l: seq<Area>, ops: seq<Op>, rs: seq<Answer>, r: Answer)
    requires |rs| < |ops| && AllRight(l0, ops, rs) && Sorted(l)
    requires forall x, at :: Maps(l, x, at) <==> After(l0, ops[..|rs|], rs, x, at)
    requires Right(ops[|rs|], r, (a, len) => Room(l, a, len))
    ensures AllRight(l0, ops, rs + [r])
  {
    hide Maps, Room, Right, Sorted, After;
    var n := |rs|;
    forall a, len | len > 0 ensures Room(l, a, len) <==> Vacant(l0, ops[..n], rs, a, len) { RoomMaps(l, a, len); }
    RightSame(ops[n], r, (a, len) => Room(l, a, len), (a, len) => Vacant(l0, ops[..n], rs, a, len));
    assert (rs + [r])[..n] == rs;
    forall k | 0 <= k < n + 1
      ensures Right(ops[k], (rs + [r])[k], (a, len) => Vacant(l0, ops[..k], (rs + [r])[..k], a, len))
    {
      assert k < n ==> (rs + [r])[..k] == rs[..k];
    }
  }

  /** Any run of mmap and munmap calls, up to and with the first whose area wraps: the list is sorted and disjoint after
      it exactly when there is no such call, every call is answered by what the calls before it have left, and every
      address is mapped as the calls and their answers say. */
  method Run(s: Space, ops: seq<Op>) returns (rs: seq<Answer>)
    requires Sorted(s.mmap) && forall k :: 0 <= k < |ops| ==> InWords(ops[k])
    modifies s
    ensures |rs| <= |ops| && (|rs| < |ops| ==> 0 < |rs| && Strays(ops[|rs| - 1]))
    ensures AllRight(old(s.mmap), ops, rs)
    ensures Sorted(s.mmap) <==> forall k :: 0 <= k < |ops| ==> !Strays(ops[k])
    ensures Sorted(s.mmap) ==>
      |rs| == |ops| && forall x, at :: Maps(s.mmap, x, at) <==> After(old(s.mmap), ops, rs, x, at)
  {
    hide Maps, Sorted, Strays, Effect, InWords, Right, Room;
    rs := [];
    while |rs| < |ops|
      invariant |rs| <= |ops| && AllRight(old(s.mmap), ops, rs)
      invariant Sorted(s.mmap) && forall k :: 0 <= k < |rs| ==> !Strays(ops[k])
      invariant forall x, at :: Maps(s.mmap, x, at) <==> After(old(s.mmap), ops[..|rs|], rs, x, at)
    {
      ghost var l := s.mmap;
      var n := |rs|;
      var r := OneCall(s, ops[n]);
      assert ops[..n + 1][..n] == ops[..n] && (rs + [r])[..n] == rs;
      RightNext(old(s.mmap), l, ops, rs, r);
      rs := rs + [r];
      if Strays(ops[n]) { return; }
    }
    assert ops[..|rs|] == ops;
  }
}

/** Swap slots: entries, search hints and reference counts (mm/swap.c). */
module Swap {
  import opened Basics

  const MAX_SWAPFILES: nat := 8
  const SHM_SWP_TYPE: int := 0x41
  const MAX_SLOTS: nat := 0x10_0000      // slots an entry can name
  const BAD: int := 0x80

  // ---------------------------------------------------------------- entries

  function Entry(t: int, offset: int): int {
    2 * t + 4096 * offset
  }

  function TypeOf(entry: int): int {
    entry % 256 / 2
  }

  function OffsetOf(entry: int): int {
    entry / 4096
  }

  lemma LowPart(x: int, k: int)
    requires 0 <= x < 256
    ensures (x + 4096 * k) % 256 == x
  {
    assert x + 4096 * k == x + 256 * (16 * k);
  }

  lemma HighPart(x: int, k: int)
    requires 0 <= x < 4096
    ensures (x + 4096 * k) / 4096 == k
  {
  }

  lemma Even(t: int, k: int)
    ensures (2 * t + 4096 * k) % 2 == 0
  {
    assert 2 * t + 4096 * k == 2 * (t + 2048 * k);
  }

  /** An entry decodes to what it was made of, has the present bit clear and is not 0 unless both parts are. */
  lemma EntryDecodes(t: int, offset: int)
    requires 0 <= t < 128 && 0 <= offset < MAX_SLOTS
    ensures TypeOf(Entry(t, offset)) == t && OffsetOf(Entry(t, offset)) == offset
    ensures Entry(t, offset) % 2 == 0 && 0 <= Entry(t, offset) < 0x1_0000_0000
    ensures (Entry(t, offset) == 0 <==> t == 0 && offset == 0)
  {
    hide TypeOf, OffsetOf;
    TypePart(t, offset);
    OffsetPart(t, offset);
    Even(t, offset);
  }

  lemma TypePart(t: int, offset: int)
    requires 0 <= t < 128
    ensures TypeOf(Entry(t, offset)) == t
  {
    LowPart(2 * t, offset);
    Half(t);
  }

  lemma PartsNat(entry: int)
    requires entry >= 0
    ensures 0 <= TypeOf(entry) < 128 && 0 <= OffsetOf(entry)
  {
  }

  lemma Half(t: int)
    ensures 2 * t / 2 == t
  {
  }

  lemma OffsetPart(t: int, offset: int)
    requires 0 <= t < 128
    ensures OffsetOf(Entry(t, offset)) == offset
  {
    HighPart(2 * t, offset);
  }

  // ---------------------------------------------------------------- areas

  datatype Area = Area(used: bool, writeOk: bool, map_: seq<int>, lowest: int, highest: int)

  /** Free slots of a writable area lie between the hints; slot 0 is never free. */
  ghost predicate AreaOk(a: Area) {
    && |a.map_| <= MAX_SLOTS && 0 <= a.lowest && 0 <= a.highest < |a.map_|
    && (forall o :: 0 <= o < |a.map_| ==> 0 <= a.map_[o] < 256)
    && (a.writeOk ==> a.used)
    && (a.writeOk ==> forall o :: 0 <= o < |a.map_| && a.map_[o] == 0 ==> a.lowest <= o <= a.highest)
    && (|a.map_| > 0 ==> a.map_[0] != 0)
  }

  /** How many slots of a map are free. */
  function Zeros(m: seq<int>): nat {
    if m == [] then 0 else Zeros(m[..|m| - 1]) + if m[|m| - 1] == 0 then 1 else 0
  }

  lemma {:induction false} ZerosUpdate(m: seq<int>, o: nat, v: int)
    requires o < |m|
    ensures Zeros(m[o := v]) == Zeros(m) - One(m[o] == 0) + One(v == 0)
  {
    var n := |m| - 1;
    if o == n {
      assert m[o := v][..n] == m[..n];
    } else {
      assert m[o := v][..n] == m[..n][o := v];
      ZerosUpdate(m[..n], o, v);
    }
  }

  function FreeSlots(area: seq<Area>): nat {
    if area == [] then 0 else FreeSlots(area[..|area| - 1]) + Zeros(area[|area| - 1].map_)
  }

  lemma {:induction false} FreeUpdate(area: seq<Area>, t: nat, a: Area)
    requires t < |area|
    ensures FreeSlots(area[t := a]) == FreeSlots(area) - Zeros(area[t].map_) + Zeros(a.map_)
  {
    var n := |area| - 1;
    if t == n {
      assert area[t := a][..n] == area[..n];
    } else {
      assert area[t := a][..n] == area[..n][t := a];
      FreeUpdate(area[..n], t, a);
    }
  }

  type Refs = multiset<(nat, nat)>

  /** The count of a slot is the number of entries for it, or it is a bad slot without any. */
  ghost predicate SlotOk(area: seq<Area>, refs: Refs, t: nat, o: nat)
    requires t < |area| && o < |area[t].map_|
  {
    area[t].map_[o] == refs[(t, o)] || (refs[(t, o)] == 0 && area[t].map_[o] == BAD)
  }

  ghost predicate Ok(area: seq<Area>, refs: Refs, nr: int) {
    && |area| <= MAX_SWAPFILES && nr == FreeSlots(area)
    && (forall t :: 0 <= t < |area| ==> AreaOk(area[t]))
    && (forall t: nat, o: nat :: t < |area| && o < |area[t].map_| ==> SlotOk(area, refs, t, o))
    && (forall t: nat, o: nat :: refs[(t, o)] > 0 ==> t < |area| && 0 < o < |area[t].map_| && area[t].used)
  }

  /** Some writable area has a free slot. */
  ghost predicate AnyFree(area: seq<Area>) {
    exists t: nat, o: nat :: t < |area| && o < |area[t].map_| && FreeAt(area, t, o)
  }

  predicate FreeAt(area: seq<Area>, t: nat, o: nat)
    requires t < |area| && o < |area[t].map_|
  {
    area[t].writeOk && area[t].map_[o] == 0
  }

  /** A slot given a count, and hints that still enclose the free slots. */
  lemma SlotSet(area: seq<Area>, refs: Refs, nr: int, t: nat, o: nat, a: Area, refs': Refs)
    requires Ok(area, refs, nr) && t < |area| && o < |area[t].map_| && |a.map_| == |area[t].map_|
    requires 0 <= a.map_[o] < 256 && a.map_ == area[t].map_[o := a.map_[o]] && a.used == area[t].used
    requires a.writeOk == area[t].writeOk
    requires AreaOk(a) && a.map_[o] == refs'[(t, o)] && area[t].used && o > 0
    requires forall x: nat, y: nat :: (x, y) != (t, o) ==> refs'[(x, y)] == refs[(x, y)]
    ensures Ok(area[t := a], refs', nr - One(area[t].map_[o] == 0) + One(a.map_[o] == 0))
  {
    hide Zeros, FreeSlots, AreaOk;
    FreeUpdate(area, t, a);
    ZerosUpdate(area[t].map_, o, a.map_[o]);
    var area' := area[t := a];
    forall x: nat, y: nat | x < |area'| && y < |area'[x].map_| ensures SlotOk(area', refs', x, y) {
      if (x, y) != (t, o) { assert SlotOk(area, refs, x, y); }
    }
  }

  /** An area nobody has entries for yet. */
  lemma AreaAdded(area: seq<Area>, refs: Refs, nr: int, a: Area)
    requires Ok(area, refs, nr) && |area| < MAX_SWAPFILES && AreaOk(a)
    requires forall o :: 0 <= o < |a.map_| ==> a.map_[o] == 0 || a.map_[o] == BAD
    ensures Ok(area + [a], refs, nr + Zeros(a.map_))
  {
    hide Zeros;
    var area' := area + [a];
    assert area'[..|area|] == area;
    forall t: nat, o: nat | t < |area'| && o < |area'[t].map_| ensures SlotOk(area', refs, t, o) {
      if t < |area| { assert SlotOk(area, refs, t, o); } else { assert refs[(t, o)] == 0; }
    }
    forall t: nat, o: nat | refs[(t, o)] > 0 ensures t < |area'| && 0 < o < |area'[t].map_| && area'[t].used { }
  }

  class SwapSpace {
    var area: seq<Area>
    var nrSwapPages: int
    var refs: Refs                // the entries that page tables hold

    ghost predicate Valid()
      reads this
    {
      Ok(area, refs, nrSwapPages)
    }

    constructor ()
      ensures Valid() && area == []
    {
      area, nrSwapPages, refs := [], 0, multiset{};
    }

    /** sys_swapon: one more area, with the good pages free; refused when there are eight, or no good page. */
    method SwapOn(good: seq<bool>) returns (ok: bool)
      requires Valid() && |good| == 8 * 4096
      modifies this
      ensures Valid() && refs == old(refs)
      ensures ok <==> |old(area)| < MAX_SWAPFILES && exists o :: 1 <= o < |good| && good[o]
      ensures if ok then |area| == |old(area)| + 1 && area[..|old(area)|] == old(area) && area[|old(area)|].writeOk
          else area == old(area)
      ensures ok ==> nrSwapPages == old(nrSwapPages) + Zeros(area[|old(area)|].map_)
      ensures ok ==> GoodsFree(area[|old(area)|].map_, good)
    {
      hide Zeros, FreeSlots;
      if |area| >= MAX_SWAPFILES { return false; }
      var a, n := NewArea(good);
      if n == 0 { return false; }
      AreaAdded(area, refs, nrSwapPages, a);
      area, nrSwapPages := area + [a], nrSwapPages + n;
      ok := true;
    }

    /** get_swap_page: a free slot, the lowest of the first writable area that has one; 0 just when there is none. */
    method GetSwapPage() returns (entry: int)
      requires Valid()
      modifies this
      ensures Valid() && entry >= 0 && (entry == 0 <==> !AnyFree(old(area)))
      ensures entry == 0 ==> area == old(area) && refs == old(refs)
      ensures entry != 0 ==> entry % 2 == 0 && Taken(old(area), TypeOf(entry), OffsetOf(entry))
      ensures entry != 0 ==>
        old(refs)[(TypeOf(entry), OffsetOf(entry))] == 0
          && refs == old(refs) + multiset{(TypeOf(entry), OffsetOf(entry))}
      ensures entry != 0 ==> nrSwapPages == old(nrSwapPages) - 1
    {
      hide Zeros, FreeSlots;
      var t: nat := 0;
      while t < |area|
        invariant t <= |area| && area == old(area) && refs == old(refs) && nrSwapPages == old(nrSwapPages)
        invariant forall x: nat, y: nat :: x < t && y < |area[x].map_| ==> !FreeAt(area, x, y)
      {
        assert AreaOk(area[t]);
        if area[t].writeOk {
          var offset := area[t].lowest;
          while offset <= area[t].highest
            invariant area[t].lowest <= offset && area == old(area) && refs == old(refs)
            invariant nrSwapPages == old(nrSwapPages)
            invariant forall y: nat :: y < |area[t].map_| && y < offset ==> !FreeAt(area, t, y)
          {
            if area[t].map_[offset] == 0 {
              entry := Use(t, offset);
              return;
            }
            offset := offset + 1;
          }
        }
        t := t + 1;
      }
      entry := 0;
    }

    /** A free slot taken into use. */
    method Use(t: nat, offset: nat) returns (entry: int)
      requires Valid() && t < |area| && offset < |area[t].map_| && FreeAt(area, t, offset)
      requires area[t].lowest <= offset <= area[t].highest
      requires forall x: nat, y: nat :: x < t && y < |area[x].map_| ==> !FreeAt(area, x, y)
      requires forall y: nat :: y < offset ==> !FreeAt(area, t, y)
      modifies this
      ensures Valid() && entry > 0 && entry % 2 == 0 && TypeOf(entry) == t && OffsetOf(entry) == offset
      ensures old(refs)[(t, offset)] == 0 && refs == old(refs) + multiset{(t, offset)}
      ensures nrSwapPages == old(nrSwapPages) - 1
      ensures Taken(old(area), t, offset) && AnyFree(old(area))
    {
      hide Zeros, FreeSlots;
      assert SlotOk(area, refs, t, offset) && AreaOk(area[t]);
      var highest := if offset == area[t].highest then area[t].highest - 1 else area[t].highest;
      var a := area[t].(map_ := area[t].map_[offset := 1], highest := highest, lowest := offset);
      forall y: nat | y < offset ensures area[t].map_[y] != 0 { assert !FreeAt(area, t, y); }
      UsedArea(area[t], offset);
      SlotSet(area, refs, nrSwapPages, t, offset, a, refs + multiset{(t, offset)});
      EntryDecodes(t, offset);
      area := area[t := a];
      nrSwapPages := nrSwapPages - 1;
      refs := refs + multiset{(t, offset)};
      entry := Entry(t, offset);
    }

    /** The entry names a slot of an area, and not the memory of a shared segment. */
    predicate InArea(entry: int)
      reads this
    {
      entry > 0 && TypeOf(entry) != SHM_SWP_TYPE && TypeOf(entry) < |area|
        && OffsetOf(entry) < |area[TypeOf(entry)].map_|
    }

    /** The entry names a slot nothing was ever stored in. */
    predicate Unusable(entry: int)
      reads this
    {
      InArea(entry) && refs[SlotOf(entry)] == 0 && area[TypeOf(entry)].map_[OffsetOf(entry)] == BAD
    }

    /** swap_duplicate: one more reference to a slot in use; the books stay right unless it is the 256th, or the slot
        is a bad one. */
    method SwapDuplicate(entry: int) returns (r: int)
      requires Valid() && entry >= 0
      modifies this
      ensures Valid() <==> !old(InArea(entry) && (refs[SlotOf(entry)] == 255 || Unusable(entry)))
      ensures refs == if old(InArea(entry) && refs[SlotOf(entry)] > 0) then old(refs) + multiset{SlotOf(entry)}
          else old(refs)
      ensures old(InArea(entry)) ==> r == if old(refs[SlotOf(entry)] > 0 || Unusable(entry)) then entry else 0
      ensures !old(InArea(entry)) ==> r == if TypeOf(entry) == SHM_SWP_TYPE then entry else 0
      ensures r == 0 || TypeOf(entry) == SHM_SWP_TYPE ==> area == old(area) && nrSwapPages == old(nrSwapPages)
    {
      hide Zeros, FreeSlots, TypeOf, OffsetOf;
      PartsNat(entry);
      if entry == 0 { NoType(); return 0; }
      var offset: nat, t: nat := OffsetOf(entry), TypeOf(entry);
      if t == SHM_SWP_TYPE { return entry; }
      if t >= |area| { return 0; }
      if offset >= |area[t].map_| { return 0; }
      assert SlotOk(area, refs, t, offset) && AreaOk(area[t]);
      if area[t].map_[offset] == 0 { return 0; }
      ghost var was := area;
      area := area[t := area[t].(map_ := area[t].map_[offset := (area[t].map_[offset] + 1) % 256])];
      r := entry;
      if refs[(t, offset)] > 0 {
        var refs' := refs + multiset{(t, offset)};
        if refs[(t, offset)] < 255 {
          SlotSet(was, refs, nrSwapPages, t, offset, area[t], refs');
        } else {
          assert !SlotOk(area, refs', t, offset);
        }
        refs := refs';
      } else {
        assert !SlotOk(area, refs, t, offset);
      }
    }

    /** swap_free: one reference less; the hints widen to take the slot in. The books stay right unless the slot is a
        bad one. */
    method SwapFree(entry: int)
      requires Valid() && entry >= 0
      modifies this
      ensures Valid() <==> !old(Unusable(entry) && area[TypeOf(entry)].used)
      ensures refs == if old(InArea(entry) && refs[SlotOf(entry)] > 0) then old(refs) - multiset{SlotOf(entry)}
          else old(refs)
      ensures nrSwapPages - old(nrSwapPages) == One(old(InArea(entry)) && old(refs)[SlotOf(entry)] == 1)
      ensures !old(InArea(entry)) ==> area == old(area)
    {
      hide Zeros, FreeSlots, TypeOf, OffsetOf;
      PartsNat(entry);
      if entry == 0 { return; }
      var t: nat, offset: nat := TypeOf(entry), OffsetOf(entry);
      if t == SHM_SWP_TYPE { return; }
      if t >= |area| { return; }
      if offset >= |area[t].map_| { return; }
      if !area[t].used { UnusedFree(area, refs, nrSwapPages, t, offset); return; }
      Unref(t, offset);
    }

    /** One reference less to a slot. */
    method Unref(t: nat, offset: nat)
      requires Valid() && t < |area| && offset < |area[t].map_| && area[t].used
      modifies this
      ensures Valid() <==> old(refs[(t, offset)] > 0 || area[t].map_[offset] == 0)
      ensures refs == if old(refs)[(t, offset)] > 0 then old(refs) - multiset{(t, offset)} else old(refs)
      ensures nrSwapPages == old(nrSwapPages) + One(old(refs)[(t, offset)] == 1)
      ensures old(refs)[(t, offset)] == 0 ==> old(area[t].map_[offset] in {0, BAD})
    {
      hide Zeros, FreeSlots;
      hide Ok, AreaOk, SlotOk;
      ghost var was := area;
      UnrefOk(area, refs, nrSwapPages, t, offset);
      var lowest, highest := area[t].lowest, area[t].highest;
      if offset < lowest { lowest := offset; }
      if offset > highest { highest := offset; }
      var a := area[t].(lowest := lowest, highest := highest);
      if a.map_[offset] != 0 {
        a := a.(map_ := a.map_[offset := a.map_[offset] - 1]);
        if a.map_[offset] == 0 { nrSwapPages := nrSwapPages + 1; }
      }
      area := area[t := a];
      assert a.map_ == Freed(was[t], offset).map_;
      if refs[(t, offset)] > 0 { refs := refs - multiset{(t, offset)}; }
    }
  }

  function SlotOf(entry: int): (nat, nat)
    requires entry >= 0
  {
    PartsNat(entry);
    (TypeOf(entry), OffsetOf(entry))
  }

  lemma NoType()
    ensures TypeOf(0) == 0
  {
  }

  /** Nothing of an area that is not used has a reference. */
  lemma UnusedFree(area: seq<Area>, refs: Refs, nr: int, t: nat, o: nat)
    requires Ok(area, refs, nr) && t < |area| && !area[t].used
    ensures refs[(t, o)] == 0
  {
  }

  /** The books after one reference less to a slot. */
  lemma UnrefOk(area: seq<Area>, refs: Refs, nr: int, t: nat, o: nat)
    requires Ok(area, refs, nr) && t < |area| && o < |area[t].map_| && area[t].used
    ensures refs[(t, o)] == area[t].map_[o] || (refs[(t, o)] == 0 && area[t].map_[o] == BAD)
    ensures refs[(t, o)] > 0 ==>
      Ok(area[t := Freed(area[t], o)], refs - multiset{(t, o)}, nr + One(area[t].map_[o] == 1))
    ensures area[t].map_[o] == 0 ==> Ok(area[t := Freed(area[t], o)], refs, nr)
    ensures refs[(t, o)] == 0 && area[t].map_[o] == BAD ==> !Ok(area[t := Freed(area[t], o)], refs, nr)
  {
    hide Zeros, FreeSlots;
    var a, area' := Freed(area[t], o), area[t := Freed(area[t], o)];
    assert SlotOk(area, refs, t, o) && AreaOk(area[t]);
    if refs[(t, o)] > 0 {
      FreedArea(area[t], o);
      LessOne(refs, t, o);
      hide AreaOk;
      SlotSet(area, refs, nr, t, o, a, refs - multiset{(t, o)});
    } else if area[t].map_[o] == 0 {
      FreedArea(area[t], o);
      hide AreaOk;
      SlotSet(area, refs, nr, t, o, a, refs);
    } else {
      assert !SlotOk(area', refs, t, o);
    }
  }

  /** A slot with an entry for it is counted. */
  lemma HeldSlot(area: seq<Area>, refs: Refs, nr: int, t: nat, o: nat)
    requires Ok(area, refs, nr) && refs[(t, o)] > 0
    ensures t < |area| && 0 < o < |area[t].map_| && area[t].used && AreaOk(area[t])
    ensures area[t].map_[o] == refs[(t, o)] < 256
  {
    hide Zeros, FreeSlots;
    assert SlotOk(area, refs, t, o) && AreaOk(area[t]);
  }

  /** The lowest free slot of the first writable area that has one. */
  ghost predicate Taken(area: seq<Area>, t: int, o: int) {
    && 0 <= t < |area| && 0 <= o < |area[t].map_| && FreeAt(area, t, o)
    && (forall x: nat, y: nat :: x < t && y < |area[x].map_| ==> !FreeAt(area, x, y))
    && (forall y: nat :: y < o ==> !FreeAt(area, t, y))
  }

  lemma LessOne(refs: Refs, t: nat, o: nat)
    requires refs[(t, o)] > 0
    ensures (refs - multiset{(t, o)})[(t, o)] == refs[(t, o)] - 1
    ensures forall x: nat, y: nat :: (x, y) != (t, o) ==> (refs - multiset{(t, o)})[(x, y)] == refs[(x, y)]
  {
  }

  /** An area after one reference less to a slot. */
  function Freed(a: Area, o: nat): Area
    requires o < |a.map_|
  {
    a.(map_ := a.map_[o := if a.map_[o] == 0 then 0 else a.map_[o] - 1], lowest := Min(o, a.lowest),
      highest := Max(o, a.highest))
  }

  lemma FreedArea(a: Area, o: nat)
    requires AreaOk(a) && 0 < o < |a.map_|
    ensures AreaOk(Freed(a, o))
  {
  }

  lemma UsedArea(a: Area, o: nat)
    requires AreaOk(a) && o < |a.map_| && a.writeOk && a.map_[o] == 0 && a.lowest <= o <= a.highest
    requires forall y: nat :: y < o ==> a.map_[y] != 0
    ensures var highest := if o == a.highest then a.highest - 1 else a.highest;
      AreaOk(a.(map_ := a.map_[o := 1], highest := highest, lowest := o))
  {
  }

  // ---------------------------------------------------------------- a new area

  /** Exactly the good pages are free, and the map ends with the last of them. */
  ghost predicate GoodsFree(m: seq<int>, good: seq<bool>) {
    && |m| <= |good| && (forall o :: 0 <= o < |m| ==> m[o] == if o > 0 && good[o] then 0 else BAD)
    && forall o :: |m| <= o < |good| && o > 0 ==> !good[o]
  }

  /** The part of sys_swapon that reads the map of good pages: hints around them, every other slot bad. */
  method NewArea(good: seq<bool>) returns (a: Area, n: nat)
    requires |good| == 8 * 4096
    ensures n > 0 ==> AreaOk(a) && a.writeOk && n == Zeros(a.map_) && GoodsFree(a.map_, good)
    ensures n == 0 <==> forall o :: 1 <= o < |good| ==> !good[o]
  {
    hide Zeros, Goods;
    GoodsNone(good);
    var lowest, highest, max, i := 0, 0, 1, 1;
    n := 0;
    while i < |good|
      invariant 1 <= i <= |good| && 1 <= max <= i && (lowest == 0 <==> n == 0) && highest == max - 1
      invariant (n == 0 ==> max == 1) && (n > 0 ==> 1 <= lowest <= highest && good[highest])
      invariant forall o :: 1 <= o < i && good[o] ==> lowest <= o <= highest
      invariant n == Goods(good, i) && n == Goods(good, max)
    {
      GoodsStep(good, i);
      if good[i] {
        if lowest == 0 { lowest := i; }
        highest, max, n := i, i + 1, n + 1;
      }
      i := i + 1;
    }
    var m: seq<int> := [BAD];
    i := 1;
    BadOnly();
    while i < max
      invariant 1 <= i <= max && |m| == i
      invariant forall o :: 0 <= o < i ==> m[o] == if o > 0 && good[o] then 0 else BAD
      invariant Zeros(m) == Goods(good, i)
    {
      GoodsStep(good, i);
      ZerosStep(m, if good[i] then 0 else BAD);
      m := m + [if good[i] then 0 else BAD];
      i := i + 1;
    }
    a := Area(true, true, m, lowest, highest);
  }

  lemma GoodsNone(good: seq<bool>)
    requires |good| >= 1
    ensures Goods(good, 1) == 0
  {
  }

  lemma GoodsStep(good: seq<bool>, i: nat)
    requires 1 <= i < |good|
    ensures Goods(good, i + 1) == Goods(good, i) + if good[i] then 1 else 0
  {
  }

  lemma BadOnly()
    ensures Zeros([BAD]) == 0
  {
    assert [BAD][..0] == [];
  }

  lemma ZerosStep(m: seq<int>, v: int)
    ensures Zeros(m + [v]) == Zeros(m) + if v == 0 then 1 else 0
  {
    assert (m + [v])[..|m|] == m;
  }

  /** How many pages from 1 up to `n` are good. */
  function Goods(good: seq<bool>, n: nat): nat
    requires n <= |good|
  {
    if n <= 1 then 0 else Goods(good, n - 1) + if good[n - 1] then 1 else 0
  }

  // ---------------------------------------------------------------- runs

  datatype Op = On(good: seq<bool>) | Get | Dup(entry: nat) | Free(entry: nat)

  /** A 256th reference to a slot, or the use of an entry for a bad one. */
  predicate Breaks(s: SwapSpace, op: Op)
    reads s
  {
    match op
    case Dup(entry) => s.InArea(entry) && (s.refs[SlotOf(entry)] == 255 || s.Unusable(entry))
    case Free(entry) => s.Unusable(entry) && s.area[TypeOf(entry)].used
    case _ => false
  }

  /** Any run of calls with any entries keeps counts equal to references and the hints around the free slots, up to the
      first call that breaks the books. */
  method Run(s: SwapSpace, ops: seq<Op>) returns (n: nat)
    requires s.Valid()
    modifies s
    ensures s.Valid() && n <= |ops| && (n < |ops| ==> Breaks(s, ops[n]))
  {
    hide Ok, TypeOf, OffsetOf;
    n := 0;
    while n < |ops|
      invariant s.Valid() && n <= |ops|
    {
      if Breaks(s, ops[n]) { return; }
      match ops[n] {
        case On(good) => if |good| == 8 * 4096 { var ok := s.SwapOn(good); }
        case Get => var entry := s.GetSwapPage();
        case Dup(entry) => var r := s.SwapDuplicate(entry);
        case Free(entry) => s.SwapFree(entry);
      }
      n := n + 1;
    }
  }

  /** A new slot has an entry in an area. */
  lemma HeldInArea(s: SwapSpace, entry: int)
    requires s.Valid() && entry > 0 && TypeOf(entry) >= 0 && OffsetOf(entry) >= 0
    requires s.refs[(TypeOf(entry), OffsetOf(entry))] > 0
    ensures s.InArea(entry)
  {
    HeldSlot(s.area, s.refs, s.nrSwapPages, TypeOf(entry), OffsetOf(entry));
  }

  /** From the start of the system: an area, a slot, and references to it up to the one that wraps its count. */
  method CountWraps() returns (s: SwapSpace, entry: int)
    ensures entry > 0 && TypeOf(entry) >= 0 && OffsetOf(entry) >= 0
    ensures s.refs[(TypeOf(entry), OffsetOf(entry))] == 256 && !s.Valid()
  {
    hide Ok, TypeOf, OffsetOf, AreaOk;
    s := new SwapSpace();
    var good := seq(8 * 4096, _ => true);
    assert good[1];
    var ok := s.SwapOn(good);
    assert s.area[0].map_[1] == 0 && FreeAt(s.area, 0, 1);
    entry := s.GetSwapPage();
    PartsNat(entry);
    var n := 1;
    while n < 256
      invariant 1 <= n <= 256 && s.refs[(TypeOf(entry), OffsetOf(entry))] == n && (s.Valid() <==> n < 256)
    {
      HeldInArea(s, entry);
      var r := s.SwapDuplicate(entry);
      n := n + 1;
    }
  }
}

/** Sorted lists of address areas (mm/mmap.c), as values. */
module AreaList {

  const PAGE_SIZE: int := 4096
  const WORD: int := 0x1_0000_0000          // unsigned long has 32 bits
  const TASK_SIZE: int := 0xc000_0000
  const SHM_RANGE_START: int := 0x4000_0000
  const SHM_RANGE_END: int := 0x6000_0000

  /** A mapping from `start` up to `end`; inode 0 means memory without a file. */
  datatype Area = Area(start: int, end: int, prot: int, inode: nat, offset: int, ops: nat, share: nat)

  /** What an address is mapped to. */
  datatype Attr = Attr(prot: int, inode: nat, pos: int, ops: nat, share: nat)

  function Wrap(x: int): int {
    x % WORD
  }

  function PageAlign(x: int): int {
    Wrap(x + PAGE_SIZE - 1) / PAGE_SIZE * PAGE_SIZE
  }

  predicate Aligned(x: int) {
    x % PAGE_SIZE == 0
  }

  predicate Wf(a: Area) {
    0 <= a.start < a.end <= TASK_SIZE
  }

  predicate Inside(a: Area, x: int) {
    a.start <= x < a.end
  }

  /** What an area says of an address in it; where in the file only counts when there is one. */
  function AttrOf(a: Area, x: int): Attr {
    Attr(a.prot, a.inode, if a.inode == 0 then 0 else Wrap(a.offset + x - a.start), a.ops, a.share)
  }

  /** Address `x` is mapped with attributes `at`. */
  ghost predicate Maps(l: seq<Area>, x: int, at: Attr) {
    exists i :: 0 <= i < |l| && Inside(l[i], x) && AttrOf(l[i], x) == at
  }

  predicate Disjoint(a: Area, b: Area) {
    a.end <= b.start || b.end <= a.start
  }

  ghost predicate Sorted(l: seq<Area>) {
    && (forall i :: 0 <= i < |l| ==> Wf(l[i]))
    && (forall i, j :: 0 <= i < j < |l| ==> l[i].end <= l[j].start)
  }

  /** Area `a` shares no address with any of the list. */
  ghost predicate Free(l: seq<Area>, a: Area) {
    forall i :: 0 <= i < |l| ==> Disjoint(l[i], a)
  }

  lemma MapsConcat(a: seq<Area>, b: seq<Area>, x: int, at: Attr)
    ensures Maps(a + b, x, at) <==> Maps(a, x, at) || Maps(b, x, at)
  {
    if Maps(a, x, at) {
      var i :| 0 <= i < |a| && Inside(a[i], x) && AttrOf(a[i], x) == at;
      assert (a + b)[i] == a[i];
    }
    if Maps(b, x, at) {
      var i :| 0 <= i < |b| && Inside(b[i], x) && AttrOf(b[i], x) == at;
      assert (a + b)[|a| + i] == b[i];
    }
  }

  lemma MapsOne(a: Area, x: int, at: Attr)
    ensures Maps([a], x, at) <==> Inside(a, x) && AttrOf(a, x) == at
  {
    assert [a][0] == a;
  }

  /** An address in a sorted list has one set of attributes. */
  lemma MapsOnce(l: seq<Area>, x: int, at: Attr, at': Attr)
    requires Sorted(l) && Maps(l, x, at) && Maps(l, x, at')
    ensures at == at'
  {
  }

  // ---------------------------------------------------------------- inserting

  /** insert_vm_struct puts an area after all that start no later. */
  ghost predicate InsertsAt(l: seq<Area>, a: Area, i: nat) {
    i <= |l| && (forall j :: 0 <= j < i ==> l[j].start <= a.start) && (i < |l| ==> l[i].start > a.start)
  }

  lemma Inserted(l: seq<Area>, a: Area, i: nat)
    requires Sorted(l) && Wf(a) && Free(l, a) && InsertsAt(l, a, i)
    ensures Sorted(l[..i] + [a] + l[i..])
  {
    var r := l[..i] + [a] + l[i..];
    assert forall k :: 0 <= k < |r| ==> r[k] == if k < i then l[k] else if k == i then a else l[k - 1];
  }

  lemma InsertedMaps(l: seq<Area>, a: Area, i: nat, x: int, at: Attr)
    requires i <= |l|
    ensures Maps(l[..i] + [a] + l[i..], x, at) <==> Maps(l, x, at) || (Inside(a, x) && AttrOf(a, x) == at)
  {
    MapsConcat(l[..i] + [a], l[i..], x, at);
    MapsConcat(l[..i], [a], x, at);
    MapsOne(a, x, at);
    assert l == l[..i] + l[i..];
    MapsConcat(l[..i], l[i..], x, at);
  }

  // ---------------------------------------------------------------- cutting

  /** What is left of an area above an address. */
  function Above(a: Area, hi: int): Area {
    a.(offset := Wrap(a.offset + (hi - a.start)), start := hi)
  }

  predicate Touches(a: Area, lo: int, hi: int) {
    a.start < hi && lo < a.end
  }

  lemma AboveAttr(a: Area, hi: int, x: int)
    ensures AttrOf(Above(a, hi), x) == AttrOf(a, x)
  {
    assert Wrap(Wrap(a.offset + (hi - a.start)) + x - hi) == Wrap(a.offset + x - a.start);
  }
}

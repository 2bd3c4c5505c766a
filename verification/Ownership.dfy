/** Which directory slot owns a page table and which process owns a directory (mm/memory.c). */
module Ownership {
  import opened PageFrames

  /** Entry `i` of the directory in frame `d`. */
  function Slot(frames: seq<Frame>, d: nat, i: nat): Dirent {
    if d < |frames| && frames[d].Dir? && i < |frames[d].slots| then frames[d].slots[i] else NoTable
  }

  predicate IsDir(frames: seq<Frame>, d: nat) {
    d < |frames| && frames[d].Dir? && |frames[d].slots| == PTRS
  }

  /** Each table has one owning slot and each directory one process, but for the spare frames in hand. */
  ghost predicate Owned(frames: seq<Frame>, cr3: map<nat, nat>, spare: set<nat>) {
    && (forall d: nat, i: nat :: Slot(frames, d, i).Own? ==>
          var t := Slot(frames, d, i).table; t < |frames| && frames[t].Table? && t !in spare)
    && (forall d: nat, i: nat, d': nat, i': nat ::
          Slot(frames, d, i).Own? && Slot(frames, d', i') == Slot(frames, d, i) ==> d == d' && i == i')
    && (forall t: nat :: t < |frames| && frames[t].Table? && t !in spare ==> HasOwner(frames, t))
    && (forall pid :: pid in cr3 ==> cr3[pid] < |frames| && frames[cr3[pid]].Dir? && cr3[pid] !in spare)
    && (forall pid, pid' :: pid in cr3 && pid' in cr3 && cr3[pid] == cr3[pid'] ==> pid == pid')
    && (forall d: nat :: d < |frames| && frames[d].Dir? && d !in spare ==> HasProcess(cr3, d))
  }

  ghost predicate HasOwner(frames: seq<Frame>, t: nat) {
    exists d: nat, i: nat :: Slot(frames, d, i) == Own(t)
  }

  ghost predicate HasProcess(cr3: map<nat, nat>, d: nat) {
    exists pid :: pid in cr3 && cr3[pid] == d
  }

  lemma SlotsKept(frames: seq<Frame>, frames': seq<Frame>)
    requires SameShape(frames, frames')
    ensures forall d: nat, i: nat :: Slot(frames', d, i) == Slot(frames, d, i)
  {
  }

  lemma OwnedShape(frames: seq<Frame>, frames': seq<Frame>, cr3: map<nat, nat>, spare: set<nat>)
    requires Owned(frames, cr3, spare) && SameShape(frames, frames')
    ensures Owned(frames', cr3, spare)
  {
    SlotsKept(frames, frames');
    forall t: nat | t < |frames'| && frames'[t].Table? && t !in spare ensures HasOwner(frames', t) {
      var d: nat, i: nat :| Slot(frames, d, i) == Own(t);
      assert Slot(frames', d, i) == Own(t);
    }
  }

  lemma OwnedTakeTable(frames: seq<Frame>, cr3: map<nat, nat>, spare: set<nat>, q: nat, use: Frame)
    requires Owned(frames, cr3, spare) && q < |frames| && frames[q].Unused? && use.Table?
    ensures Owned(frames[q := use], cr3, spare + {q})
    ensures forall d: nat, i: nat :: Slot(frames[q := use], d, i) == Slot(frames, d, i)
  {
    var frames' := frames[q := use];
    assert forall d: nat, i: nat :: Slot(frames', d, i) == Slot(frames, d, i);
    forall t: nat | t < |frames'| && frames'[t].Table? && t !in spare + {q} ensures HasOwner(frames', t) {
      var d: nat, i: nat :| Slot(frames, d, i) == Own(t);
      assert Slot(frames', d, i) == Own(t);
    }
  }

  lemma OwnedTakeDir(frames: seq<Frame>, cr3: map<nat, nat>, spare: set<nat>, q: nat, use: Frame, pid: nat)
    requires Owned(frames, cr3, spare) && q < |frames| && frames[q].Unused? && q !in spare && pid !in cr3
    requires use.Dir? && forall i :: 0 <= i < |use.slots| ==> use.slots[i].NoTable?
    ensures Owned(frames[q := use], cr3[pid := q], spare)
    ensures forall d: nat, i: nat :: Slot(frames[q := use], d, i) == Slot(frames, d, i)
  {
    var frames', cr3' := frames[q := use], cr3[pid := q];
    assert forall d: nat, i: nat :: Slot(frames', d, i) == Slot(frames, d, i);
    forall t: nat | t < |frames'| && frames'[t].Table? && t !in spare ensures HasOwner(frames', t) {
      var d: nat, i: nat :| Slot(frames, d, i) == Own(t);
      assert Slot(frames', d, i) == Own(t);
    }
    forall d: nat | d < |frames'| && frames'[d].Dir? && d !in spare ensures HasProcess(cr3', d) {
      if d == q {
        assert pid in cr3' && cr3'[pid] == d;
      } else {
        var p :| p in cr3 && cr3[p] == d;
        assert p in cr3' && cr3'[p] == d;
      }
    }
  }

  function SetSlot(frames: seq<Frame>, d: nat, i: nat, s: Dirent): seq<Frame>
    requires IsDir(frames, d) && i < PTRS
  {
    frames[d := Dir(frames[d].slots[i := s])]
  }

  function TableIn(s: Dirent): set<nat> {
    if s.Own? then {s.table} else {}
  }

  /** Changing a slot takes its new table out of the spare frames and puts the old one in. */
  lemma OwnedSlot(frames: seq<Frame>, cr3: map<nat, nat>, spare: set<nat>, d: nat, i: nat, s: Dirent)
    requires Owned(frames, cr3, spare) && IsDir(frames, d) && i < PTRS
    requires s.Own? ==> s.table in spare && s.table < |frames| && frames[s.table].Table?
    ensures Owned(SetSlot(frames, d, i, s), cr3, spare + TableIn(Slot(frames, d, i)) - TableIn(s))
    ensures forall d': nat, i': nat ::
      Slot(SetSlot(frames, d, i, s), d', i') == if (d', i') == (d, i) then s else Slot(frames, d', i')
  {
    var frames', spare' := SetSlot(frames, d, i, s), spare + TableIn(Slot(frames, d, i)) - TableIn(s);
    assert forall d': nat, i': nat :: Slot(frames', d', i') == if (d', i') == (d, i) then s else Slot(frames, d', i');
    forall t: nat | t < |frames'| && frames'[t].Table? && t !in spare' ensures HasOwner(frames', t) {
      if s == Own(t) {
        assert Slot(frames', d, i) == Own(t);
      } else {
        var d0: nat, i0: nat :| Slot(frames, d0, i0) == Own(t);
        assert Slot(frames', d0, i0) == Own(t);
      }
    }
  }

  lemma OwnedGive(frames: seq<Frame>, cr3: map<nat, nat>, spare: set<nat>, q: nat)
    requires Owned(frames, cr3, spare) && q < |frames| && q in spare
    requires forall i: nat :: !Slot(frames, q, i).Own?
    ensures Owned(frames[q := Unused], cr3, spare - {q})
    ensures forall d: nat, i: nat :: Slot(frames[q := Unused], d, i) == if d == q then NoTable else Slot(frames, d, i)
  {
    var frames' := frames[q := Unused];
    assert forall d: nat, i: nat :: Slot(frames', d, i) == if d == q then NoTable else Slot(frames, d, i);
    forall t: nat | t < |frames'| && frames'[t].Table? && t !in spare - {q} ensures HasOwner(frames', t) {
      var d: nat, i: nat :| Slot(frames, d, i) == Own(t);
      assert Slot(frames', d, i) == Own(t);
    }
  }

  lemma OwnedExit(frames: seq<Frame>, cr3: map<nat, nat>, spare: set<nat>, pid: nat)
    requires Owned(frames, cr3, spare) && pid in cr3
    ensures Owned(frames, cr3 - {pid}, spare + {cr3[pid]})
  {
    var cr3' := cr3 - {pid};
    forall d: nat | d < |frames| && frames[d].Dir? && d !in spare + {cr3[pid]} ensures HasProcess(cr3', d) {
      var p :| p in cr3 && cr3[p] == d;
      assert p in cr3' && cr3'[p] == d;
    }
  }

  /** With no process left every frame is free again, but for the reserved ones. */
  lemma NothingLeaks(m: Memory, reserved: set<nat>, p: nat)
    requires Core(m, reserved) && Owned(m.frames, map[], {}) && p < |m.frames|
    ensures p in reserved || p in m.free
  {
    hide Refs;
    NoTables(m.frames, map[]);
    assert FrameOk(m, reserved, p);
    assert forall t: nat, j: nat :: Entry(m.frames, t, j).Empty?;
    if m.frames[p].Page? && p !in reserved {
      NobodyMaps(m.frames, p);
    }
  }

  lemma NobodyMaps(frames: seq<Frame>, p: nat)
    requires forall t: nat, j: nat :: Entry(frames, t, j).Empty?
    ensures |Refs(frames, p)| == 0
  {
    assert Refs(frames, p) == {};
  }

  lemma NoTables(frames: seq<Frame>, cr3: map<nat, nat>)
    requires Owned(frames, cr3, {}) && cr3 == map[]
    ensures forall p: nat :: p < |frames| ==> !frames[p].Table? && !frames[p].Dir?
  {
    forall d: nat | d < |frames| ensures !frames[d].Dir? {
      assert !HasProcess(cr3, d);
    }
    forall t: nat | t < |frames| ensures !frames[t].Table? {
      assert forall d: nat, i: nat :: Slot(frames, d, i).NoTable?;
      assert !HasOwner(frames, t);
    }
  }
}

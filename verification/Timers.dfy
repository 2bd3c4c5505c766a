/** The delta-encoded timer list (kernel/sched.c) against a queue of absolute deadlines. */
module Timers {

  /** A timer in the list: its expiry counts from the one before it. */
  datatype Timer = Timer(id: nat, expires: nat)

  /** A timer and the tick it is due at. */
  datatype Deadline = Deadline(id: nat, at: nat)

  /** What the deltas stand for, counted from tick `base`. */
  function Deadlines(l: seq<Timer>, base: nat): seq<Deadline> {
    if l == [] then [] else [Deadline(l[0].id, base + l[0].expires)] + Deadlines(l[1..], base + l[0].expires)
  }

  /** A deadline put behind all that are due no later. */
  function Queued(q: seq<Deadline>, d: Deadline): seq<Deadline> {
    if q == [] || q[0].at > d.at then [d] + q else [q[0]] + Queued(q[1..], d)
  }

  /** The queue without a timer. */
  function Without(q: seq<Deadline>, id: nat): seq<Deadline> {
    if q == [] then [] else if q[0].id == id then q[1..] else [q[0]] + Without(q[1..], id)
  }

  ghost predicate Has(l: seq<Timer>, id: nat) {
    exists i :: 0 <= i < |l| && l[i].id == id
  }

  ghost predicate NoTwins(l: seq<Timer>) {
    forall i, j :: 0 <= i < j < |l| ==> l[i].id != l[j].id
  }

  lemma {:induction false} DeadlinesAppend(a: seq<Timer>, b: seq<Timer>, base: nat)
    ensures Deadlines(a + b, base) == Deadlines(a, base) + Deadlines(b, base + Total(a))
    decreases |a|
  {
    if a == [] {
      assert a + b == b;
    } else {
      assert (a + b)[1..] == a[1..] + b;
      DeadlinesAppend(a[1..], b, base + a[0].expires);
    }
  }

  function Total(l: seq<Timer>): nat {
    if l == [] then 0 else l[0].expires + Total(l[1..])
  }

  lemma {:induction false} TotalAppend(a: seq<Timer>, b: seq<Timer>)
    ensures Total(a + b) == Total(a) + Total(b)
  {
    if a == [] {
      assert a + b == b;
    } else {
      assert (a + b)[1..] == a[1..] + b;
      TotalAppend(a[1..], b);
    }
  }

  lemma TotalStep(l: seq<Timer>, p: nat)
    requires p < |l|
    ensures Total(l[..p + 1]) == Total(l[..p]) + l[p].expires
  {
    assert l[..p + 1] == l[..p] + [l[p]];
    TotalAppend(l[..p], [l[p]]);
  }

  lemma NoneBefore(l: seq<Timer>)
    ensures Total(l[..0]) == 0
  {
  }

  lemma {:induction false} QueuedBehind(q: seq<Deadline>, r: seq<Deadline>, d: Deadline)
    requires forall i :: 0 <= i < |q| ==> q[i].at <= d.at
    ensures Queued(q + r, d) == q + Queued(r, d)
  {
    if q == [] {
      assert q + r == r;
    } else {
      assert (q + r)[1..] == q[1..] + r;
      QueuedBehind(q[1..], r, d);
    }
  }

  lemma {:induction false} DeadlinesBound(l: seq<Timer>, base: nat)
    ensures |Deadlines(l, base)| == |l|
    ensures forall i ::
      0 <= i < |l| ==> base <= Deadlines(l, base)[i].at <= base + Total(l) && Deadlines(l, base)[i].id == l[i].id
    decreases |l|
  {
    if l != [] {
      DeadlinesBound(l[1..], base + l[0].expires);
      var d := Deadlines(l[1..], base + l[0].expires);
      forall i | 0 <= i < |l|
        ensures base <= Deadlines(l, base)[i].at <= base + Total(l) && Deadlines(l, base)[i].id == l[i].id
      {
        if i > 0 { assert Deadlines(l, base)[i] == d[i - 1] && l[i] == l[1..][i - 1]; }
      }
    }
  }

  lemma {:induction false} WithoutBehind(q: seq<Deadline>, r: seq<Deadline>, id: nat)
    requires forall i :: 0 <= i < |q| ==> q[i].id != id
    ensures Without(q + r, id) == q + Without(r, id)
  {
    if q == [] {
      assert q + r == r;
    } else {
      assert (q + r)[1..] == q[1..] + r;
      WithoutBehind(q[1..], r, id);
    }
  }

  /** The queue is in order of deadlines. */
  lemma {:induction false} InOrder(l: seq<Timer>, base: nat, i: nat, j: nat)
    requires i < j < |l|
    ensures |Deadlines(l, base)| == |l| && Deadlines(l, base)[i].at <= Deadlines(l, base)[j].at
    decreases |l|
  {
    DeadlinesBound(l[1..], base + l[0].expires);
    if i > 0 { InOrder(l[1..], base + l[0].expires, i - 1, j - 1); }
  }

  // ---------------------------------------------------------------- the list

  class TimerList {
    var list: seq<Timer>
    var jiffies: nat
    var lostTicks: nat
    var marked: bool

    /** The ticks that count: those that were not lost. */
    ghost function Count(): nat
      requires lostTicks <= jiffies
      reads this
    {
      jiffies - lostTicks
    }

    ghost function Queue(): seq<Deadline>
      requires lostTicks <= jiffies
      reads this
    {
      Deadlines(list, Count())
    }

    /** Timers are there once. */
    ghost predicate Valid()
      reads this
    {
      lostTicks <= jiffies && NoTwins(list)
    }

    constructor ()
      ensures Valid() && list == [] && jiffies == 0 && lostTicks == 0 && !marked
    {
      list, jiffies, lostTicks, marked := [], 0, 0, false;
    }

    /** add_timer: due `expires` ticks from now, behind those due at the same tick; all others keep their deadlines. */
    method AddTimer(id: nat, expires: nat)
      requires Valid() && !Has(list, id)
      modifies this`list
      ensures Valid() && Queue() == Queued(old(Queue()), Deadline(id, Count() + expires))
      ensures |list| == |old(list)| + 1 && forall x :: Has(list, x) <==> x == id || Has(old(list), x)
    {
      hide Total, Deadlines, Queued, NoTwins, Has;
      NoneBefore(list);
      var left: nat, p: nat := expires, 0;
      ghost var l := list;
      while p < |list| && list[p].expires <= left
        invariant p <= |list| && list == l && left + Total(l[..p]) == expires
        invariant p == 0 ==> left == expires
      {
        TotalStep(l, p);
        left := left - list[p].expires;
        p := p + 1;
      }
      AddedQueue(l, Count(), p, left, id);
      AddedNames(l, p, left, id);
      if p < |list| {
        list := list[..p] + [Timer(id, left)] + [list[p].(expires := list[p].expires - left)] + list[p + 1..];
      } else {
        list := list + [Timer(id, left)];
      }
    }

    /** del_timer: off the list with the time it had left, or not found; all others keep their deadlines. */
    method DelTimer(id: nat) returns (found: bool, expires: nat)
      requires Valid()
      modifies this`list
      ensures Valid() && found == Has(old(list), id)
      ensures Queue() == Without(old(Queue()), id)
      ensures found ==> Deadline(id, Count() + expires) in old(Queue())
      ensures forall x :: Has(list, x) <==> x != id && Has(old(list), x)
    {
      hide Total, Deadlines, Without, NoTwins;
      expires := 0;
      var p: nat := 0;
      NoneBefore(list);
      ghost var l := list;
      while p < |list|
        invariant p <= |list| && list == l && expires == Total(l[..p])
        invariant forall i :: 0 <= i < p ==> l[i].id != id
      {
        if list[p].id == id {
          DeletedQueue(l, Count(), p);
          DeletedNames(l, p);
          expires := expires + list[p].expires;
          if p + 1 < |list| {
            list := list[..p] + [list[p + 1].(expires := list[p + 1].expires + list[p].expires)] + list[p + 2..];
          } else {
            list := list[..p];
          }
          return true, expires;
        }
        TotalStep(l, p);
        expires := expires + list[p].expires;
        p := p + 1;
      }
      found := false;
      NotThere(l, Count(), id);
    }

    /** The timer part of do_timer: a tick is lost exactly when a timer that is due is still on the list. */
    method Tick() returns (lost: bool)
      requires Valid()
      modifies this
      ensures Valid() && lost == (old(list) != [] && old(list)[0].expires == 0)
      ensures jiffies == old(jiffies) + 1 && lostTicks == old(lostTicks) + if lost then 1 else 0
      ensures Queue() == old(Queue())
      ensures (list != [] && list[0].expires == 0 ==> marked) && forall x :: Has(list, x) <==> Has(old(list), x)
    {
      lost := false;
      jiffies := jiffies + 1;
      if list != [] {
        if list[0].expires != 0 {
          ghost var l := list;
          list := [list[0].(expires := list[0].expires - 1)] + list[1..];
          TickNames(l, list);
          if list[0].expires == 0 { marked := true; }
        } else {
          lostTicks := lostTicks + 1;
          lost, marked := true, true;
        }
      }
    }

    /** One pass of the loop in timer_bh: the first timer, if it is due, off the list for its function to be called. */
    method Fire() returns (fired: seq<Deadline>)
      requires Valid()
      modifies this`list
      ensures Valid() && fired + Queue() == old(Queue())
      ensures fired == if old(list) != [] && old(list)[0].expires == 0 then [Deadline(old(list)[0].id, Count())] else []
      ensures forall x :: Has(list, x) ==> Has(old(list), x)
    {
      fired := [];
      if list != [] && list[0].expires == 0 {
        ghost var l := list;
        fired := [Deadline(list[0].id, jiffies - lostTicks)];
        list := list[1..];
        forall x | Has(list, x) ensures Has(l, x) {
          var i :| 0 <= i < |list| && list[i].id == x;
          assert l[i + 1].id == x;
        }
      }
    }

    /** timer_bh with no interrupt between its passes: every timer that is due taken off the list, first to last. */
    method TimerBh() returns (fired: seq<Deadline>)
      requires Valid()
      modifies this
      ensures Valid() && !marked && jiffies == old(jiffies) && lostTicks == old(lostTicks)
      ensures old(Queue()) == fired + Queue() && forall i :: 0 <= i < |fired| ==> fired[i].at == Count()
      ensures list != [] ==> list[0].expires > 0
      ensures forall x :: Has(list, x) ==> Has(old(list), x)
    {
      fired := [];
      while list != [] && list[0].expires == 0
        invariant Valid() && jiffies == old(jiffies) && lostTicks == old(lostTicks)
        invariant old(Queue()) == fired + Queue() && forall i :: 0 <= i < |fired| ==> fired[i].at == Count()
        invariant forall x :: Has(list, x) ==> Has(old(list), x)
        decreases |list|
      {
        ghost var l := list;
        var f := Fire();
        DeadlinesBound(l, Count());
        DeadlinesBound(list, Count());
        fired := fired + f;
      }
      marked := false;
    }
  }

  /** The list after a timer is put in at place `p` with `left` ticks to go. */
  function Added(l: seq<Timer>, p: nat, left: nat, id: nat): seq<Timer>
    requires p <= |l| && (p < |l| ==> l[p].expires >= left)
  {
    if p < |l| then l[..p] + [Timer(id, left)] + [l[p].(expires := l[p].expires - left)] + l[p + 1..]
    else l + [Timer(id, left)]
  }

  /** A timer put in front of the rest of a list. */
  function AddedFirst(b: seq<Timer>, left: nat, id: nat): seq<Timer>
    requires b != [] ==> b[0].expires >= left
  {
    [Timer(id, left)] + if b == [] then [] else [b[0].(expires := b[0].expires - left)] + b[1..]
  }

  lemma AddedFirstQueue(b: seq<Timer>, left: nat, id: nat, base: nat)
    requires b != [] ==> b[0].expires > left
    ensures Deadlines(AddedFirst(b, left, id), base) == Queued(Deadlines(b, base), Deadline(id, base + left))
  {
    var b' := AddedFirst(b, left, id);
    assert b'[1..] == if b == [] then [] else [b[0].(expires := b[0].expires - left)] + b[1..];
    if b != [] { assert b'[1..][1..] == b[1..]; }
  }

  lemma AddedQueue(l: seq<Timer>, now: nat, p: nat, left: nat, id: nat)
    requires p <= |l| && (p < |l| ==> l[p].expires > left)
    ensures Deadlines(Added(l, p, left, id), now) == Queued(Deadlines(l, now), Deadline(id, now + Total(l[..p]) + left))
  {
    hide Deadlines, Queued, Total;
    var a, b, t := l[..p], l[p..], Total(l[..p]);
    var d := Deadline(id, now + t + left);
    assert l == a + b;
    DeadlinesAppend(a, b, now);
    DeadlinesBound(a, now);
    QueuedBehind(Deadlines(a, now), Deadlines(b, now + t), d);
    assert Added(l, p, left, id) == a + AddedFirst(b, left, id);
    DeadlinesAppend(a, AddedFirst(b, left, id), now);
    AddedFirstQueue(b, left, id, now + t);
  }

  lemma AddedAt(l: seq<Timer>, p: nat, left: nat, id: nat)
    requires p <= |l| && (p < |l| ==> l[p].expires > left)
    ensures var r := Added(l, p, left, id);
      && |r| == |l| + 1 && r[p].id == id
      && (forall k :: 0 <= k < p ==> r[k].id == l[k].id)
      && forall k :: p <= k < |l| ==> r[k + 1].id == l[k].id
  {
  }

  lemma AddedNames(l: seq<Timer>, p: nat, left: nat, id: nat)
    requires p <= |l| && (p < |l| ==> l[p].expires > left) && !Has(l, id) && NoTwins(l)
    ensures NoTwins(Added(l, p, left, id)) && forall x :: Has(Added(l, p, left, id), x) <==> x == id || Has(l, x)
  {
    hide Added;
    var r := Added(l, p, left, id);
    AddedAt(l, p, left, id);
    forall k | p < k < |r| ensures r[k].id == l[k - 1].id { assert r[(k - 1) + 1].id == l[k - 1].id; }
    forall x ensures Has(r, x) <==> x == id || Has(l, x) {
      if Has(l, x) {
        var i :| 0 <= i < |l| && l[i].id == x;
        assert r[if i < p then i else i + 1].id == x;
      }
      if Has(r, x) && x != id {
        var k :| 0 <= k < |r| && r[k].id == x;
        assert l[if k < p then k else k - 1].id == x;
      }
    }
  }

  /** The list after the timer at place `p` is taken out. */
  function Deleted(l: seq<Timer>, p: nat): seq<Timer>
    requires p < |l|
  {
    if p + 1 < |l| then l[..p] + [l[p + 1].(expires := l[p + 1].expires + l[p].expires)] + l[p + 2..] else l[..p]
  }

  lemma DeletedQueue(l: seq<Timer>, now: nat, p: nat)
    requires p < |l| && forall i :: 0 <= i < p ==> l[i].id != l[p].id
    ensures Deadlines(Deleted(l, p), now) == Without(Deadlines(l, now), l[p].id)
    ensures Deadline(l[p].id, now + Total(l[..p]) + l[p].expires) in Deadlines(l, now)
  {
    var a, b, t := l[..p], l[p..], Total(l[..p]);
    assert l == a + b;
    DeadlinesAppend(a, b, now);
    DeadlinesBound(a, now);
    WithoutBehind(Deadlines(a, now), Deadlines(b, now + t), l[p].id);
    var b' := if |b| == 1 then [] else [b[1].(expires := b[1].expires + b[0].expires)] + b[2..];
    assert Deleted(l, p) == a + b';
    DeadlinesAppend(a, b', now);
    assert Deadlines(b, now + t)[0] == Deadline(l[p].id, now + t + l[p].expires);
    if |b| > 1 { assert b[1..][1..] == b[2..] && b'[1..] == b[2..]; }
  }

  lemma DeletedNames(l: seq<Timer>, p: nat)
    requires p < |l| && NoTwins(l)
    ensures NoTwins(Deleted(l, p)) && forall x :: Has(Deleted(l, p), x) <==> x != l[p].id && Has(l, x)
  {
    var r := Deleted(l, p);
    assert forall k :: 0 <= k < |r| ==> r[k].id == l[if k < p then k else k + 1].id;
    forall x ensures Has(r, x) <==> x != l[p].id && Has(l, x) {
      if x != l[p].id && Has(l, x) {
        var i :| 0 <= i < |l| && l[i].id == x;
        assert r[if i < p then i else i - 1].id == x;
      }
    }
  }

  lemma NotThere(l: seq<Timer>, now: nat, id: nat)
    requires forall i :: 0 <= i < |l| ==> l[i].id != id
    ensures Without(Deadlines(l, now), id) == Deadlines(l, now)
  {
    DeadlinesBound(l, now);
    WithoutBehind(Deadlines(l, now), [], id);
    assert Deadlines(l, now) + [] == Deadlines(l, now);
  }

  lemma TickNames(l: seq<Timer>, l': seq<Timer>)
    requires |l| == |l'| && forall i :: 0 <= i < |l| ==> l'[i].id == l[i].id
    ensures NoTwins(l) ==> NoTwins(l')
    ensures forall x :: Has(l', x) <==> Has(l, x)
  {
    forall x ensures Has(l', x) <==> Has(l, x) {
      if Has(l, x) { var i :| 0 <= i < |l| && l[i].id == x; assert l'[i].id == x; }
    }
  }

  /** Deleting a timer that was just added gives back the queue as it was. */
  lemma {:induction false} DelUndoesAdd(q: seq<Deadline>, d: Deadline)
    requires forall i :: 0 <= i < |q| ==> q[i].id != d.id
    ensures Without(Queued(q, d), d.id) == q
  {
    if q != [] && q[0].at <= d.at {
      assert q == [q[0]] + q[1..];
      DelUndoesAdd(q[1..], d);
      assert Queued(q, d)[1..] == Queued(q[1..], d);
    }
  }

  // ---------------------------------------------------------------- runs

  /** Timers set and deleted, ticks, and passes of the bottom half, in any order. */
  datatype Event = Add(id: nat, expires: nat) | Del(id: nat) | Tick | Fire

  /** A timer that fired, at which tick, and how many ticks had been lost by then. */
  datatype Firing = Firing(d: Deadline, tick: nat, lost: nat)

  /** Absolute deadlines in order, the ticks that counted, those that were lost, and what has fired when. */
  datatype Clock = Clock(queue: seq<Deadline>, count: nat, lost: nat, log: seq<Firing>)

  predicate Queues(q: seq<Deadline>, id: nat) {
    exists i :: 0 <= i < |q| && q[i].id == id
  }

  /** No timer on the queue is due. */
  predicate Quiet(c: Clock) {
    c.queue != [] ==> c.queue[0].at > c.count
  }

  function ClockStep(c: Clock, e: Event): Clock {
    match e
    case Add(id, expires) =>
      if Queues(c.queue, id) then c else c.(queue := Queued(c.queue, Deadline(id, c.count + expires)))
    case Del(id) => c.(queue := Without(c.queue, id))
    case Tick => if Quiet(c) then c.(count := c.count + 1) else c.(lost := c.lost + 1)
    case Fire => if Quiet(c) then c
      else Clock(c.queue[1..], c.count, c.lost, c.log + [Firing(c.queue[0], c.count + c.lost, c.lost)])
  }

  function ClockRun(c: Clock, es: seq<Event>): Clock {
    if es == [] then c else ClockStep(ClockRun(c, es[..|es| - 1]), es[|es| - 1])
  }

  lemma QueuesHas(l: seq<Timer>, base: nat, id: nat)
    ensures Queues(Deadlines(l, base), id) <==> Has(l, id)
  {
    DeadlinesBound(l, base);
    hide Deadlines;
    var q := Deadlines(l, base);
    if Has(l, id) { var i :| 0 <= i < |l| && l[i].id == id; assert q[i].id == id; }
    if Queues(q, id) { var i :| 0 <= i < |q| && q[i].id == id; assert l[i].id == id; }
  }

  lemma FirstDeadline(l: seq<Timer>, base: nat)
    ensures l == [] <==> Deadlines(l, base) == []
    ensures l != [] ==> Deadlines(l, base)[0] == Deadline(l[0].id, base + l[0].expires)
  {
  }

  /** A run of the list does what a clock with a sorted queue of deadlines does. */
  method Run(t: TimerList, es: seq<Event>) returns (log: seq<Firing>)
    requires t.Valid()
    modifies t
    ensures t.Valid() && Ahead(Clock(t.Queue(), t.Count(), t.lostTicks, log))
    ensures Clock(t.Queue(), t.Count(), t.lostTicks, log) ==
        ClockRun(Clock(old(t.Queue()), old(t.Count()), old(t.lostTicks), []), es)
  {
    hide Deadlines, Queued, Without, NoTwins, Queues, Ahead;
    log := [];
    var k: nat := 0;
    ghost var c0 := Clock(t.Queue(), t.Count(), t.lostTicks, []);
    while k < |es|
      invariant k <= |es| && t.Valid()
      invariant Clock(t.Queue(), t.Count(), t.lostTicks, log) == ClockRun(c0, es[..k])
    {
      assert es[..k + 1][..k] == es[..k];
      log := OneEvent(t, es[k], log);
      k := k + 1;
    }
    assert es[..k] == es;
    ListAhead(old(t.list), old(t.Count()), old(t.lostTicks));
    RunAhead(c0, es);
  }

  method OneEvent(t: TimerList, e: Event, log: seq<Firing>) returns (log': seq<Firing>)
    requires t.Valid()
    modifies t
    ensures t.Valid()
    ensures var c := Clock(old(t.Queue()), old(t.Count()), old(t.lostTicks), log);
      Clock(t.Queue(), t.Count(), t.lostTicks, log') == ClockStep(c, e)
  {
    hide Deadlines, Queued, Without, NoTwins, Queues, Has;
    log' := log;
    FirstDeadline(t.list, t.Count());
    match e {
      case Add(id, expires) =>
        QueuesHas(t.list, t.Count(), id);
        var there := Holds(t, id);
        if !there { t.AddTimer(id, expires); }
      case Del(id) =>
        var found, left := t.DelTimer(id);
      case Tick =>
        var lost := t.Tick();
      case Fire =>
        var fired := t.Fire();
        if fired != [] { log' := log + [Firing(fired[0], t.jiffies, t.lostTicks)]; }
    }
  }

  method Holds(t: TimerList, id: nat) returns (there: bool)
    ensures there == Has(t.list, id)
  {
    there := false;
    var i: nat := 0;
    while i < |t.list|
      invariant i <= |t.list| && forall j :: 0 <= j < i ==> t.list[j].id != id
    {
      if t.list[i].id == id { return true; }
      i := i + 1;
    }
  }

  // ---------------------------------------------------------------- on time, in order

  /** What has fired, first to last, and then what is still to fire. */
  function Course(c: Clock): seq<Deadline> {
    Fired(c.log) + c.queue
  }

  function Fired(log: seq<Firing>): seq<Deadline> {
    seq(|log|, i requires 0 <= i < |log| => log[i].d)
  }

  ghost predicate Sorted(q: seq<Deadline>) {
    forall i, j :: 0 <= i < j < |q| ==> q[i].at <= q[j].at
  }

  ghost predicate OnTime(log: seq<Firing>) {
    forall i :: 0 <= i < |log| ==> log[i].tick == log[i].d.at + log[i].lost
  }

  /** All that fired did so when its count of ticks was up; nothing queued is overdue; all of it is in order. */
  ghost predicate Ahead(c: Clock) {
    && OnTime(c.log)
    && Sorted(Course(c))
    && (forall i :: 0 <= i < |c.log| ==> c.log[i].d.at <= c.count && c.log[i].lost <= c.lost)
    && (forall i :: 0 <= i < |c.queue| ==> c.queue[i].at >= c.count)
  }

  lemma {:induction false} QueuedSorted(q: seq<Deadline>, d: Deadline)
    requires Sorted(q)
    ensures Sorted(Queued(q, d))
    ensures forall i :: 0 <= i < |Queued(q, d)| ==> Queued(q, d)[i] == d || Queued(q, d)[i] in q
  {
    if q != [] && q[0].at <= d.at {
      QueuedSorted(q[1..], d);
      var r := Queued(q[1..], d);
      forall i | 0 <= i < |r|
        ensures q[0].at <= r[i].at && (r[i] == d || r[i] in q)
      {
        assert r[i] == d || r[i] in q[1..];
      }
    }
  }

  /** Setting a timer puts it into the course of things behind all that are due no later. */
  lemma AddCourse(c: Clock, id: nat, expires: nat)
    requires Ahead(c) && !Queues(c.queue, id)
    ensures Course(ClockStep(c, Add(id, expires))) == Queued(Course(c), Deadline(id, c.count + expires))
  {
    QueuedBehind(Fired(c.log), c.queue, Deadline(id, c.count + expires));
  }

  /** Ticks and passes of the bottom half leave the course of things alone. */
  lemma FireCourse(c: Clock)
    ensures Course(ClockStep(c, Fire)) == Course(c) == Course(ClockStep(c, Tick))
  {
    if !Quiet(c) {
      var c' := ClockStep(c, Fire);
      assert Fired(c'.log) == Fired(c.log) + [c.queue[0]];
      assert c.queue == [c.queue[0]] + c'.queue;
    }
  }

  /** Where a timer is in the queue, if it is there. */
  function Where(q: seq<Deadline>, id: nat): nat {
    if q == [] || q[0].id == id then 0 else 1 + Where(q[1..], id)
  }

  /** Deleting a timer takes out one entry that has not fired. */
  lemma {:induction false} WithoutSplit(q: seq<Deadline>, id: nat)
    ensures Where(q, id) <= |q| && (Where(q, id) == |q| ==> Without(q, id) == q)
    ensures Where(q, id) < |q| ==>
      q[Where(q, id)].id == id && Without(q, id) == q[..Where(q, id)] + q[Where(q, id) + 1..]
  {
    if q != [] && q[0].id != id {
      var r := q[1..];
      WithoutSplit(r, id);
      var k := Where(r, id);
      assert Without(q, id) == [q[0]] + Without(r, id) && Where(q, id) == k + 1;
      hide Without, Where;
      assert q == [q[0]] + r;
      if k < |r| { SplitTail(q[0], r, k); }
    }
  }

  lemma SplitTail(d: Deadline, r: seq<Deadline>, k: nat)
    requires k < |r|
    ensures [d] + (r[..k] + r[k + 1..]) == ([d] + r)[..k + 1] + ([d] + r)[k + 2..]
  {
  }

  lemma DelCourse(c: Clock, id: nat)
    requires Where(c.queue, id) < |c.queue|
    ensures var n := |c.log| + Where(c.queue, id);
      n < |Course(c)| && Course(c)[n].id == id && Course(ClockStep(c, Del(id))) == Course(c)[..n] + Course(c)[n + 1..]
  {
    WithoutSplit(c.queue, id);
    hide Where, Without;
    var k, f := Where(c.queue, id), Fired(c.log);
    assert Course(c)[..|f| + k] == f + c.queue[..k] && Course(c)[|f| + k + 1..] == c.queue[k + 1..];
  }

  lemma SortedTaken(s: seq<Deadline>, n: nat)
    requires Sorted(s) && n < |s|
    ensures Sorted(s[..n] + s[n + 1..])
  {
  }

  lemma DelAhead(c: Clock, id: nat)
    requires Ahead(c)
    ensures Ahead(ClockStep(c, Del(id)))
  {
    WithoutSplit(c.queue, id);
    hide Without, Where, Sorted;
    if Where(c.queue, id) < |c.queue| {
      DelCourse(c, id);
      SortedTaken(Course(c), |c.log| + Where(c.queue, id));
    }
  }

  lemma AddAhead(c: Clock, id: nat, expires: nat)
    requires Ahead(c) && !Queues(c.queue, id)
    ensures Ahead(ClockStep(c, Add(id, expires)))
  {
    var d := Deadline(id, c.count + expires);
    AddCourse(c, id, expires);
    QueuedSorted(Course(c), d);
    assert Sorted(c.queue) by {
      forall i, j | 0 <= i < j < |c.queue| ensures c.queue[i].at <= c.queue[j].at {
        assert Course(c)[|c.log| + i] == c.queue[i] && Course(c)[|c.log| + j] == c.queue[j];
      }
    }
    QueuedSorted(c.queue, d);
  }

  lemma TickAhead(c: Clock)
    requires Ahead(c)
    ensures Ahead(ClockStep(c, Tick))
  {
    FireCourse(c);
    if Quiet(c) {
      forall i | 0 <= i < |c.queue| ensures c.queue[i].at >= c.count + 1 {
        assert Course(c)[|c.log|] == c.queue[0] && Course(c)[|c.log| + i] == c.queue[i];
      }
    }
  }

  lemma FireAhead(c: Clock)
    requires Ahead(c)
    ensures Ahead(ClockStep(c, Fire))
  {
    FireCourse(c);
  }

  lemma StepAhead(c: Clock, e: Event)
    requires Ahead(c)
    ensures Ahead(ClockStep(c, e))
  {
    hide Ahead, Queued, Without;
    match e {
      case Add(id, expires) => if !Queues(c.queue, id) { AddAhead(c, id, expires); }
      case Del(id) => DelAhead(c, id);
      case Tick => TickAhead(c);
      case Fire => FireAhead(c);
    }
  }

  /** In every run, whatever the order of events, all that fires does so when its count of ticks is up, in order. */
  lemma {:induction false} RunAhead(c: Clock, es: seq<Event>)
    requires Ahead(c)
    ensures Ahead(ClockRun(c, es))
  {
    if es != [] {
      RunAhead(c, es[..|es| - 1]);
      StepAhead(ClockRun(c, es[..|es| - 1]), es[|es| - 1]);
    }
  }

  /** Whatever list a run starts from, nothing on it is overdue or out of order. */
  lemma ListAhead(l: seq<Timer>, count: nat, lost: nat)
    ensures Ahead(Clock(Deadlines(l, count), count, lost, []))
  {
    DeadlinesBound(l, count);
    forall i, j | 0 <= i < j < |l|
      ensures Deadlines(l, count)[i].at <= Deadlines(l, count)[j].at
    {
      InOrder(l, count, i, j);
    }
    hide Deadlines;
    assert Course(Clock(Deadlines(l, count), count, lost, [])) == Deadlines(l, count);
  }

  // ---------------------------------------------------------------- every timer fires

  /** A timer that fired after the first `m` firings. */
  ghost predicate FiredSince(c: Clock, m: nat, d: Deadline) {
    exists i :: m <= i < |c.log| && c.log[i].d == d
  }

  lemma {:induction false} QueuedKeeps(q: seq<Deadline>, d: Deadline, e: Deadline)
    requires e == d || e in q
    ensures e in Queued(q, d)
  {
    if q != [] && q[0].at <= d.at && e != q[0] { QueuedKeeps(q[1..], d, e); }
  }

  lemma {:induction false} WithoutKeeps(q: seq<Deadline>, id: nat, e: Deadline)
    requires e in q && e.id != id
    ensures e in Without(q, id)
  {
    if q[0].id != id && e != q[0] { WithoutKeeps(q[1..], id, e); }
  }

  /** A timer that is set waits or has fired, until it is deleted. */
  lemma StepWaits(c: Clock, e: Event, m: nat, d: Deadline)
    requires (d in c.queue || FiredSince(c, m, d)) && e != Del(d.id) && m <= |c.log|
    ensures var c' := ClockStep(c, e); (d in c'.queue || FiredSince(c', m, d)) && m <= |c'.log|
  {
    hide Queued, Without;
    var c' := ClockStep(c, e);
    if FiredSince(c, m, d) {
      var i :| m <= i < |c.log| && c.log[i].d == d;
      assert c'.log[i].d == d;
    } else {
      match e {
        case Add(id, expires) => QueuedKeeps(c.queue, Deadline(id, c.count + expires), d);
        case Del(id) => WithoutKeeps(c.queue, id, d);
        case Tick =>
        case Fire =>
          if !Quiet(c) && d == c.queue[0] { assert c'.log[|c.log|].d == d; }
      }
    }
  }

  lemma {:induction false} RunWaits(c: Clock, es: seq<Event>, d: Deadline)
    requires d in c.queue && Del(d.id) !in es
    ensures var c' := ClockRun(c, es); (d in c'.queue || FiredSince(c', |c.log|, d)) && |c.log| <= |c'.log|
  {
    if es != [] {
      RunWaits(c, es[..|es| - 1], d);
      StepWaits(ClockRun(c, es[..|es| - 1]), es[|es| - 1], |c.log|, d);
    }
  }

  /** Once the bottom half is done, what is still queued is not due. */
  lemma QuietQueue(c: Clock, d: Deadline)
    requires Ahead(c) && d in c.queue
    ensures d.at >= c.count && (Quiet(c) ==> d.at > c.count)
  {
    var i :| 0 <= i < |c.queue| && c.queue[i] == d;
    assert Course(c)[|c.log|] == c.queue[0] && Course(c)[|c.log| + i] == d;
  }

  /** Every timer that is set and not deleted waits while its count of ticks is not up; once it is, and the bottom
      half is done, the timer has fired, at the tick that is its deadline and the ticks lost by then. */
  lemma FiresWhenDue(c: Clock, es: seq<Event>, d: Deadline)
    requires Ahead(c) && d in c.queue && Del(d.id) !in es
    ensures var c' := ClockRun(c, es);
      && (c'.count < d.at ==> d in c'.queue && !FiredSince(c', |c.log|, d))
      && (c'.count >= d.at && (Quiet(c') || c'.count > d.at) ==> FiredSince(c', |c.log|, d))
      && OnTime(c'.log)
  {
    var c' := ClockRun(c, es);
    RunAhead(c, es);
    RunWaits(c, es, d);
    hide ClockRun;
    if d in c'.queue { QuietQueue(c', d); }
  }

  /** Every tick of the run comes after the bottom half has dealt with all that was due. */
  ghost predicate Prompt(c: Clock, es: seq<Event>) {
    forall k :: 0 <= k < |es| && es[k] == Tick ==> Quiet(ClockRun(c, es[..k]))
  }

  lemma PromptSplit(c: Clock, es: seq<Event>)
    requires es != []
    ensures var p := es[..|es| - 1];
      Prompt(c, es) <==> Prompt(c, p) && (es[|es| - 1] == Tick ==> Quiet(ClockRun(c, p)))
  {
    var p := es[..|es| - 1];
    assert forall k :: 0 <= k < |p| ==> p[..k] == es[..k];
    if Prompt(c, es) {
      forall k | 0 <= k < |p| && p[k] == Tick ensures Quiet(ClockRun(c, p[..k])) { assert es[k] == Tick; }
    }
  }

  /** No tick is lost in a run exactly when every tick finds the bottom half done. */
  lemma {:induction false} LostExactly(c: Clock, es: seq<Event>)
    ensures ClockRun(c, es).lost >= c.lost && (ClockRun(c, es).lost == c.lost <==> Prompt(c, es))
  {
    if es != [] {
      var p := es[..|es| - 1];
      LostExactly(c, p);
      PromptSplit(c, es);
      hide Prompt, Quiet;
    }
  }

  /** The log grows by what fires, with no fewer ticks lost than before. */
  lemma {:induction false} LogGrows(c: Clock, es: seq<Event>)
    ensures c.log <= ClockRun(c, es).log
    ensures forall i ::
      |c.log| <= i < |ClockRun(c, es).log| ==> c.lost <= ClockRun(c, es).log[i].lost <= ClockRun(c, es).lost
  {
    if es != [] {
      var p := es[..|es| - 1];
      LogGrows(c, p);
      LostExactly(c, p);
    }
  }

  /** A timer set for n ticks and not deleted fires at exactly the nth tick from then if no tick is lost meanwhile. */
  lemma FiresAtNthTick(c: Clock, id: nat, n: nat, es: seq<Event>)
    requires Ahead(c) && !Queues(c.queue, id)
    requires Del(id) !in es && Prompt(ClockStep(c, Add(id, n)), es)
    ensures var c', tick := ClockRun(ClockStep(c, Add(id, n)), es), c.count + c.lost + n;
      c'.count + c'.lost >= tick && Quiet(c') ==>
        exists i :: |c.log| <= i < |c'.log| && c'.log[i] == Firing(Deadline(id, c.count + n), tick, c.lost)
  {
    var d, c1 := Deadline(id, c.count + n), ClockStep(c, Add(id, n));
    QueuedKeeps(c.queue, d, d);
    StepAhead(c, Add(id, n));
    LostExactly(c1, es);
    LogGrows(c1, es);
    FiresWhenDue(c1, es, d);
    hide ClockRun, Ahead, Prompt, ClockStep, Queues, Queued;
    var c' := ClockRun(c1, es);
    if FiredSince(c', |c.log|, d) {
      var i :| |c.log| <= i < |c'.log| && c'.log[i].d == d;
      assert c'.log[i] == Firing(d, d.at + c.lost, c.lost);
    }
  }

  // ---------------------------------------------------------------- when no tick is lost

  /** No timer is set with nothing left to wait for. */
  ghost predicate NoZero(es: seq<Event>) {
    forall k :: 0 <= k < |es| && es[k].Add? ==> es[k].expires >= 1
  }

  ghost predicate QuietAt(c: Clock, es: seq<Event>, m: nat)
    requires m <= |es|
  {
    Quiet(ClockRun(c, es[..m]))
  }

  /** Between any two ticks the bottom half comes to its end. */
  ghost predicate BottomDone(c: Clock, es: seq<Event>) {
    forall j, k :: 0 <= j < k < |es| && es[j] == Tick && es[k] == Tick ==> exists m :: j < m <= k && QuietAt(c, es, m)
  }

  /** Only a tick, or a timer without delay, makes a timer due. */
  lemma QuietKept(c: Clock, e: Event)
    requires Ahead(c) && Quiet(c) && e != Tick && (e.Add? ==> e.expires >= 1)
    ensures Quiet(ClockStep(c, e))
  {
    match e {
      case Add(id, expires) =>
      case Del(id) =>
        WithoutSplit(c.queue, id);
        var q := Without(c.queue, id);
        hide Without, Where;
        if q != [] {
          assert q[0] in c.queue;
          QuietQueue(c, q[0]);
        }
      case Fire =>
    }
  }

  lemma RunStep(c: Clock, es: seq<Event>, k: nat)
    requires k < |es|
    ensures ClockRun(c, es[..k + 1]) == ClockStep(ClockRun(c, es[..k]), es[k])
  {
    assert es[..k + 1][..k] == es[..k];
  }

  /** After any part of the run nothing is due, or nothing but since some tick. */
  lemma {:induction false} QuietOr(c: Clock, es: seq<Event>, k: nat) returns (j: int)
    requires Ahead(c) && Quiet(c) && NoZero(es) && k <= |es|
    ensures QuietAt(c, es, k) || (0 <= j < k && es[j] == Tick && forall m :: j < m <= k ==> !QuietAt(c, es, m))
  {
    if k == 0 {
      assert es[..0] == [];
      return 0;
    }
    j := QuietOr(c, es, k - 1);
    RunStep(c, es, k - 1);
    RunAhead(c, es[..k - 1]);
    if QuietAt(c, es, k - 1) {
      if es[k - 1] == Tick { j := k - 1; } else { QuietKept(ClockRun(c, es[..k - 1]), es[k - 1]); }
    }
  }

  /** With every delay at least 1, no tick is lost if and only if between any two ticks the bottom half comes to its
      end. */
  lemma PromptExactly(c: Clock, es: seq<Event>)
    requires Ahead(c) && Quiet(c) && NoZero(es)
    ensures Prompt(c, es) <==> BottomDone(c, es)
    ensures ClockRun(c, es).lost == c.lost <==> BottomDone(c, es)
  {
    LostExactly(c, es);
    hide Ahead, Quiet, ClockRun;
    if BottomDone(c, es) {
      forall k | 0 <= k < |es| && es[k] == Tick ensures QuietAt(c, es, k) {
        var j := QuietOr(c, es, k);
      }
    }
    if Prompt(c, es) {
      forall j, k | 0 <= j < k < |es| && es[j] == Tick && es[k] == Tick
        ensures exists m :: j < m <= k && QuietAt(c, es, m)
      {
        assert QuietAt(c, es, k);
      }
    }
  }

  /** From a time when nothing is due, with every delay at least 1 and the bottom half done between any two ticks, a
      timer set for n ticks and not deleted fires at exactly the nth tick. */
  lemma FiresPromptly(c: Clock, id: nat, n: nat, es: seq<Event>)
    requires Ahead(c) && Quiet(c) && !Queues(c.queue, id) && n >= 1 && NoZero(es)
    requires Del(id) !in es && BottomDone(ClockStep(c, Add(id, n)), es)
    ensures var c', tick := ClockRun(ClockStep(c, Add(id, n)), es), c.count + c.lost + n;
      c'.count + c'.lost >= tick && Quiet(c') ==>
        exists i :: |c.log| <= i < |c'.log| && c'.log[i] == Firing(Deadline(id, c.count + n), tick, c.lost)
  {
    StepAhead(c, Add(id, n));
    QuietKept(c, Add(id, n));
    PromptExactly(ClockStep(c, Add(id, n)), es);
    FiresAtNthTick(c, id, n, es);
  }

  /** A timer added with nothing left to wait for costs a tick: the next timer comes one tick late. */
  lemma ZeroTimerDelays(c: Clock)
    requires c.queue == [] && c.lost == 0
    ensures var c' := ClockStep(ClockStep(c, Add(1, 1)), Add(2, 0));
      ClockStep(ClockStep(ClockStep(ClockStep(c', Tick), Fire), Tick), Fire).log
      == c.log + [Firing(Deadline(2, c.count), c.count + 1, 1), Firing(Deadline(1, c.count + 1), c.count + 2, 1)]
  {
  }

  // ---------------------------------------------------------------- first set, first fired

  ghost predicate Before(s: seq<Deadline>, d: Deadline, e: Deadline) {
    exists i, j :: 0 <= i < j < |s| && s[i] == d && s[j] == e
  }

  /** How many are due no later, at the head of the queue. */
  function Place(q: seq<Deadline>, d: Deadline): nat {
    if q == [] || q[0].at > d.at then 0 else 1 + Place(q[1..], d)
  }

  /** Where a deadline goes. */
  lemma {:induction false} QueuedSplit(q: seq<Deadline>, d: Deadline)
    ensures Place(q, d) <= |q| && Queued(q, d) == q[..Place(q, d)] + [d] + q[Place(q, d)..]
    ensures Sorted(q) ==> forall i :: Place(q, d) <= i < |q| ==> q[i].at > d.at
  {
    if q != [] && q[0].at <= d.at {
      QueuedSplit(q[1..], d);
      var k := Place(q[1..], d);
      assert q[..k + 1] == [q[0]] + q[1..][..k] && q[k + 1..] == q[1..][k..];
      if Sorted(q) {
        forall i | k + 1 <= i < |q| ensures q[i].at > d.at { assert q[i] == q[1..][i - 1]; }
      }
    }
  }

  lemma QueuedAfter(q: seq<Deadline>, d: Deadline, e: Deadline)
    requires Sorted(q) && d in q && d.at <= e.at
    ensures Before(Queued(q, e), d, e)
  {
    QueuedSplit(q, e);
    hide Queued, Place;
    var k, r := Place(q, e), Queued(q, e);
    var i :| 0 <= i < |q| && q[i] == d;
    assert i < k && r[i] == d && r[k] == e;
  }

  lemma QueuedBefore(q: seq<Deadline>, x: Deadline, d: Deadline, e: Deadline)
    requires Before(q, d, e)
    ensures Before(Queued(q, x), d, e)
  {
    QueuedSplit(q, x);
    hide Queued, Place;
    var k, r := Place(q, x), Queued(q, x);
    var i, j :| 0 <= i < j < |q| && q[i] == d && q[j] == e;
    assert r[if i < k then i else i + 1] == d && r[if j < k then j else j + 1] == e;
  }

  lemma TakenBefore(s: seq<Deadline>, n: nat, d: Deadline, e: Deadline)
    requires Before(s, d, e) && n < |s| && s[n].id != d.id && s[n].id != e.id
    ensures Before(s[..n] + s[n + 1..], d, e)
  {
    var i, j :| 0 <= i < j < |s| && s[i] == d && s[j] == e;
    var r := s[..n] + s[n + 1..];
    assert r[if i < n then i else i - 1] == d && r[if j < n then j else j - 1] == e;
  }

  lemma DelBefore(c: Clock, id: nat, d: Deadline, e: Deadline)
    requires Before(Course(c), d, e) && d.id != id && e.id != id
    ensures Before(Course(ClockStep(c, Del(id))), d, e)
  {
    WithoutSplit(c.queue, id);
    hide Without, Before, Where;
    if Where(c.queue, id) < |c.queue| {
      DelCourse(c, id);
      TakenBefore(Course(c), |c.log| + Where(c.queue, id), d, e);
    }
  }

  lemma {:induction false} RunBefore(c: Clock, es: seq<Event>, d: Deadline, e: Deadline)
    requires Ahead(c) && Before(Course(c), d, e) && Del(d.id) !in es && Del(e.id) !in es
    ensures Before(Course(ClockRun(c, es)), d, e)
  {
    if es != [] {
      var p, x := es[..|es| - 1], es[|es| - 1];
      RunBefore(c, p, d, e);
      RunAhead(c, p);
      var c' := ClockRun(c, p);
      hide Ahead, Before, Queued, Without, Course;
      match x {
        case Add(id, expires) =>
          if !Queues(c'.queue, id) {
            AddCourse(c', id, expires);
            QueuedBefore(Course(c'), Deadline(id, c'.count + expires), d, e);
          }
        case Del(id) => DelBefore(c', id, d, e);
        case Tick => FireCourse(c');
        case Fire => FireCourse(c');
      }
    }
  }

  /** Of two timers the one set later, for no earlier a deadline, never fires first. */
  lemma FirstSetFirstFired(c: Clock, d: Deadline, id: nat, n: nat, es: seq<Event>)
    requires Ahead(c) && d in c.queue && !Queues(c.queue, id) && d.at <= c.count + n
    requires Del(d.id) !in es && Del(id) !in es
    ensures Before(Course(ClockRun(ClockStep(c, Add(id, n)), es)), d, Deadline(id, c.count + n))
  {
    var c1, e := ClockStep(c, Add(id, n)), Deadline(id, c.count + n);
    AddCourse(c, id, n);
    assert d in Course(c);
    QueuedAfter(Course(c), d, e);
    StepAhead(c, Add(id, n));
    RunBefore(c1, es, d, e);
  }
}

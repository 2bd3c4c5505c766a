/** Counters, ticks and recalculation of the scheduler, with tasks that sleep and wake (kernel/sched.c). */
module Scheduler {

  datatype Task = Task(counter: int, priority: int, running: bool)

  /** A counter between 0 and twice the priority, exclusive. */
  predicate InRange(t: Task) {
    t.priority >= 1 && 0 <= t.counter < 2 * t.priority
  }

  /** The counter after a recalculation. */
  function Renewed(t: Task): Task {
    t.(counter := t.counter / 2 + t.priority)
  }

  /** The counter after a tick. */
  function Charged(t: Task): Task {
    t.(counter := if t.counter > 0 then t.counter - 1 else 0)
  }

  /** A recalculation keeps a counter in its range, gives one that is used up its priority, and leaves a sleeper half of
      what it had, rounded down, on top of that. */
  lemma StaysInRange(t: Task)
    requires InRange(t)
    ensures InRange(Renewed(t)) && (t.counter == 0 ==> Renewed(t).counter == t.priority)
    ensures 2 * (Renewed(t).counter - t.priority) == t.counter || 2 * (Renewed(t).counter - t.priority) == t.counter - 1
    ensures Renewed(t).priority == t.priority && Renewed(t).running == t.running
  {
  }

  /** No runnable task has a counter above `c`. */
  ghost predicate AtMost(task: seq<Task>, c: int) {
    forall i :: 0 <= i < |task| && task[i].running ==> task[i].counter <= c
  }

  ghost predicate SomeRunning(task: seq<Task>) {
    exists i :: 0 <= i < |task| && task[i].running
  }

  ghost predicate SamePriorities(a: seq<Task>, b: seq<Task>) {
    |a| == |b| && forall i :: 0 <= i < |a| ==> a[i].priority == b[i].priority
  }

  function Counters(task: seq<Task>): seq<int> {
    seq(|task|, i requires 0 <= i < |task| => task[i].counter)
  }

  function Renewal(task: seq<Task>): seq<Task> {
    seq(|task|, i requires 0 <= i < |task| => Renewed(task[i]))
  }

  // ---------------------------------------------------------------- the books of a lap

  /** From one recalculation to the next: all tasks just before each, who had the processor at each tick between (-1 for
      task[0]), and how many of these ticks came after a new choice had been asked for. */
  datatype Lap = Lap(start: seq<Task>, end: seq<Task>, ticks: seq<int>, late: nat)

  /** How many ticks a task had. */
  function Ran(ticks: seq<int>, i: int): nat {
    multiset(ticks)[i]
  }

  /** Each task that is runnable at the end ran all the ticks that it was given, its priority if it was runnable at the
      start, and no task ran more; but for the ticks that were late. */
  ghost predicate Fair(lap: Lap) {
    && SamePriorities(lap.start, lap.end)
    && forall i :: 0 <= i < |lap.end| ==> FairTo(lap.start[i], lap.end[i], Ran(lap.ticks, i), lap.late)
  }

  predicate FairTo(start: Task, end: Task, ran: nat, late: nat) {
    && ran <= Renewed(start).counter + late && Renewed(start).counter < 2 * end.priority
    && (end.running ==> Renewed(start).counter <= ran)
    && (start.running && end.running ==> end.priority <= ran <= end.priority + late)
  }

  /** With no tick late a task that is runnable at both ends ran exactly its priority of ticks. */
  lemma FairExactly(lap: Lap, i: nat)
    requires Fair(lap) && lap.late == 0 && i < |lap.end|
    ensures lap.end[i].running ==> Ran(lap.ticks, i) == Renewed(lap.start[i]).counter
    ensures lap.start[i].running && lap.end[i].running ==> Ran(lap.ticks, i) == lap.end[i].priority
  {
    assert FairTo(lap.start[i], lap.end[i], Ran(lap.ticks, i), lap.late);
  }

  /** Each tick has come out of the counter of whoever had it, unless it was late. */
  ghost predicate Books(task: seq<Task>, ticks: seq<int>, late: nat, given: seq<int>) {
    && |given| == |task|
    && (forall i :: 0 <= i < |task| ==> InRange(task[i]))
    && (forall i :: 0 <= i < |task| ==> given[i] <= Ran(ticks, i) + task[i].counter <= given[i] + late)
  }

  /** What was given is what the recalculation made of all tasks as they were, with no runnable counter left. */
  ghost predicate Begun(start: seq<Task>, task: seq<Task>, given: seq<int>) {
    && SamePriorities(start, task) && AtMost(start, 0) && |given| == |task|
    && forall i :: 0 <= i < |task| ==> InRange(start[i]) && given[i] == Renewed(start[i]).counter
  }

  /** With all runnable counters at 0 a new lap begins. */
  lemma RenewBooks(task: seq<Task>, ticks: seq<int>, late: nat, given: seq<int>)
    requires Books(task, ticks, late, given) && AtMost(task, 0)
    ensures Books(Renewal(task), [], 0, Counters(Renewal(task)))
    ensures Begun(task, Renewal(task), Counters(Renewal(task)))
  {
    forall i | 0 <= i < |task| ensures InRange(Renewed(task[i])) { StaysInRange(task[i]); }
  }

  /** ... and the one that ends was fair. */
  lemma LapFair(start: seq<Task>, task: seq<Task>, ticks: seq<int>, late: nat, given: seq<int>)
    requires Books(task, ticks, late, given) && AtMost(task, 0) && Begun(start, task, given)
    ensures Fair(Lap(start, task, ticks, late))
  {
    forall i | 0 <= i < |task| ensures FairTo(start[i], task[i], Ran(ticks, i), late) { StaysInRange(start[i]); }
  }

  /** One more tick, for `current`; late if the counter was used up already. */
  lemma TickBooks(task: seq<Task>, ticks: seq<int>, late: nat, given: seq<int>, current: nat, late': nat)
    requires Books(task, ticks, late, given) && current < |task|
    requires late <= late' && (task[current].counter == 0 ==> late < late')
    ensures Books(task[current := Charged(task[current])], ticks + [current], late', given)
  {
    forall i: int ensures Ran(ticks + [current], i) == Ran(ticks, i) + if i == current then 1 else 0 {
      assert multiset(ticks + [current]) == multiset(ticks) + multiset{current};
    }
  }

  lemma IdleBooks(task: seq<Task>, ticks: seq<int>, late: nat, given: seq<int>, late': nat)
    requires Books(task, ticks, late, given) && late <= late'
    ensures Books(task, ticks + [-1], late', given)
  {
    forall i | 0 <= i < |task| ensures Ran(ticks + [-1], i) == Ran(ticks, i) {
      assert multiset(ticks + [-1]) == multiset(ticks) + multiset{-1};
    }
  }

  // ---------------------------------------------------------------- the processor

  class Cpu {
    var task: seq<Task>           // all tasks but task[0], in list order
    var current: int              // -1 stands for task[0]
    var idle: int                 // the counter of task[0]
    var needResched: bool
    ghost var ticks: seq<int>     // who had each tick since the last recalculation
    ghost var late: nat           // how many of them came with a new choice asked for
    ghost var given: seq<int>     // counters right after the recalculation
    ghost var start: seq<Task>    // all tasks just before it
    ghost var laps: nat           // recalculations so far

    ghost predicate Sound()
      reads this
    {
      Books(task, ticks, late, given) && (laps > 0 ==> Begun(start, task, given))
    }

    ghost predicate Valid()
      reads this
    {
      && Sound() && -1 <= current < |task|
      && (current >= 0 ==> task[current].running && (needResched || task[current].counter > 0))
    }

    constructor (task: seq<Task>)
      requires forall i :: 0 <= i < |task| ==> InRange(task[i])
      ensures Valid() && this.task == task && laps == 0 && ticks == [] && late == 0 && current == -1 && needResched
    {
      this.task, current, idle, needResched := task, -1, 15, true;
      ticks, late, given, start, laps := [], 0, Counters(task), task, 0;
    }

    /** The charge of a tick in do_timer; a task with nothing left is charged nothing. */
    method Tick()
      requires Valid()
      modifies `task, `idle, `needResched, `ticks, `late
      ensures Valid() && ticks == old(ticks) + [current] && late == old(late) + if old(needResched) then 1 else 0
      ensures idle == (if current == -1 then 0 else old(idle)) && SamePriorities(old(task), task)
      ensures forall i :: 0 <= i < |task| ==>
        task[i] == if i == current then Charged(old(task)[i]) else old(task)[i]
      ensures needResched <==> old(needResched) || current == -1 || task[current].counter == 0
    {
      hide Books, Ran;
      ghost var late' := late + if needResched then 1 else 0;
      if current == -1 {
        IdleBooks(task, ticks, late, given, late');
        idle, needResched := 0, true;
      } else {
        BooksRange(task, ticks, late, given);
        TickBooks(task, ticks, late, given, current, late');
        var left := task[current].counter - 1;
        if left <= 0 {
          task := task[current := task[current].(counter := 0)];
          needResched := true;
        } else {
          task := task[current := task[current].(counter := left)];
        }
      }
      ticks, late := ticks + [current], late';
    }

    /** schedule: the first of the runnable tasks with the largest counter, or task[0]; when some task is runnable and
        all those have used up what they were given, everybody's counter is renewed. */
    method Schedule() returns (renewed: bool, ghost lap: Lap)
      requires Sound()
      modifies this
      ensures Valid() && !needResched && lap == Lap(old(start), old(task), old(ticks), old(late))
      ensures renewed == (SomeRunning(old(task)) && AtMost(old(task), 0))
      ensures task == (if renewed then Renewal(old(task)) else old(task))
      ensures current == -1 <==> !SomeRunning(old(task))
      ensures current >= 0 ==> Chosen(old(task), current)
      ensures if renewed then ticks == [] && late == 0 && start == old(task)
              else ticks == old(ticks) && late == old(late) && start == old(start)
      ensures laps == old(laps) + (if renewed then 1 else 0) && (renewed && old(laps) > 0 ==> Fair(lap))
    {
      hide Fair, Books, Begun;
      BooksRange(task, ticks, late, given);
      needResched := false;
      lap := Lap(start, task, ticks, late);
      var c, next := Select(task);
      renewed := c == 0;
      if renewed {
        RenewBooks(task, ticks, late, given);
        if laps > 0 { LapFair(start, task, ticks, late, given); }
        if next >= 0 { StaysInRange(task[next]); }
        start := task;
        task := Recalculate(task);
        ticks, late, given, laps := [], 0, Counters(task), laps + 1;
      }
      current := next;
    }

    /** A task that goes to sleep gives up the processor at once. */
    method Block() returns (renewed: bool, ghost lap: Lap)
      requires Valid()
      modifies this
      ensures Valid() && !needResched
      ensures laps == old(laps) + (if renewed then 1 else 0) && (renewed && old(laps) > 0 ==> Fair(lap))
      ensures lap.ticks == old(ticks) && lap.late == old(late)
      ensures if renewed then ticks == [] && late == 0 else ticks == old(ticks) && late == old(late)
      ensures |task| == |old(task)| && (old(current) >= 0 ==> !task[old(current)].running && current != old(current))
    {
      if current >= 0 { task := task[current := task[current].(running := false)]; }
      renewed, lap := Schedule();
    }

    /** What wake_up does to a task: one that sleeps is made runnable, and wants the processor if it has more left. */
    method Wake(i: nat)
      requires Valid() && i < |task|
      modifies `task, `needResched
      ensures Valid() && task == old(task)[i := old(task)[i].(running := true)]
      ensures needResched <==> old(needResched) || (!old(task)[i].running && task[i].counter > CurrentCounter())
    {
      if !task[i].running {
        task := task[i := task[i].(running := true)];
        var mine := if current >= 0 then task[current].counter else idle;
        if task[i].counter > mine { needResched := true; }
      }
    }

    ghost function CurrentCounter(): int
      reads this
    {
      if 0 <= current < |task| then task[current].counter else idle
    }
  }

  /** The first runnable task with the largest counter. */
  ghost predicate Chosen(task: seq<Task>, next: int) {
    && 0 <= next < |task| && task[next].running && AtMost(task, task[next].counter)
    && forall i :: 0 <= i < next && task[i].running ==> task[i].counter < task[next].counter
  }

  lemma BooksRange(task: seq<Task>, ticks: seq<int>, late: nat, given: seq<int>)
    requires Books(task, ticks, late, given)
    ensures forall i :: 0 <= i < |task| ==> InRange(task[i])
  {
  }

  /** The choice of schedule; -1 for both when no task is runnable. */
  method Select(task: seq<Task>) returns (c: int, next: int)
    requires forall i :: 0 <= i < |task| ==> InRange(task[i])
    ensures if SomeRunning(task) then Chosen(task, next) && c == task[next].counter else c == next == -1
  {
    c, next := -1, -1;
    var p := 0;
    while p < |task|
      invariant 0 <= p <= |task| && -1 <= next < p && (next == -1 <==> c == -1)
      invariant next >= 0 ==> task[next].running && task[next].counter == c >= 0
      invariant forall i :: 0 <= i < p && task[i].running ==> task[i].counter <= c
      invariant forall i :: 0 <= i < next && task[i].running ==> task[i].counter < c
    {
      if task[p].running && task[p].counter > c {
        c, next := task[p].counter, p;
      }
      p := p + 1;
    }
  }

  /** New counters for all tasks. */
  method Recalculate(task: seq<Task>) returns (r: seq<Task>)
    ensures r == Renewal(task)
  {
    r := task;
    var p := 0;
    while p < |r|
      invariant 0 <= p <= |r| == |task|
      invariant forall i :: 0 <= i < |r| ==> r[i] == if i < p then Renewed(task[i]) else task[i]
    {
      r := r[p := r[p].(counter := r[p].counter / 2 + r[p].priority)];
      p := p + 1;
    }
  }

  // ---------------------------------------------------------------- runs

  datatype Event = Tock | Resched | Sleep | WakeUp(i: nat)

  /** How many of the events are ticks. */
  function Tocks(es: seq<Event>): nat {
    if es == [] then 0 else Tocks(es[..|es| - 1]) + if es[|es| - 1].Tock? then 1 else 0
  }

  /** The ticks of all laps, one after the other. */
  function Joined(laps: seq<Lap>): seq<int> {
    if laps == [] then [] else Joined(laps[..|laps| - 1]) + laps[|laps| - 1].ticks
  }

  lemma JoinedOne(laps: seq<Lap>, lap: Lap)
    ensures Joined(laps + [lap]) == Joined(laps) + lap.ticks
  {
    assert (laps + [lap])[..|laps|] == laps;
  }

  lemma TocksOne(es: seq<Event>, n: nat)
    requires n < |es|
    ensures Tocks(es[..n + 1]) == Tocks(es[..n]) + if es[n].Tock? then 1 else 0
  {
    assert es[..n + 1][..n] == es[..n];
  }

  /** The laps of a run so far: fair, but for the first if it began before the run; with all ticks in them or in the lap
      that is under way; and none late if no tick is. */
  ghost predicate Kept(cpu: Cpu, laps: seq<Lap>, laps0: nat, ticks0: seq<int>, late0: nat, tocks: nat, prompt: bool)
    reads cpu
  {
    && |laps| == cpu.laps - laps0
    && (forall k :: 0 <= k < |laps| && (k > 0 || laps0 > 0) ==> Fair(laps[k]))
    && ticks0 <= Joined(laps) + cpu.ticks && |Joined(laps) + cpu.ticks| == |ticks0| + tocks
    && (prompt ==> forall k :: 0 <= k < |laps| && (k > 0 || late0 == 0) ==> laps[k].late == 0)
    && (prompt && (laps != [] || late0 == 0) ==> cpu.late == 0)
  }

  lemma KeptMore(cpu: Cpu, laps: seq<Lap>, lap: Lap, laps0: nat, ticks0: seq<int>, late0: nat, tocks: nat, prompt: bool)
    requires |laps| + 1 == cpu.laps - laps0 && cpu.ticks == [] && cpu.late == 0 && (cpu.laps > 1 ==> Fair(lap))
    requires forall k :: 0 <= k < |laps| && (k > 0 || laps0 > 0) ==> Fair(laps[k])
    requires ticks0 <= Joined(laps) + lap.ticks && |Joined(laps) + lap.ticks| == |ticks0| + tocks
    requires prompt ==> forall k :: 0 <= k < |laps| && (k > 0 || late0 == 0) ==> laps[k].late == 0
    requires prompt && (laps != [] || late0 == 0) ==> lap.late == 0
    ensures Kept(cpu, laps + [lap], laps0, ticks0, late0, tocks, prompt)
  {
    JoinedOne(laps, lap);
    hide Fair, Joined;
    assert Joined(laps + [lap]) + [] == Joined(laps + [lap]);
  }

  /** A choice made, and the lap put down if it ends one. */
  /** No task has stopped being runnable. */
  ghost predicate StillRunning(a: seq<Task>, b: seq<Task>) {
    |a| == |b| && forall i :: 0 <= i < |a| && a[i].running ==> b[i].running
  }

  method Choose(cpu: Cpu, sleep: bool, ghost laps: seq<Lap>, ghost laps0: nat, ghost ticks0: seq<int>, ghost late0: nat,
      ghost tocks: nat, ghost prompt: bool)
    returns (ghost laps': seq<Lap>)
    requires cpu.Valid() && Kept(cpu, laps, laps0, ticks0, late0, tocks, prompt)
    modifies cpu
    ensures cpu.Valid() && Kept(cpu, laps', laps0, ticks0, late0, tocks, prompt) && !cpu.needResched
    ensures !sleep ==> StillRunning(old(cpu.task), cpu.task)
  {
    hide Fair, Joined, Books, Begun, AtMost, SomeRunning, Chosen;
    laps' := laps;
    var renewed;
    ghost var lap;
    if sleep { renewed, lap := cpu.Block(); } else { renewed, lap := cpu.Schedule(); }
    if renewed {
      KeptMore(cpu, laps, lap, laps0, ticks0, late0, tocks, prompt);
      laps' := laps + [lap];
    }
  }

  /** Ticks, calls of schedule, tasks that sleep and wake, in any order: every lap from one recalculation to the next is
      fair, but for the one that may have begun before the run, and every tick of the run is in one lap. When a choice
      that is asked for is made before the next tick, as `prompt` says, no tick is late. */
  method Run(cpu: Cpu, es: seq<Event>, prompt: bool) returns (ghost laps: seq<Lap>)
    requires cpu.Valid()
    modifies cpu
    ensures cpu.Valid() && Kept(cpu, laps, old(cpu.laps), old(cpu.ticks), old(cpu.late), Tocks(es), prompt)
    ensures Sleep !in es ==> StillRunning(old(cpu.task), cpu.task)
  {
    hide Fair, Cpu.Valid, Joined, Tocks;
    laps := [];
    Nothing(cpu.ticks);
    ghost var laps0, ticks0, late0 := cpu.laps, cpu.ticks, cpu.late;
    for n := 0 to |es|
      invariant cpu.Valid()
      invariant Kept(cpu, laps, laps0, ticks0, late0, Tocks(es[..n]), prompt)
      invariant Sleep !in es ==> StillRunning(old(cpu.task), cpu.task)
    {
      TocksOne(es, n);
      match es[n] {
        case Tock =>
          if prompt && cpu.needResched {
            laps := Choose(cpu, false, laps, laps0, ticks0, late0, Tocks(es[..n]), prompt);
          }
          ghost var all := Joined(laps) + cpu.ticks;
          cpu.Tick();
          assert Joined(laps) + cpu.ticks == all + [cpu.current];
        case Resched => laps := Choose(cpu, false, laps, laps0, ticks0, late0, Tocks(es[..n]), prompt);
        case Sleep => laps := Choose(cpu, true, laps, laps0, ticks0, late0, Tocks(es[..n]), prompt);
        case WakeUp(i) => if i < |cpu.task| { cpu.Wake(i); }
      }
    }
    assert es[..|es|] == es;
  }

  lemma Nothing(ticks: seq<int>)
    ensures Joined([]) + ticks == ticks && Tocks([]) == 0
  {
  }
}

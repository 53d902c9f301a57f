/** kernel/sched.c: which task runs next, and how long a runnable task can wait for that. */
module Scheduler {
  import opened Basics
  import opened Wrappers

  datatype State = Running | Interruptible | Uninterruptible | Zombie | Stopped

  const SIGALRM: int := 14
  const UNBLOCKABLE: set<int> := {9, 19}

  // The fields of a task that scheduling uses; alarm is 0 for none.
  datatype Task = Task(state: State, counter: int, priority: int, alarm: int, signal: set<int>, blocked: set<int>)

  type Tasks = seq<Option<Task>>

  // ---------------------------------------------------------------- what schedule does

  predicate Good(ts: Tasks) {
    && |ts| > 0 && ts[0].Some?
    && forall q :: 0 <= q < |ts| && ts[q].Some? ==> 0 <= ts[q].value.counter && 1 <= ts[q].value.priority
  }

  // The first loop of schedule, for one task.
  function Signalled(t: Task, jiffies: int): Task {
    var u := if t.alarm != 0 && t.alarm < jiffies then t.(signal := t.signal + {SIGALRM}, alarm := 0) else t;
    if u.signal - (u.blocked - UNBLOCKABLE) != {} && u.state == Interruptible then u.(state := Running) else u
  }

  // Counters at the start of a new round.
  function Charged(t: Task): Task { t.(counter := t.counter / 2 + t.priority) }

  predicate Runnable(ts: Tasks, q: int) {
    0 < q < |ts| && ts[q].Some? && ts[q].value.state == Running
  }

  // The part of the scan over the slots below i; c and next are what it has found so far.
  function Scan(ts: Tasks, i: int, c: int, next: int): (r: (int, int))
    requires 0 < i <= |ts|
    decreases i
  {
    if i == 1 then (c, next)
    else if ts[i - 1].Some? && ts[i - 1].value.state == Running && ts[i - 1].value.counter > c then
      Scan(ts, i - 1, ts[i - 1].value.counter, i - 1)
    else Scan(ts, i - 1, c, next)
  }

  function AllSignalled(ts: Tasks, jiffies: int): (r: Tasks)
    requires |ts| > 0
    ensures |r| == |ts|
  {
    seq(|ts|, q requires 0 <= q < |ts| => if q > 0 && ts[q].Some? then Some(Signalled(ts[q].value, jiffies)) else ts[q])
  }

  function AllCharged(ts: Tasks): (r: Tasks)
    requires |ts| > 0
    ensures |r| == |ts|
  {
    seq(|ts|, q requires 0 <= q < |ts| => if q > 0 && ts[q].Some? then Some(Charged(ts[q].value)) else ts[q])
  }

  // Every runnable task has used up its time, and there is one.
  ghost predicate RoundOver(ts: Tasks) {
    (exists q :: Runnable(ts, q)) && forall q :: Runnable(ts, q) ==> ts[q].value.counter == 0
  }

  // schedule: what it makes of the tasks, and the one it switches to.
  ghost function Schedule(ts: Tasks, jiffies: int): (r: (Tasks, int))
    requires Good(ts)
  {
    var us := AllSignalled(ts, jiffies);
    var vs := if RoundOver(us) then AllCharged(us) else us;
    (vs, Scan(vs, |vs|, -1, 0).1)
  }

  // ---------------------------------------------------------------- what it picks

  // next is the last of the slots with the greatest counter of all runnable tasks; 0 if none is runnable.
  ghost predicate Chosen(ts: Tasks, next: int) {
    if next == 0 then forall q :: !Runnable(ts, q)
    else
      && Runnable(ts, next)
      && forall q :: Runnable(ts, q) ==>
           ts[q].value.counter < ts[next].value.counter || (ts[q].value.counter == ts[next].value.counter && q <= next)
  }

  lemma {:induction false} LemmaScan(ts: Tasks, i: int, c: int, next: int)
    requires Good(ts) && 0 < i <= |ts|
    requires if next == 0 then c == -1 && forall q :: Runnable(ts, q) ==> q < i
      else Runnable(ts, next) && i <= next && c == ts[next].value.counter
    requires next != 0 ==> forall q :: Runnable(ts, q) && i <= q ==>
      ts[q].value.counter < c || (ts[q].value.counter == c && q <= next)
    ensures var (c', next') := Scan(ts, i, c, next);
      Chosen(ts, next') && c' == if next' == 0 then -1 else ts[next'].value.counter
    decreases i
  {
    if i > 1 {
      if ts[i - 1].Some? && ts[i - 1].value.state == Running && ts[i - 1].value.counter > c {
        LemmaScan(ts, i - 1, ts[i - 1].value.counter, i - 1);
      } else {
        LemmaScan(ts, i - 1, c, next);
      }
    }
  }

  lemma LemmaChoice(ts: Tasks)
    requires Good(ts)
    ensures var (c, next) := Scan(ts, |ts|, -1, 0);
      Chosen(ts, next) && c == (if next == 0 then -1 else ts[next].value.counter) && (c == 0 <==> RoundOver(ts))
  {
    LemmaScan(ts, |ts|, -1, 0);
  }

  /** schedule picks a runnable task with the greatest counter, or task 0 if none is runnable; counters
      are recharged only when no runnable task has any time left, and then once: the task it picks has. */
  lemma LemmaSchedule(ts: Tasks, jiffies: int)
    requires Good(ts)
    ensures var us := AllSignalled(ts, jiffies);
      var (vs, next) := Schedule(ts, jiffies);
      && Good(vs) && Chosen(vs, next) && (vs == us || (RoundOver(us) && vs == AllCharged(us)))
      && (next != 0 ==> vs[next].value.counter > 0)
  {
    var us := AllSignalled(ts, jiffies);
    LemmaChoice(us);
    var vs := AllCharged(us);
    LemmaChoice(vs);
    assert forall q :: Runnable(vs, q) <==> Runnable(us, q);
  }

  // A signal that is not blocked, or cannot be.
  predicate Pending(signal: set<int>, blocked: set<int>) {
    exists g :: g in signal && (g !in blocked || g == 9 || g == 19)
  }

  /** What schedule does to every task but the first: an alarm that is past becomes its signal, an
      interruptible sleeper with a signal for it wakes up, and when all time is used up, half of what is
      left is kept and the priority added. */
  lemma LemmaTask(ts: Tasks, jiffies: int, q: int)
    requires Good(ts) && 0 < q < |ts| && ts[q].Some?
    ensures var vs := Schedule(ts, jiffies).0;
      && |vs| == |ts| && vs[q].Some?
      && var t, v := ts[q].value, vs[q].value;
      var rings := t.alarm != 0 && t.alarm < jiffies;
      && v.blocked == t.blocked && v.priority == t.priority && v.alarm == (if rings then 0 else t.alarm)
      && (forall g :: g in v.signal <==> g in t.signal || (rings && g == 14))
      && v.state == (if t.state == Interruptible && Pending(v.signal, t.blocked) then Running else t.state)
      && (if (exists p :: Runnable(vs, p)) && (forall p :: Runnable(vs, p) ==> ts[p].value.counter == 0)
          then 0 <= t.counter - 2 * (v.counter - t.priority) <= 1 else v.counter == t.counter)
  {
    var us, vs := AllSignalled(ts, jiffies), Schedule(ts, jiffies).0;
    assert forall p :: Runnable(vs, p) <==> Runnable(us, p);
    assert forall p :: Runnable(us, p) ==> us[p].value.counter == ts[p].value.counter;
    LemmaPending(us[q].value.signal, us[q].value.blocked);
  }

  lemma LemmaPending(signal: set<int>, blocked: set<int>)
    ensures Pending(signal, blocked) <==> signal - (blocked - UNBLOCKABLE) != {}
  {
    var free := signal - (blocked - UNBLOCKABLE);
    assert forall g :: g in free <==> g in signal && (g !in blocked || g == 9 || g == 19);
    if Pending(signal, blocked) {
      assert free != {};
    } else {
      forall g | g in signal
        ensures g in blocked && g !in UNBLOCKABLE
      {
      }
      assert signal * (blocked - UNBLOCKABLE) == signal;
    }
  }

  // ---------------------------------------------------------------- how long a runnable task waits

  datatype Machine = Machine(tasks: Tasks, current: int, jiffies: int)

  /** What can happen: a clock tick in user mode (cpl > 0) or in the kernel; a call of schedule; a task
      that is not p changing without gaining time (going to sleep, waking up, exiting, being released);
      a fork. */
  datatype Event = Tick(user: bool) | Call | Change(q: int, t: Option<Task>) | Fork(slot: int, child: Task)

  ghost predicate Inv(s: Machine) {
    Good(s.tasks) && 0 <= s.current < |s.tasks| && s.tasks[s.current].Some?
  }

  ghost function Rescheduled(s: Machine): Machine
    requires Good(s.tasks)
  {
    var (ts, next) := Schedule(s.tasks, s.jiffies);
    s.(tasks := ts, current := next)
  }

  // do_timer, the part about the counter.
  ghost function Timer(s: Machine, user: bool): (r: Machine)
    requires Inv(s)
  {
    var t := s.tasks[s.current].value;
    if t.counter - 1 > 0 then s.(tasks := s.tasks[s.current := Some(t.(counter := t.counter - 1))])
    else
      var u := s.(tasks := s.tasks[s.current := Some(t.(counter := 0))]);
      if user then Rescheduled(u) else u
  }

  /** A tick takes one from the counter of the current task, not below 0, and from no other; in user mode,
      when none is left, the task of the greatest counter takes over. */
  lemma LemmaTimer(s: Machine, user: bool)
    requires Inv(s)
    ensures var r := Timer(s, user);
      var left := Max(s.tasks[s.current].value.counter - 1, 0);
      && (!user || left > 0 ==>
            && r.current == s.current && |r.tasks| == |s.tasks| && r.jiffies == s.jiffies
            && r.tasks[r.current] == Some(s.tasks[s.current].value.(counter := left))
            && forall q :: 0 <= q < |s.tasks| && q != s.current ==> r.tasks[q] == s.tasks[q])
      && (user && left == 0 ==> Good(r.tasks) && Chosen(r.tasks, r.current))
  {
    var u := s.tasks[s.current := Some(s.tasks[s.current].value.(counter := 0))];
    hide AllSignalled, AllCharged;
    LemmaSchedule(u, s.jiffies);
  }

  ghost predicate Next(s: Machine, e: Event, s': Machine)
    requires Inv(s)
  {
    match e
    case Tick(user) => s' == Timer(s.(jiffies := s.jiffies + 1), user)
    case Call => s' == Rescheduled(s)
    case Change(q, t) =>
      && 0 <= q < |s.tasks| && (q == 0 || q == s.current ==> t.Some?) && s.tasks[q].Some?
      && (t.Some? ==> 0 <= t.value.counter <= s.tasks[q].value.counter && t.value.priority == s.tasks[q].value.priority)
      && s' == s.(tasks := s.tasks[q := t])
    case Fork(slot, child) =>
      && 0 < slot < |s.tasks| && s.tasks[slot].None? && child.counter == child.priority >= 1
      && s' == s.(tasks := s.tasks[slot := Some(child)])
  }

  // What a task can still take before p: its time, and after the next recharge (if z) more of it.
  function Weight(t: Option<Task>, z: bool): int {
    if t.None? then 0 else t.value.counter + if z then 2 * t.value.priority else 0
  }

  // All of that for the tasks below slot n, except p.
  function Load(ts: Tasks, p: int, z: bool, n: int): int
    requires 0 <= n <= |ts|
  {
    if n == 0 then 0 else Load(ts, p, z, n - 1) + if n - 1 == p then 0 else Weight(ts[n - 1], z)
  }

  // The most user-mode ticks that can pass before p runs.
  function Wait(s: Machine, p: int): int
    requires 0 <= p < |s.tasks| && s.tasks[p].Some? && 0 <= s.current < |s.tasks| && s.tasks[s.current].Some?
  {
    var z := s.tasks[p].value.counter == 0;
    Load(s.tasks, p, z, |s.tasks|) + (if z then 1 else 0) + if s.tasks[s.current].value.counter == 0 then 1 else 0
  }

  lemma {:induction false} LemmaLoadOne(ts: Tasks, us: Tasks, p: int, z: bool, q: int, n: int)
    requires 0 <= n <= |ts| == |us| && 0 <= q < |ts| && forall i :: 0 <= i < |ts| && i != q ==> us[i] == ts[i]
    ensures Load(us, p, z, n) == Load(ts, p, z, n) + if q < n && q != p then Weight(us[q], z) - Weight(ts[q], z) else 0
    decreases n
  {
    if n > 0 {
      LemmaLoadOne(ts, us, p, z, q, n - 1);
    }
  }

  lemma {:induction false} LemmaLoadLess(ts: Tasks, us: Tasks, p: int, z: bool, z': bool, n: int)
    requires 0 <= n <= |ts| == |us| && forall i :: 0 <= i < |ts| && i != p ==> Weight(us[i], z') <= Weight(ts[i], z)
    ensures Load(us, p, z', n) <= Load(ts, p, z, n)
    decreases n
  {
    if n > 0 {
      LemmaLoadLess(ts, us, p, z, z', n - 1);
    }
  }

  lemma {:induction false} LemmaLoadPositive(ts: Tasks, p: int, z: bool, n: int)
    requires Good(ts) && 0 <= n <= |ts|
    ensures 0 <= Load(ts, p, z, n)
    decreases n
  {
    if n > 0 {
      LemmaLoadPositive(ts, p, z, n - 1);
    }
  }

  // schedule does not make p wait longer, and leaves whatever it picks with time to run.
  lemma LemmaRescheduled(s: Machine, p: int)
    requires Inv(s) && Runnable(s.tasks, p)
    ensures var s' := Rescheduled(s);
      && Inv(s') && s'.current != 0 && Runnable(s'.tasks, p) && s'.tasks[s'.current].value.counter > 0
      && |s'.tasks| == |s.tasks|
      && Wait(s', p) <= Wait(s, p) - if s.tasks[s.current].value.counter == 0 then 1 else 0
  {
    LemmaSchedule(s.tasks, s.jiffies);
    LemmaPicked(s, p);
    LemmaLighter(s, p);
    var s' := Rescheduled(s);
    var z, z' := s.tasks[p].value.counter == 0, s'.tasks[p].value.counter == 0;
    LemmaLoadLess(s.tasks, s'.tasks, p, z, z', |s.tasks|);
    LemmaZeroAgain(s, p);
  }

  lemma LemmaPicked(s: Machine, p: int)
    requires Inv(s) && Runnable(s.tasks, p)
    ensures var s' := Rescheduled(s);
      && |s'.tasks| == |s.tasks| && Runnable(s'.tasks, p) && s'.current != 0 && Inv(s')
      && s'.tasks[s'.current].value.counter > 0
  {
    LemmaSchedule(s.tasks, s.jiffies);
    assert Runnable(AllSignalled(s.tasks, s.jiffies), p);
    assert Runnable(Rescheduled(s).tasks, p);
  }

  // If schedule recharges, p had no time left; so nobody weighs more after it than before it.
  lemma LemmaLighter(s: Machine, p: int)
    requires Inv(s) && Runnable(s.tasks, p)
    ensures var s' := Rescheduled(s);
      && |s'.tasks| == |s.tasks| && s'.tasks[p].Some?
      && forall i :: 0 <= i < |s.tasks| ==>
           Weight(s'.tasks[i], s'.tasks[p].value.counter == 0) <= Weight(s.tasks[i], s.tasks[p].value.counter == 0)
  {
    LemmaSchedule(s.tasks, s.jiffies);
    assert Runnable(AllSignalled(s.tasks, s.jiffies), p);
  }

  lemma LemmaZeroAgain(s: Machine, p: int)
    requires Inv(s) && Runnable(s.tasks, p)
    ensures var s' := Rescheduled(s);
      p < |s'.tasks| && s'.tasks[p].Some? && (s'.tasks[p].value.counter == 0 ==> s.tasks[p].value.counter == 0)
  {
    LemmaSchedule(s.tasks, s.jiffies);
    assert Runnable(AllSignalled(s.tasks, s.jiffies), p);
  }

  ghost predicate Waits(s: Machine, p: int) {
    Inv(s) && Runnable(s.tasks, p) && p != s.current
  }

  // What a fork can add to the wait.
  function Cost(e: Event): int {
    match e
    case Fork(_, child) => 3 * child.priority
    case _ => 0
  }

  function Passed(e: Event): int {
    match e
    case Tick(user) => if user then 1 else 0
    case _ => 0
  }

  // A tick in user mode that p has to wait through uses up some of its wait; nothing else adds to it.
  lemma LemmaWait(s: Machine, e: Event, s': Machine, p: int)
    requires Waits(s, p) && Next(s, e, s') && Waits(s', p) && (e.Change? ==> e.q != p)
    ensures Wait(s', p) + Passed(e) <= Wait(s, p) + Cost(e)
  {
    var z := s.tasks[p].value.counter == 0;
    match e
    case Tick(user) => LemmaTick(s, user, p);
    case Call => LemmaRescheduled(s, p);
    case Change(q, t) => LemmaLoadOne(s.tasks, s'.tasks, p, z, q, |s.tasks|);
    case Fork(slot, child) => LemmaLoadOne(s.tasks, s'.tasks, p, z, slot, |s.tasks|);
  }

  lemma LemmaTick(s: Machine, user: bool, p: int)
    requires Waits(s, p)
    ensures var s' := Timer(s.(jiffies := s.jiffies + 1), user);
      && Inv(s') && |s'.tasks| == |s.tasks| && Runnable(s'.tasks, p)
      && Wait(s', p) + (if user then 1 else 0) <= Wait(s, p)
  {
    var t := s.tasks[s.current].value;
    var z := s.tasks[p].value.counter == 0;
    var left := if t.counter - 1 > 0 then t.counter - 1 else 0;
    var u := Machine(s.tasks[s.current := Some(t.(counter := left))], s.current, s.jiffies + 1);
    LemmaLoadOne(s.tasks, u.tasks, p, z, s.current, |s.tasks|);
    if left == 0 && user {
      LemmaRescheduled(u, p);
    }
  }

  function Sum(es: seq<Event>, f: Event -> int): int {
    if es == [] then 0 else Sum(es[..|es| - 1], f) + f(es[|es| - 1])
  }

  // p waits all through the run.
  ghost predicate Waiting(trace: seq<Machine>, es: seq<Event>, p: int) {
    && |trace| == |es| + 1 && (forall i :: 0 <= i < |trace| ==> Waits(trace[i], p))
    && forall i :: 0 <= i < |es| ==> (es[i].Change? ==> es[i].q != p) && Next(trace[i], es[i], trace[i + 1])
  }

  /** No runnable task starves: while it waits, no more user-mode ticks pass than the wait it started
      with, plus three times the priority of each task that is forked meanwhile. */
  lemma {:induction false} LemmaBoundedWait(trace: seq<Machine>, es: seq<Event>, p: int)
    requires Waiting(trace, es, p)
    ensures Wait(trace[|es|], p) + Sum(es, Passed) <= Wait(trace[0], p) + Sum(es, Cost)
    ensures Sum(es, Passed) <= Wait(trace[0], p) + Sum(es, Cost)
    decreases |es|
  {
    hide Next, Wait, Passed, Cost, Waits;
    LemmaWaitPositive(trace[|es|], p);
    if es != [] {
      var n := |es| - 1;
      LemmaBoundedWait(trace[..n + 1], es[..n], p);
      LemmaWait(trace[n], es[n], trace[n + 1], p);
    }
  }

  lemma LemmaWaitPositive(s: Machine, p: int)
    requires Waits(s, p)
    ensures 0 <= Wait(s, p)
  {
    LemmaLoadPositive(s.tasks, p, s.tasks[p].value.counter == 0, |s.tasks|);
  }

  // ---------------------------------------------------------------- the range of counters

  predicate Bounded(t: Option<Task>) {
    t.Some? ==> 0 <= t.value.counter < 2 * t.value.priority
  }

  /** A counter that starts at the priority stays below twice the priority. */
  lemma LemmaBounded(s: Machine, e: Event, s': Machine)
    requires Inv(s) && Next(s, e, s') && forall q :: 0 <= q < |s.tasks| ==> Bounded(s.tasks[q])
    ensures |s'.tasks| == |s.tasks| && forall q :: 0 <= q < |s'.tasks| ==> Bounded(s'.tasks[q])
  {
  }

  // ---------------------------------------------------------------- the code

  class RunQueue {
    const task: array<Option<Task>>
    var current: int
    var jiffies: int

    ghost function View(): Machine
      reads this, task
    {
      Machine(task[..], current, jiffies)
    }

    ghost predicate Valid()
      reads this, task
    {
      Inv(View())
    }

    constructor (table: array<Option<Task>>)
      requires Good(table[..])
      ensures task == table && Valid() && current == 0 && jiffies == 0
    {
      task, current, jiffies := table, 0, 0;
    }

    // The first loop of schedule.
    method CheckSignals()
      requires task.Length > 0
      modifies task
      ensures task[..] == AllSignalled(old(task[..]), jiffies)
    {
      ghost var ts := task[..];
      ghost var us := AllSignalled(ts, jiffies);
      hide Signalled;
      var p := task.Length - 1;
      while p > 0
        invariant 0 <= p < task.Length
        invariant forall q :: 0 <= q < task.Length ==> task[q] == if q <= p then ts[q] else us[q]
      {
        if task[p].Some? {
          var t := Signal(task[p].value);
          task[p] := Some(t);
        }
        p := p - 1;
      }
    }

    method Signal(t: Task) returns (u: Task)
      ensures u == Signalled(t, jiffies)
    {
      u := t;
      if u.alarm != 0 && u.alarm < jiffies {
        u := u.(signal := u.signal + {SIGALRM}, alarm := 0);
      }
      if u.signal - (u.blocked - UNBLOCKABLE) != {} && u.state == Interruptible {
        u := u.(state := Running);
      }
    }

    // One pass of the scheduler proper: the greatest counter, or -1, and its slot.
    method Pick() returns (c: int, next: int)
      requires Good(task[..])
      ensures (c, next) == Scan(task[..], task.Length, -1, 0)
    {
      c, next := -1, 0;
      var i := task.Length - 1;
      while i > 0
        invariant 0 <= i < task.Length && Scan(task[..], i + 1, c, next) == Scan(task[..], task.Length, -1, 0)
      {
        if task[i].Some? && task[i].value.state == Running && task[i].value.counter > c {
          c, next := task[i].value.counter, i;
        }
        i := i - 1;
      }
    }

    method Recharge()
      requires Good(task[..])
      modifies task
      ensures task[..] == AllCharged(old(task[..]))
    {
      ghost var ts := task[..];
      ghost var us := AllCharged(ts);
      var p := task.Length - 1;
      while p > 0
        invariant 0 <= p < task.Length
        invariant forall q :: 0 <= q < task.Length ==> task[q] == if q <= p then ts[q] else us[q]
      {
        if task[p].Some? {
          var t := task[p].value;
          task[p] := Some(t.(counter := t.counter / 2 + t.priority));
        }
        p := p - 1;
      }
    }

    // schedule; its loop ends in the second pass at the latest.
    method Schedule()
      requires Valid()
      modifies this`current, task
      ensures Valid() && View() == Rescheduled(old(View()))
    {
      hide AllSignalled, AllCharged, Scan;
      ghost var ts := task[..];
      LemmaSignalled(ts, jiffies);
      CheckSignals();
      ghost var us := task[..];
      LemmaSchedule(ts, jiffies);
      ghost var passes := 0;
      var c, next := 0, 0;
      while true
        invariant task.Length > 0 && passes <= 1 && Good(task[..])
        invariant if passes == 0 then task[..] == us else RoundOver(us) && task[..] == AllCharged(us)
        decreases 2 - passes
      {
        c, next := Pick();
        LemmaChoice(task[..]);
        if c != 0 {
          break;
        }
        LemmaSecondPass(us);
        Recharge();
        passes := passes + 1;
      }
      current := next;
    }

    // do_timer, the part about the counter.
    method DoTimer(cpl: int)
      requires Valid()
      modifies this`current, task
      ensures Valid() && View() == Timer(old(View()), cpl != 0)
    {
      hide Rescheduled;
      ghost var s := View();
      var t := task[current].value;
      task[current] := Some(t.(counter := t.counter - 1));
      assert task[..] == s.tasks[current := Some(t.(counter := t.counter - 1))];
      if t.counter - 1 > 0 {
        return;
      }
      task[current] := Some(t.(counter := 0));
      assert task[..] == s.tasks[current := Some(t.(counter := 0))];
      if cpl == 0 {
        return;
      }
      Schedule();
    }
  }

  lemma LemmaSignalled(ts: Tasks, jiffies: int)
    requires Good(ts)
    ensures Good(AllSignalled(ts, jiffies))
  {
  }

  // After a recharge, no pass finds only empty counters.
  lemma LemmaSecondPass(us: Tasks)
    requires Good(us)
    ensures Good(AllCharged(us)) && !RoundOver(AllCharged(us))
  {
    var vs := AllCharged(us);
    assert forall q :: Runnable(vs, q) ==> vs[q].value.counter > 0;
  }
}

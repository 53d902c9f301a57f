/** sleep_on and wake_up of kernel/sched.c: a wait queue is a head pointer and the chain of the
    sleepers' saved tmp variables.  No wake-up is lost in any interleaving. */
module SleepQueue {
  import opened Wrappers

  type Task = nat   // 0 is the idle task, which never sleeps
  type Queue = int

  // A task inside sleep_on, past the call of schedule: its argument and its local tmp.
  datatype Wait = Wait(queue: Queue, tmp: Option<Task>)

  datatype Sched = Sched(heads: map<Queue, Task>, running: set<Task>, waits: map<Task, Wait>)

  datatype Event =
    | Sleep(t: Task, q: Queue)   // sleep_on up to schedule()
    | Resume(t: Task)            // the rest of sleep_on, once t is chosen again
    | Wake(q: Queue)             // wake_up, from a task or an interrupt
    | Other                      // anything that touches neither queues nor states

  function Head(s: Sched, q: Queue): Option<Task> {
    if q in s.heads then Some(s.heads[q]) else None
  }

  predicate Blocked(s: Sched, t: Task) { t in s.waits && t !in s.running }

  predicate Woken(s: Sched, t: Task) { t in s.waits && t in s.running }

  predicate Enabled(s: Sched, e: Event) {
    match e
    case Sleep(t, _) => t != 0 && t in s.running && t !in s.waits
    case Resume(t) => Woken(s, t)
    case Wake(_) => true
    case Other => true
  }

  function Next(s: Sched, e: Event): Sched
    requires Enabled(s, e)
  {
    match e
    case Sleep(t, q) => Sched(s.heads[q := t], s.running - {t}, s.waits[t := Wait(q, Head(s, q))])
    case Resume(t) =>
      var tmp := s.waits[t].tmp;
      s.(running := if tmp.Some? then s.running + {tmp.value} else s.running, waits := s.waits - {t})
    case Wake(q) =>
      if q in s.heads then s.(running := s.running + {s.heads[q]}, heads := s.heads - {q}) else s
    case Other => s
  }

  // ---------------------------------------------------------------- the invariant

  predicate Link(s: Sched, t: Task, u: Task) { t in s.waits && s.waits[t].tmp == Some(u) }

  predicate HeadOf(s: Sched, q: Queue, u: Task) { q in s.heads && s.heads[q] == u }

  // When each waiting task fell asleep, counted in calls of sleep_on.
  datatype Ages = Ages(at: map<Task, nat>, now: nat)

  ghost function Older(a: Ages, e: Event): Ages {
    match e
    case Sleep(t, _) => Ages(a.at[t := a.now], a.now + 1)
    case Resume(t) => a.(at := a.at - {t})
    case _ => a
  }

  ghost predicate Inv(s: Sched, a: Ages) {
    && a.at.Keys == s.waits.Keys
    && (forall t :: t in a.at ==> a.at[t] < a.now)
    && (forall q, u :: HeadOf(s, q, u) ==> Blocked(s, u) && s.waits[u].queue == q)
    && (forall t, u :: Link(s, t, u) ==> Blocked(s, u) && a.at[u] < a.at[t] && s.waits[u].queue == s.waits[t].queue)
    // nobody is referred to twice
    && (forall q, t, u :: HeadOf(s, q, u) ==> !Link(s, t, u))
    && (forall t, t', u :: Link(s, t, u) && Link(s, t', u) ==> t == t')
    // nobody blocked is forgotten
    && (forall u :: Blocked(s, u) ==> HeadOf(s, s.waits[u].queue, u) || exists t :: Link(s, t, u))
  }

  lemma LemmaInit(running: set<Task>)
    ensures Inv(Sched(map[], running, map[]), Ages(map[], 0))
  {
  }

  lemma LemmaSleep(s: Sched, a: Ages, t: Task, q: Queue)
    requires Inv(s, a) && Enabled(s, Sleep(t, q))
    ensures Inv(Next(s, Sleep(t, q)), Older(a, Sleep(t, q)))
  {
    var s' := Next(s, Sleep(t, q));
    assert forall x, u :: x != t ==> (Link(s', x, u) <==> Link(s, x, u));
    assert forall u :: Link(s', t, u) <==> HeadOf(s, q, u);
    assert forall x, u :: HeadOf(s', x, u) <==> if x == q then u == t else HeadOf(s, x, u);
    assert forall u :: Blocked(s', u) <==> Blocked(s, u) || u == t;
    assert forall u :: u != t && u in s.waits ==> s'.waits[u] == s.waits[u];
    forall u | Blocked(s', u)
      ensures HeadOf(s', s'.waits[u].queue, u) || exists x :: Link(s', x, u)
    {
      if u != t {
        if HeadOf(s, q, u) {
          assert Link(s', t, u);
        } else if !HeadOf(s, s.waits[u].queue, u) {
          var x :| Link(s, x, u);
          assert Link(s', x, u);
        }
      }
    }
  }

  lemma LemmaResume(s: Sched, a: Ages, t: Task)
    requires Inv(s, a) && Enabled(s, Resume(t))
    ensures Inv(Next(s, Resume(t)), Older(a, Resume(t)))
  {
    var s' := Next(s, Resume(t));
    assert forall x, u :: Link(s', x, u) <==> x != t && Link(s, x, u);
    assert forall x, u :: HeadOf(s', x, u) <==> HeadOf(s, x, u);
    assert forall u :: Blocked(s', u) <==> Blocked(s, u) && !Link(s, t, u);
    assert forall u :: u in s'.waits ==> u != t && s'.waits[u] == s.waits[u];
    forall u | Blocked(s', u)
      ensures HeadOf(s', s'.waits[u].queue, u) || exists x :: Link(s', x, u)
    {
      if !HeadOf(s, s.waits[u].queue, u) {
        var x :| Link(s, x, u);
        assert Link(s', x, u);
      }
    }
  }

  lemma LemmaWake(s: Sched, a: Ages, q: Queue)
    requires Inv(s, a)
    ensures Inv(Next(s, Wake(q)), Older(a, Wake(q)))
  {
    var s' := Next(s, Wake(q));
    assert forall x, u :: Link(s', x, u) <==> Link(s, x, u);
    assert forall x, u :: HeadOf(s', x, u) <==> x != q && HeadOf(s, x, u);
    assert forall u :: Blocked(s', u) <==> Blocked(s, u) && !HeadOf(s, q, u);
    forall u | Blocked(s', u)
      ensures HeadOf(s', s'.waits[u].queue, u) || exists x :: Link(s', x, u)
    {
      if !HeadOf(s, s.waits[u].queue, u) {
        var x :| Link(s, x, u);
        assert Link(s', x, u);
      }
    }
  }

  // Every step of every task and interrupt keeps the invariant.
  lemma LemmaStep(s: Sched, a: Ages, e: Event)
    requires Inv(s, a) && Enabled(s, e)
    ensures Inv(Next(s, e), Older(a, e))
  {
    hide Inv;
    match e {
      case Sleep(t, q) => LemmaSleep(s, a, t, q);
      case Resume(t) => LemmaResume(s, a, t);
      case Wake(q) => LemmaWake(s, a, q);
      case Other =>
    }
  }

  // ---------------------------------------------------------------- chains

  // p starts at a head or at a woken task and follows the saved tmp variables.
  ghost predicate Root(s: Sched, t: Task) { (exists q :: HeadOf(s, q, t)) || Woken(s, t) }

  ghost predicate Path(s: Sched, p: seq<Task>) {
    p != [] && Root(s, p[0]) && forall i :: 0 <= i < |p| - 1 ==> Link(s, p[i], p[i + 1])
  }

  /** Every blocked task can be reached from the head of its own queue, or from an already woken
      task that has yet to resume. */
  lemma {:induction false} LemmaReachable(s: Sched, a: Ages, u: Task) returns (p: seq<Task>)
    requires Inv(s, a) && Blocked(s, u)
    ensures Path(s, p) && p[|p| - 1] == u
    ensures p[0] in s.waits && s.waits[p[0]].queue == s.waits[u].queue
    ensures HeadOf(s, s.waits[u].queue, p[0]) || Woken(s, p[0])
    decreases a.now - a.at[u]
  {
    if HeadOf(s, s.waits[u].queue, u) {
      p := [u];
    } else {
      var t :| Link(s, t, u);
      if t in s.running {
        p := [t, u];
      } else {
        var p' := LemmaReachable(s, a, t);
        p := p' + [u];
        forall i | 0 <= i < |p| - 1
          ensures Link(s, p[i], p[i + 1])
        {
          if i < |p'| - 1 {
            assert p[i + 1] == p'[i + 1];
          }
        }
      }
    }
  }

  // Along a path the sleepers get older and only the first may be awake.
  lemma {:induction false} LemmaPathOlder(s: Sched, a: Ages, p: seq<Task>, i: nat, j: nat)
    requires Inv(s, a) && Path(s, p) && i < j < |p|
    ensures p[i] in a.at && p[j] in a.at && a.at[p[j]] < a.at[p[i]] && Blocked(s, p[j])
  {
    assert Link(s, p[j - 1], p[j]);
    if i < j - 1 {
      LemmaPathOlder(s, a, p, i, j - 1);
    }
  }

  lemma LemmaNotARoot(s: Sched, a: Ages, p: seq<Task>, i: nat)
    requires Inv(s, a) && Path(s, p) && 0 < i < |p|
    ensures Link(s, p[i - 1], p[i]) && !Root(s, p[i])
  {
  }

  /** The links form disjoint acyclic chains: no path repeats a task (LemmaPathOlder), and two
      paths that meet have the same root and agree up to where they meet. */
  lemma {:induction false} LemmaChainsDisjoint(s: Sched, a: Ages, p: seq<Task>, q: seq<Task>, i: nat, j: nat)
    requires Inv(s, a) && Path(s, p) && Path(s, q) && i < |p| && j < |q| && p[i] == q[j]
    ensures i == j && p[..i + 1] == q[..j + 1]
    decreases i
  {
    if i > 0 {
      LemmaNotARoot(s, a, p, i);
    }
    if j > 0 {
      LemmaNotARoot(s, a, q, j);
    }
    if i > 0 {
      LemmaChainsDisjoint(s, a, p, q, i - 1, j - 1);
      assert p[..i + 1] == p[..i] + [p[i]] && q[..j + 1] == q[..j] + [q[j]];
    }
  }

  // ---------------------------------------------------------------- infinite runs

  type States = nat -> Sched
  type Events = nat -> Event

  ghost predicate StepAt(st: States, ev: Events, n: nat) {
    Enabled(st(n), ev(n)) && st(n + 1) == Next(st(n), ev(n))
  }

  ghost predicate ResumedAt(ev: Events, t: Task, m: nat) { ev(m) == Resume(t) }

  // schedule() does not starve a runnable task: who is woken resumes some time.
  ghost predicate Fair(st: States, ev: Events) {
    forall n: nat, t: Task :: Woken(st(n), t) ==> exists m: nat :: n <= m && ResumedAt(ev, t, m)
  }

  ghost predicate Behaviour(st: States, ev: Events, a: Ages) {
    Inv(st(0), a) && (forall n: nat :: StepAt(st, ev, n)) && Fair(st, ev)
  }

  ghost function AgesAt(ev: Events, a: Ages, n: nat): Ages {
    if n == 0 then a else Older(AgesAt(ev, a, n - 1), ev(n - 1))
  }

  lemma {:induction false} LemmaInvAt(st: States, ev: Events, a: Ages, n: nat)
    requires Behaviour(st, ev, a)
    ensures Inv(st(n), AgesAt(ev, a, n))
  {
    if n > 0 {
      LemmaInvAt(st, ev, a, n - 1);
      assert StepAt(st, ev, n - 1);
      LemmaStep(st(n - 1), AgesAt(ev, a, n - 1), ev(n - 1));
    }
  }

  // The first time from n on at which t resumes.
  lemma {:induction false} LemmaFirstResume(ev: Events, t: Task, n: nat, m: nat) returns (k: nat)
    requires n <= m && ResumedAt(ev, t, m)
    ensures n <= k <= m && ResumedAt(ev, t, k) && forall j: nat :: n <= j < k ==> !ResumedAt(ev, t, j)
    decreases m - n
  {
    if ResumedAt(ev, t, n) {
      k := n;
    } else {
      k := LemmaFirstResume(ev, t, n + 1, m);
    }
  }

  // t waits in the same call of sleep_on throughout [n, m].
  ghost predicate Waits(st: States, t: Task, w: Wait, n: nat, m: nat) {
    forall k: nat :: n <= k <= m ==> t in st(k).waits && st(k).waits[t] == w
  }

  // Until it resumes, a woken task stays woken and keeps its tmp.
  lemma {:induction false} LemmaStaysWoken(st: States, ev: Events, a: Ages, t: Task, n: nat, m: nat)
    requires Behaviour(st, ev, a) && n <= m && Woken(st(n), t)
    requires forall j: nat :: n <= j < m ==> !ResumedAt(ev, t, j)
    ensures Waits(st, t, st(n).waits[t], n, m) && t in st(m).running
    decreases m - n
  {
    if n < m {
      LemmaStaysWoken(st, ev, a, t, n, m - 1);
      assert StepAt(st, ev, m - 1);
      assert !ResumedAt(ev, t, m - 1);
      forall k: nat | n <= k <= m
        ensures t in st(k).waits && st(k).waits[t] == st(n).waits[t]
      {
      }
    }
  }

  // While its predecessor waits, a task waits.
  lemma {:induction false} LemmaStaysBlocked(st: States, ev: Events, a: Ages, t: Task, w: Wait, u: Task, n: nat, m: nat)
    requires Behaviour(st, ev, a) && n <= m && Waits(st, t, w, n, m) && w.tmp == Some(u)
    ensures u in st(n).waits && Waits(st, u, st(n).waits[u], n, m) && Blocked(st(m), u)
    decreases m - n
  {
    hide Inv, Next, Fair;
    LemmaInvAt(st, ev, a, m);
    LemmaLinkBlocked(st(m), AgesAt(ev, a, m), t, u);
    if n < m {
      LemmaStaysBlocked(st, ev, a, t, w, u, n, m - 1);
      assert StepAt(st, ev, m - 1);
      LemmaBlockedWaits(st(m - 1), ev(m - 1), u);
    }
  }

  lemma LemmaLinkBlocked(s: Sched, a: Ages, t: Task, u: Task)
    requires Inv(s, a) && t in s.waits && s.waits[t].tmp == Some(u)
    ensures Blocked(s, u)
  {
    assert Link(s, t, u);
  }

  lemma LemmaBlockedWaits(s: Sched, e: Event, u: Task)
    requires Blocked(s, u) && Enabled(s, e)
    ensures u in Next(s, e).waits && Next(s, e).waits[u] == s.waits[u]
  {
  }

  /** Along a path whose root is awake, every task is woken in time, still in the same call. */
  lemma {:induction false} LemmaChainWakes(st: States, ev: Events, a: Ages, p: seq<Task>, i: nat, n: nat) returns (m: nat)
    requires Behaviour(st, ev, a) && Path(st(n), p) && Woken(st(n), p[0]) && i < |p|
    ensures n <= m && p[i] in st(n).waits && Waits(st, p[i], st(n).waits[p[i]], n, m) && Woken(st(m), p[i])
  {
    if i == 0 {
      m := n;
    } else {
      var t, u := p[i - 1], p[i];
      var k := LemmaChainWakes(st, ev, a, p, i - 1, n);
      var w := st(n).waits[t];
      assert Link(st(n), t, u);
      assert st(k).waits[t] == w;
      var r :| k <= r && ResumedAt(ev, t, r);
      r := LemmaFirstResume(ev, t, k, r);
      LemmaStaysWoken(st, ev, a, t, k, r);
      assert Waits(st, t, w, n, r);
      LemmaStaysBlocked(st, ev, a, t, w, u, n, r);
      m := r + 1;
      assert StepAt(st, ev, r);
      forall j: nat | n <= j <= m
        ensures u in st(j).waits && st(j).waits[u] == st(n).waits[u]
      {
      }
    }
  }

  /** Main theorem: in every fair interleaving, one wake_up of a queue eventually makes runnable
      every task then blocked on that queue, in the call of sleep_on it was in. */
  lemma LemmaNoLostWakeUp(st: States, ev: Events, a: Ages, q: Queue, t: Task, n: nat) returns (m: nat)
    requires Behaviour(st, ev, a) && ev(n) == Wake(q)
    requires Blocked(st(n), t) && st(n).waits[t].queue == q
    ensures n < m && Waits(st, t, st(n).waits[t], n, m) && Woken(st(m), t)
  {
    LemmaInvAt(st, ev, a, n);
    var p := LemmaReachable(st(n), AgesAt(ev, a, n), t);
    assert StepAt(st, ev, n);
    var s, s' := st(n), st(n + 1);
    assert Woken(s', p[0]);
    assert Path(s', p) by {
      forall i | 0 <= i < |p| - 1
        ensures Link(s', p[i], p[i + 1])
      {
        assert Link(s, p[i], p[i + 1]);
      }
    }
    m := LemmaChainWakes(st, ev, a, p, |p| - 1, n + 1);
    forall k: nat | n <= k <= m
      ensures t in st(k).waits && st(k).waits[t] == s.waits[t]
    {
    }
  }

  // ---------------------------------------------------------------- the code

  // The task states and queue heads, and the tmp variables on the kernel stacks of the sleepers.
  class WaitQueues {
    var heads: map<Queue, Task>
    var running: set<Task>
    var waits: map<Task, Wait>

    ghost function View(): Sched
      reads this
    {
      Sched(heads, running, waits)
    }

    constructor (tasks: set<Task>)
      ensures View() == Sched(map[], tasks, map[])
    {
      heads, running, waits := map[], tasks, map[];
    }

    // sleep_on(p) by the task current, up to its call of schedule.
    method SleepOn(p: Queue, current: Task) returns (panicked: bool)
      requires current in running && current !in waits
      modifies this
      ensures panicked == (current == 0)
      ensures !panicked ==> Enabled(old(View()), Sleep(current, p)) && View() == Next(old(View()), Sleep(current, p))
    {
      if current == 0 {
        return true;
      }
      var tmp := if p in heads then Some(heads[p]) else None;
      heads := heads[p := current];
      running := running - {current};
      waits := waits[current := Wait(p, tmp)];
      return false;
    }

    // What sleep_on does when schedule has chosen the task again.
    method WokenUp(current: Task)
      requires Woken(View(), current)
      modifies this
      ensures View() == Next(old(View()), Resume(current))
    {
      var tmp := waits[current].tmp;
      if tmp.Some? {
        running := running + {tmp.value};
      }
      waits := waits - {current};
    }

    method WakeUp(p: Queue)
      modifies this
      ensures View() == Next(old(View()), Wake(p))
    {
      if p in heads {
        running := running + {heads[p]};
        heads := heads - {p};
      }
    }
  }
}

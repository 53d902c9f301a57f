/** Copy-on-write refines eager copying: whatever the tasks do, each reads the bytes it would
    read on a machine where fork duplicates every page at once. */
module CopyOnWrite {
  import opened Basics
  import opened Bytes
  import opened Wrappers
  import opened Memory
  import opened PageLedger
  import opened MemoryAccounting
  import opened Processes
  import opened Shortage

  // ---------------------------------------------------------------- the eager machine

  datatype ETask = Nobody | Running(limit: int) | Ended

  datatype Eager = Eager(bytes: map<Place, Page>, tasks: seq<ETask>)

  function Look(bytes: map<Place, Page>, v: Place): Option<Page> {
    if v in bytes then Some(bytes[v]) else None
  }

  // The pages of [d, d + n) duplicated at [e, e + n).
  ghost function Duplicate(bytes: map<Place, Page>, d: int, e: int, n: int): map<Place, Page> {
    bytes + Moved(bytes, d, e, n)
  }

  ghost function Moved(bytes: map<Place, Page>, d: int, e: int, n: int): map<Place, Page> {
    map v | v in bytes && Within(v, d, n) :: (v.0 - d + e, v.1) := bytes[v]
  }

  function Erase(bytes: map<Place, Page>, d: int, n: int): map<Place, Page> {
    bytes - set v | v in bytes && Within(v, d, n)
  }

  function FirstNobody(tasks: seq<ETask>, k: int): (r: int)
    requires 0 <= k <= |tasks|
    ensures k <= r <= |tasks|
    decreases |tasks| - k
  {
    if k == |tasks| || tasks[k].Nobody? then k else FirstNobody(tasks, k + 1)
  }

  datatype Event =
    | Forks(cur: int)
    | Exits(cur: int)
    | Reaps(k: int)
    | Reads(cur: int, d: int, i: int)
    | Writes(cur: int, d: int, i: int, off: int, b: byte)

  function ZeroOr(o: Option<Page>): Page {
    if o.Some? then o.value else ZeroPage()
  }

  // The events that make sense on the eager machine.
  predicate Sensible(e: Eager, ev: Event, r: Result) {
    && |e.tasks| == SLOTS && !r.Skipped? && !r.Panicked?
    && (ev.Reaps? ==> 1 <= ev.k < SLOTS)
    && (!ev.Reaps? ==> 1 <= ev.cur < SLOTS && e.tasks[ev.cur].Running?)
    && (ev.Writes? ==> 0 <= ev.off < |ZeroOr(Look(e.bytes, (Base(ev.cur) + ev.d, ev.i)))|)
  }

  // What the eager machine does; r tells when memory ran out.
  ghost function EagerStep(e: Eager, ev: Event, r: Result): Eager {
    if !Sensible(e, ev, r) then e
    else match ev
      case Forks(cur) =>
        var nr := FirstNobody(e.tasks, 1);
        if r.Again? || nr == SLOTS then e
        else Eager(Duplicate(e.bytes, Base(cur), Base(nr), e.tasks[cur].limit), e.tasks[nr := e.tasks[cur]])
      case Reaps(k) => e.(tasks := e.tasks[k := Nobody])
      case Exits(cur) => EagerExit(e, cur)
      case Reads(cur, d, i) =>
        var v := (Base(cur) + d, i);
        if r.Killed? then EagerExit(e, cur)
        else e.(bytes := e.bytes[v := ZeroOr(Look(e.bytes, v))])
      case Writes(cur, d, i, off, b) =>
        var v := (Base(cur) + d, i);
        if r.Killed? then EagerExit(e, cur)
        else e.(bytes := e.bytes[v := ZeroOr(Look(e.bytes, v))[off := b]])
  }

  ghost function EagerExit(e: Eager, cur: int): Eager
    requires |e.tasks| == SLOTS && 1 <= cur < SLOTS && e.tasks[cur].Running?
  {
    Eager(Erase(e.bytes, Base(cur), e.tasks[cur].limit), e.tasks[cur := Ended])
  }

  // ---------------------------------------------------------------- the kernel

  predicate Enabled(s: Sys, ev: Event)
    requires |s.tasks| == SLOTS
  {
    match ev
    case Reaps(k) => 1 <= k < SLOTS && s.tasks[k].Zombie?
    case Forks(cur) => 1 <= cur < SLOTS && s.tasks[cur].Live?
    case Exits(cur) => 1 <= cur < SLOTS && s.tasks[cur].Live?
    case Reads(cur, d, i) => 1 <= cur < SLOTS && s.tasks[cur].Live? && 0 <= d < s.tasks[cur].data && 0 <= i < PT
    case Writes(cur, d, i, off, b) =>
      1 <= cur < SLOTS && s.tasks[cur].Live? && 0 <= d < s.tasks[cur].data && 0 <= i < PT && 0 <= off < PAGE_SIZE
  }

  ghost predicate WellFormed(s: Sys) {
    && Sound(s.mem) && |s.tasks| == SLOTS
    && forall k :: 1 <= k < SLOTS && s.tasks[k].Live? ==> 0 <= s.tasks[k].code <= s.tasks[k].data <= SLOT_DIRS
  }

  function Step(s: Sys, ev: Event): (Sys, Result)
    requires WellFormed(s)
  {
    if !Enabled(s, ev) then (s, Skipped)
    else match ev
      case Forks(cur) => Fork(s, cur)
      case Exits(cur) => Exit(s, cur)
      case Reaps(k) => Release(s, k)
      case Reads(cur, d, i) => Touch(s, cur, d, i)
      case Writes(cur, d, i, off, b) => Write(s, cur, d, i, off, b)
  }

  // The tables task slot k may have lie below its limit.
  predicate Limits(tasks: seq<Task>, k: int, sp: Space)
    requires 0 <= k < |tasks|
  {
    var n := if tasks[k].Live? then tasks[k].data else 0;
    forall e :: Base(k) + n <= e < Base(k) + SLOT_DIRS ==> e !in sp.tables
  }

  // Every task holds the page of its task_struct.
  ghost predicate HoldsTaskPages(s: Sys, held: Held)
    requires |s.tasks| == SLOTS
  {
    && (forall k :: 1 <= k < SLOTS && !s.tasks[k].NoTask? ==> LOW <= s.tasks[k].frame < s.mem.high && held[s.tasks[k].frame] == 1)
    && (forall j, k :: 1 <= j < k < SLOTS && !s.tasks[j].NoTask? && !s.tasks[k].NoTask? ==> s.tasks[j].frame != s.tasks[k].frame)
  }

  ghost predicate SysInv(s: Sys, sp: Space, held: Held) {
    && WellFormed(s) && Inv(s.mem, sp, held) && HoldsTaskPages(s, held)
    && forall k :: 1 <= k < SLOTS ==> Limits(s.tasks, k, sp)
  }

  predicate SameTask(t: Task, e: ETask) {
    match t
    case NoTask => e.Nobody?
    case Live(_, _, n) => e == Running(n)
    case Zombie(_) => e.Ended?
  }

  // Both machines have the same tasks, and every task reads the same bytes on both.
  ghost predicate Agrees(s: Sys, e: Eager)
    requires Sound(s.mem)
  {
    && |s.tasks| == |e.tasks| == SLOTS
    && (forall k :: 1 <= k < SLOTS ==> SameTask(s.tasks[k], e.tasks[k]))
    && (forall v :: Peek(s.mem, v) == Look(e.bytes, v))
  }

  // ---------------------------------------------------------------- answers and pages held

  // Memory is out for a write to the linear page (d, i).
  predicate Short(m: Mem, d: int, i: int)
    requires Sound(m) && 0 <= d < |m.dir| && 0 <= i < PT
  {
    var e := Entry(m, d, i);
    if e.Absent? then |FreeSet(m)| < Needed(m, d) else !e.rw && FreeSet(m) == {} && !Sole(m, m.dir[d].frame, i)
  }

  /** What the kernel has to answer, told by the free slots, the free pages and the user counts. */
  function Answer(s: Sys, ev: Event): Result
    requires WellFormed(s)
  {
    if !Enabled(s, ev) then Skipped
    else match ev
      case Forks(cur) =>
        if FirstFree(s.tasks, 1) == SLOTS then Again
        else if |FreeSet(s.mem)| < 1 + Tables(s.mem.dir, Base(cur), s.tasks[cur].data) then Again
        else Ok
      case Exits(_) => Ok
      case Reaps(_) => Ok
      case Reads(cur, d, i) => if Entry(s.mem, Base(cur) + d, i).Absent? && Short(s.mem, Base(cur) + d, i) then Killed else Ok
      case Writes(cur, d, i, _, _) => if Short(s.mem, Base(cur) + d, i) then Killed else Ok
  }

  ghost predicate Answered(s: Sys, evs: seq<Event>, rs: seq<Result>)
    requires WellFormed(s) && |rs| == |evs|
    decreases evs
  {
    evs == [] || (rs[0] == Answer(s, evs[0]) && WellFormed(Step(s, evs[0]).0) && Answered(Step(s, evs[0]).0, evs[1..], rs[1..]))
  }

  // How many slots from k on have the page f for their task_struct.
  function Owners(tasks: seq<Task>, f: int, k: int): int
    requires 0 <= k <= |tasks|
    decreases |tasks| - k
  {
    if k == |tasks| then 0
    else (if !tasks[k].NoTask? && tasks[k].frame == f then 1 else 0) + Owners(tasks, f, k + 1)
  }

  // Apart from the pages of the tasks, the same pages are held.
  ghost predicate SameRest(s: Sys, held: Held, t: Sys, held': Held)
    requires |s.tasks| == |t.tasks| == SLOTS
  {
    forall f :: held'[f] - Owners(t.tasks, f, 1) == held[f] - Owners(s.tasks, f, 1)
  }

  ghost predicate SameFrames(s: Sys, t: Sys) {
    && |s.tasks| == |t.tasks|
    && forall k :: 1 <= k < |s.tasks| ==> (s.tasks[k].NoTask? <==> t.tasks[k].NoTask?) && (!s.tasks[k].NoTask? ==> s.tasks[k].frame == t.tasks[k].frame)
  }

  lemma {:induction false} LemmaOwners(tasks: seq<Task>, tasks': seq<Task>, f: int, k: int)
    requires |tasks'| == |tasks| && 0 <= k <= |tasks|
    requires forall j :: k <= j < |tasks| ==>
      ((!tasks[j].NoTask? && tasks[j].frame == f) <==> (!tasks'[j].NoTask? && tasks'[j].frame == f))
    ensures Owners(tasks', f, k) == Owners(tasks, f, k)
    decreases |tasks| - k
  {
    if k < |tasks| {
      LemmaOwners(tasks, tasks', f, k + 1);
    }
  }

  // The slot nr goes from no task to one with the page p.
  lemma {:induction false} LemmaNewOwner(tasks: seq<Task>, tasks': seq<Task>, nr: int, f: int, k: int)
    requires 0 <= k <= nr < |tasks| == |tasks'| && tasks[nr].NoTask? && !tasks'[nr].NoTask? && tasks' == tasks[nr := tasks'[nr]]
    ensures Owners(tasks', f, k) == Owners(tasks, f, k) + if f == tasks'[nr].frame then 1 else 0
    decreases nr - k
  {
    if k < nr {
      LemmaNewOwner(tasks, tasks', nr, f, k + 1);
    } else {
      LemmaOwners(tasks, tasks', f, k + 1);
    }
  }

  lemma LemmaSameRest(s: Sys, t: Sys, held: Held)
    requires |s.tasks| == |t.tasks| == SLOTS && SameFrames(s, t)
    ensures SameRest(s, held, t, held)
  {
    forall f
      ensures Owners(t.tasks, f, 1) == Owners(s.tasks, f, 1)
    {
      LemmaOwners(s.tasks, t.tasks, f, 1);
    }
  }

  lemma LemmaForkHolds(s: Sys, held: Held, t: Sys, p: int, nr: int)
    requires |s.tasks| == |t.tasks| == SLOTS && 1 <= nr < SLOTS && s.tasks[nr].NoTask?
    requires t.tasks == s.tasks[nr := t.tasks[nr]] && !t.tasks[nr].NoTask? && t.tasks[nr].frame == p
    ensures SameRest(s, held, t, held + multiset{p})
  {
    forall f
      ensures (held + multiset{p})[f] - Owners(t.tasks, f, 1) == held[f] - Owners(s.tasks, f, 1)
    {
      LemmaNewOwner(s.tasks, t.tasks, nr, f, 1);
    }
  }

  lemma LemmaReapHolds(s: Sys, held: Held, t: Sys, k: int)
    requires |s.tasks| == SLOTS && 1 <= k < SLOTS && s.tasks[k].Zombie? && t.tasks == s.tasks[k := NoTask]
    requires s.tasks[k].frame in held
    ensures SameRest(s, held, t, held - multiset{s.tasks[k].frame})
  {
    var p := s.tasks[k].frame;
    assert t.tasks[k := s.tasks[k]] == s.tasks;
    forall f
      ensures (held - multiset{p})[f] - Owners(t.tasks, f, 1) == held[f] - Owners(s.tasks, f, 1)
    {
      LemmaNewOwner(t.tasks, s.tasks, k, f, 1);
    }
  }

  // ---------------------------------------------------------------- exit and reaping

  lemma LemmaExit(s: Sys, sp: Space, held: Held, cur: int) returns (sp': Space)
    requires SysInv(s, sp, held) && 1 <= cur < SLOTS && s.tasks[cur].Live?
    ensures var (t, r) := Exit(s, cur);
      && r.Ok? && SysInv(t, sp', held) && t.tasks == s.tasks[cur := Zombie(s.tasks[cur].frame)]
      && (forall v :: Peek(t.mem, v) == if Within(v, Base(cur), s.tasks[cur].data) then None else Peek(s.mem, v))
  {
    hide Ledger, At, TablesInRange, BytesInRange, FreeTables, Reflects;
    var c, n := s.tasks[cur].code, s.tasks[cur].data;
    LemmaFreeTables(s.mem, sp, held, Base(cur), c);
    var m1 := FreeTables(s.mem, Base(cur), c).value;
    var sp1 := Unmapped(sp, Base(cur), c);
    LemmaFreeTables(m1, sp1, held, Base(cur), n);
    sp' := Unmapped(sp1, Base(cur), n);
    assert m1.data == s.mem.data;
    forall k | 1 <= k < SLOTS
      ensures Limits(Exit(s, cur).0.tasks, k, sp')
    {
      assert Limits(s.tasks, k, sp);
    }
  }

  lemma LemmaExitAgrees(s: Sys, sp: Space, held: Held, e: Eager, cur: int) returns (sp': Space)
    requires SysInv(s, sp, held) && Agrees(s, e) && 1 <= cur < SLOTS && s.tasks[cur].Live?
    ensures Exit(s, cur).1.Ok? && SysInv(Exit(s, cur).0, sp', held) && SameFrames(s, Exit(s, cur).0)
    ensures Agrees(Exit(s, cur).0, EagerExit(e, cur))
  {
    hide Ledger, At, TablesInRange, BytesInRange, Exit, Inv, Limits, HoldsTaskPages, Peek;
    assert SameTask(s.tasks[cur], e.tasks[cur]);
    sp' := LemmaExit(s, sp, held, cur);
  }

  lemma LemmaRelease(s: Sys, sp: Space, held: Held, k: int) returns (held': Held)
    requires SysInv(s, sp, held) && 1 <= k < SLOTS && s.tasks[k].Zombie?
    ensures var (t, r) := Release(s, k);
      && r.Ok? && SysInv(t, sp, held') && held' == held - multiset{s.tasks[k].frame} && t.tasks == s.tasks[k := NoTask]
      && (forall v :: Peek(t.mem, v) == Peek(s.mem, v))
  {
    hide Ledger, At, TablesInRange, BytesInRange, FreePage;
    var f := s.tasks[k].frame;
    LemmaFreePage(s.mem, sp, held, f);
    held' := held - multiset{f};
    var t := Release(s, k).0;
    assert t.mem.data == s.mem.data;
    forall j | 1 <= j < SLOTS
      ensures Limits(t.tasks, j, sp)
    {
      assert Limits(s.tasks, j, sp);
    }
  }

  // ---------------------------------------------------------------- fork

  lemma LemmaFirstFree(tasks: seq<Task>, etasks: seq<ETask>, k: int)
    requires |tasks| == |etasks| && 1 <= k <= |tasks|
    requires forall j :: 1 <= j < |tasks| ==> SameTask(tasks[j], etasks[j])
    ensures FirstFree(tasks, k) == FirstNobody(etasks, k)
    decreases |tasks| - k
  {
  }

  lemma LemmaForkOk(s: Sys, sp: Space, held: Held, cur: int) returns (sp': Space, held': Held)
    requires SysInv(s, sp, held) && 1 <= cur < SLOTS && s.tasks[cur].Live? && FirstFree(s.tasks, 1) < SLOTS
    requires GetFree(s.mem).1 != 0
    requires CopyTables(GetFree(s.mem).0, Base(cur), Base(FirstFree(s.tasks, 1)), s.tasks[cur].data, PT).Done?
    ensures var (t, r) := Fork(s, cur);
      var nr := FirstFree(s.tasks, 1);
      && r.Ok? && SysInv(t, sp', held') && held' == held + multiset{GetFree(s.mem).1} && t.tasks == s.tasks[nr := Live(GetFree(s.mem).1, s.tasks[cur].code, s.tasks[cur].data)]
      && (forall v :: Peek(t.mem, v) == Peek(s.mem, Source(v, Base(cur), Base(nr), s.tasks[cur].data)))
  {
    hide Ledger, At, TablesInRange, BytesInRange, GetFree, CopyTables, Reflects;
    var nr := FirstFree(s.tasks, 1);
    var n := s.tasks[cur].data;
    LemmaGetFree(s.mem, sp, held);
    var (m, p) := GetFree(s.mem);
    held' := held + multiset{p};
    assert Limits(s.tasks, nr, sp);
    sp' := LemmaCopyTables(m, sp, held', Base(cur), Base(nr), n);
    var t := CopyTables(m, Base(cur), Base(nr), n, PT).mem;
    LemmaPeekCopied(s.mem, m, p, t, Base(cur), Base(nr), n);
    forall k | 1 <= k < SLOTS
      ensures Limits(Fork(s, cur).0.tasks, k, sp')
    {
      assert Limits(s.tasks, k, sp);
    }
  }

  lemma LemmaPeekCopied(s: Mem, m: Mem, p: int, t: Mem, fd: int, td: int, n: int)
    requires Sound(s) && Sound(m) && Sound(t) && 0 <= p < |s.tab| && m.data == s.data[p := ZeroPage()]
    requires forall v :: At(s, v) == At(m, v) && (At(m, v).Present? ==> At(m, v).frame != p)
    requires Copied(m, t, fd, td, n) && |t.data| == |m.data|
    requires forall v :: FrameAt(m, v) >= 0 ==> FrameAt(m, v) < |m.data| && t.data[FrameAt(m, v)] == m.data[FrameAt(m, v)]
    ensures forall v :: Peek(t, v) == Peek(s, Source(v, fd, td, n))
  {
    hide TablesInRange, BytesInRange;
    forall v
      ensures Peek(t, v) == Peek(s, Source(v, fd, td, n))
    {
      assert FrameAt(t, v) == FrameAt(m, Source(v, fd, td, n));
      assert At(s, Source(v, fd, td, n)) == At(m, Source(v, fd, td, n));
    }
  }

  // A fork that fails, with or without having taken pages, leaves mem_map and every byte alone.
  lemma LemmaForkAgain(s: Sys, sp: Space, held: Held, cur: int) returns (sp': Space)
    requires SysInv(s, sp, held) && 1 <= cur < SLOTS && s.tasks[cur].Live?
    requires FirstFree(s.tasks, 1) == SLOTS || GetFree(s.mem).1 == 0 ||
             !CopyTables(GetFree(s.mem).0, Base(cur), Base(FirstFree(s.tasks, 1)), s.tasks[cur].data, PT).Done?
    ensures var (t, r) := Fork(s, cur);
      && r.Again? && SysInv(t, sp', held) && t.tasks == s.tasks && t.mem.count == s.mem.count
      && (forall v :: Peek(t.mem, v) == Peek(s.mem, v))
  {
    hide Ledger, At, TablesInRange, BytesInRange, GetFree, CopyTables, FreeTables, Reflects, FreePage;
    var nr := FirstFree(s.tasks, 1);
    var n := s.tasks[cur].data;
    sp' := sp;
    LemmaGetFree(s.mem, sp, held);
    var (m, p) := GetFree(s.mem);
    if nr != SLOTS && p != 0 {
      var held1 := held + multiset{p};
      assert held1 - multiset{p} == held;
      assert Limits(s.tasks, nr, sp);
      var sp1 := LemmaCopyTables(m, sp, held1, Base(cur), Base(nr), n);
      sp' := LemmaCopyUndone(m, sp, held1, Base(cur), Base(nr), n);
      var m2 := FreeTables(CopyTables(m, Base(cur), Base(nr), n, PT).mem, Base(nr), n).value;
      LemmaFreePage(m2, sp', held1, p);
      LemmaCountBack(s.mem, m2, p);
      LemmaSameAt(s.mem, m, p);
      var t := FreePage(m2, p).value;
      forall v
        ensures Peek(t, v) == Peek(s.mem, v)
      {
        assert Peek(m2, v) == Peek(m, v) == Peek(s.mem, v);
        assert At(t, v) == At(m2, v);
      }
      forall k | 1 <= k < SLOTS
        ensures Limits(s.tasks, k, sp')
      {
        assert Limits(s.tasks, k, sp);
      }
    }
  }

  lemma LemmaDuplicate(bytes: map<Place, Page>, d: int, e: int, n: int)
    requires forall v :: v in bytes && Within(v, e, n) ==> false
    ensures forall v :: Look(Duplicate(bytes, d, e, n), v) == Look(bytes, Source(v, d, e, n))
  {
    hide Duplicate, Source;
    forall v
      ensures Look(Duplicate(bytes, d, e, n), v) == Look(bytes, Source(v, d, e, n))
    {
      LemmaDuplicateAt(bytes, d, e, n, v);
    }
  }

  lemma LemmaDuplicateAt(bytes: map<Place, Page>, d: int, e: int, n: int, v: Place)
    requires forall u :: u in bytes && Within(u, e, n) ==> false
    ensures Look(Duplicate(bytes, d, e, n), v) == Look(bytes, Source(v, d, e, n))
  {
    LemmaMoved(bytes, d, e, n, v);
    hide Moved;
  }

  lemma LemmaMoved(bytes: map<Place, Page>, d: int, e: int, n: int, v: Place)
    ensures Look(Moved(bytes, d, e, n), v) == if Within(v, e, n) then Look(bytes, (v.0 - e + d, v.1)) else None
  {
    var w := (v.0 - e + d, v.1);
    assert v == (w.0 - d + e, w.1);
    if v in Moved(bytes, d, e, n) {
      var u :| u in bytes && Within(u, d, n) && (u.0 - d + e, u.1) == v && Moved(bytes, d, e, n)[v] == bytes[u];
      assert u == w;
    }
  }

  // A fork is refused exactly for want of a slot or of pages for the task and its tables.
  lemma LemmaForkAnswer(s: Sys, sp: Space, held: Held, cur: int)
    requires SysInv(s, sp, held) && 1 <= cur < SLOTS && s.tasks[cur].Live?
    ensures var nr := FirstFree(s.tasks, 1);
      Answer(s, Forks(cur)) ==
        if nr == SLOTS || GetFree(s.mem).1 == 0 || !CopyTables(GetFree(s.mem).0, Base(cur), Base(nr), s.tasks[cur].data, PT).Done?
        then Again else Ok
  {
    hide Ledger, At, TablesInRange, BytesInRange, GetFree, CopyTables, Reflects, FreeSet, Tables;
    var nr := FirstFree(s.tasks, 1);
    LemmaTaken(s.mem);
    LemmaGetFree(s.mem, sp, held);
    var (m, p) := GetFree(s.mem);
    if nr != SLOTS && p != 0 {
      assert Limits(s.tasks, nr, sp);
      var sp1 := LemmaCopyTables(m, sp, held + multiset{p}, Base(cur), Base(nr), s.tasks[cur].data);
      LemmaCopyShort(m, sp, held + multiset{p}, Base(cur), Base(nr), s.tasks[cur].data);
    }
  }

  lemma LemmaForkAgrees(s: Sys, sp: Space, held: Held, e: Eager, cur: int) returns (sp': Space, held': Held)
    requires SysInv(s, sp, held) && Agrees(s, e) && 1 <= cur < SLOTS && s.tasks[cur].Live?
    ensures var (t, r) := Fork(s, cur);
      && !r.Panicked? && !r.Skipped? && SysInv(t, sp', held') && Agrees(t, EagerStep(e, Forks(cur), r))
      && (r.Again? ==> t.mem.count == s.mem.count)
      && r == Answer(s, Forks(cur)) && SameRest(s, held, t, held')
  {
    hide Ledger, At, TablesInRange, BytesInRange, GetFree, CopyTables, Fork, Reflects, Limits, HoldsTaskPages, Peek, Duplicate;
    sp', held' := sp, held;
    var nr := FirstFree(s.tasks, 1);
    LemmaFirstFree(s.tasks, e.tasks, 1);
    LemmaForkAnswer(s, sp, held, cur);
    var (m, p) := GetFree(s.mem);
    assert SameTask(s.tasks[cur], e.tasks[cur]);
    var n := s.tasks[cur].data;
    if nr == SLOTS || p == 0 || !CopyTables(m, Base(cur), Base(nr), n, PT).Done? {
      sp' := LemmaForkAgain(s, sp, held, cur);
      LemmaSameRest(s, Fork(s, cur).0, held);
    } else {
      sp', held' := LemmaForkOk(s, sp, held, cur);
      LemmaForkHolds(s, held, Fork(s, cur).0, p, nr);
      LemmaSlotEmpty(s, sp, held, e, nr);
      LemmaDuplicate(e.bytes, Base(cur), Base(nr), n);
      assert SameTask(s.tasks[cur], e.tasks[cur]);
    }
  }

  lemma LemmaSlotEmpty(s: Sys, sp: Space, held: Held, e: Eager, k: int)
    requires SysInv(s, sp, held) && Agrees(s, e) && 1 <= k < SLOTS && !s.tasks[k].Live?
    ensures forall v :: Within(v, Base(k), SLOT_DIRS) ==> v !in e.bytes
  {
    assert Limits(s.tasks, k, sp);
    LemmaVacant(s.mem, sp, Base(k), SLOT_DIRS);
    forall v | Within(v, Base(k), SLOT_DIRS)
      ensures v !in e.bytes
    {
      assert FrameAt(s.mem, v) == -1;
      assert Peek(s.mem, v) == Look(e.bytes, v);
    }
  }

  // ---------------------------------------------------------------- page faults

  lemma LemmaFaulted(s: Sys, sp: Space, held: Held, m: Mem, sp': Space, cur: int, d: int)
    requires SysInv(s, sp, held) && Inv(m, sp', held) && m.high == s.mem.high
    requires 1 <= cur < SLOTS && s.tasks[cur].Live? && 0 <= d < s.tasks[cur].data
    requires sp'.tables.Keys <= sp.tables.Keys + {Base(cur) + d}
    ensures SysInv(s.(mem := m), sp', held)
  {
    hide Ledger, Sound, Reflects;
    forall k | 1 <= k < SLOTS
      ensures Limits(s.tasks, k, sp')
    {
      assert Limits(s.tasks, k, sp);
    }
  }

  // do_no_page or do_wp_page for a user of task cur, in a state where v is within its limit.
  lemma LemmaWriteFault(s: Sys, sp: Space, held: Held, cur: int, d: int, i: int) returns (sp': Space)
    requires SysInv(s, sp, held) && Enabled(s, Reads(cur, d, i))
    ensures var v := (Base(cur) + d, i);
      var r := WriteFault(s.mem, v.0, v.1);
      && !r.Panic? && SysInv(s.(mem := r.mem), sp', held)
      && (r.Done? ==> v in sp'.pages && sp'.pages[v].rw &&
                      forall w :: Peek(r.mem, w) == if w == v then Some(ZeroOr(Peek(s.mem, v))) else Peek(s.mem, w))
      && (r.NoMemory? ==> forall w :: Peek(r.mem, w) == Peek(s.mem, w))
  {
    hide Ledger, TablesInRange, BytesInRange, GetEmpty, UnWp, Limits, HoldsTaskPages;
    var v := (Base(cur) + d, i);
    assert At(s.mem, v) == Entry(s.mem, v.0, v.1);
    sp' := sp;
    if v !in sp.pages {
      sp' := LemmaGetEmpty(s.mem, sp, held, v);
    } else if !sp.pages[v].rw {
      sp' := LemmaUnWp(s.mem, sp, held, v);
    }
    var m := WriteFault(s.mem, v.0, v.1).mem;
    LemmaFaulted(s, sp, held, m, sp', cur, d);
  }

  lemma LemmaFaultShort(m: Mem, d: int, i: int)
    requires Sound(m) && 0 <= d < |m.dir| && 0 <= i < PT
    ensures WriteFault(m, d, i).NoMemory? <==> Short(m, d, i)
  {
    hide BytesInRange, GetEmpty, UnWp, FreeSet;
    LemmaEmptyShort(m, d, i);
    if Entry(m, d, i).Present? {
      LemmaUnWpShort(m, m.dir[d].frame, i);
    }
  }

  lemma LemmaTouch(s: Sys, sp: Space, held: Held, e: Eager, cur: int, d: int, i: int) returns (sp': Space)
    requires SysInv(s, sp, held) && Agrees(s, e) && Enabled(s, Reads(cur, d, i))
    ensures var (t, r) := Touch(s, cur, d, i);
      && r == Answer(s, Reads(cur, d, i)) && SameFrames(s, t)
      && SysInv(t, sp', held) && Agrees(t, EagerStep(e, Reads(cur, d, i), r))
  {
    hide Ledger, TablesInRange, BytesInRange, GetEmpty, Exit, Limits, HoldsTaskPages, Reflects, At, Peek;
    var v := (Base(cur) + d, i);
    LemmaMapped(s.mem, sp, held, v);
    assert SameTask(s.tasks[cur], e.tasks[cur]);
    assert Peek(s.mem, v) == Look(e.bytes, v);
    sp' := sp;
    LemmaEmptyShort(s.mem, v.0, v.1);
    if v !in sp.pages {
      sp' := LemmaGetEmpty(s.mem, sp, held, v);
      var r := GetEmpty(s.mem, v.0, v.1);
      LemmaFaulted(s, sp, held, r.mem, sp', cur, d);
      if r.NoMemory? {
        sp' := LemmaExitAgrees(s.(mem := r.mem), sp', held, e, cur);
      }
    }
  }

  // A page is mapped for the processor exactly if the ledger has it.
  lemma LemmaMapped(m: Mem, sp: Space, held: Held, v: Place)
    requires Inv(m, sp, held) && User(v.0) && 0 <= v.1 < PT
    ensures Entry(m, v.0, v.1).Present? <==> v in sp.pages
    ensures Peek(m, v).Some? <==> v in sp.pages
  {
    hide Ledger;
  }

  lemma LemmaWrite(s: Sys, sp: Space, held: Held, e: Eager, cur: int, d: int, i: int, off: int, b: byte) returns (sp': Space)
    requires SysInv(s, sp, held) && Agrees(s, e) && Enabled(s, Writes(cur, d, i, off, b))
    ensures |ZeroOr(Look(e.bytes, (Base(cur) + d, i)))| == PAGE_SIZE
    ensures var (t, r) := Write(s, cur, d, i, off, b);
      && r == Answer(s, Writes(cur, d, i, off, b)) && SameFrames(s, t)
      && SysInv(t, sp', held) && Agrees(t, EagerStep(e, Writes(cur, d, i, off, b), r))
  {
    hide Ledger, TablesInRange, BytesInRange, WriteFault, Exit, Store, Limits, HoldsTaskPages, Reflects, Peek, At;
    var v := (Base(cur) + d, i);
    assert SameTask(s.tasks[cur], e.tasks[cur]);
    assert Peek(s.mem, v) == Look(e.bytes, v);
    LemmaPageSize(s.mem, v);
    LemmaFaultShort(s.mem, v.0, v.1);
    sp' := LemmaWriteFault(s, sp, held, cur, d, i);
    var r := WriteFault(s.mem, v.0, v.1);
    if r.Done? {
      LemmaStoreMapped(r.mem, sp', held, v);
      LemmaStore(r.mem, sp', held, v, off, b);
      var t := Store(r.mem, v.0, v.1, off, b);
      LemmaFaulted(s.(mem := r.mem), sp', held, t, sp', cur, d);
    } else {
      sp' := LemmaExitAgrees(s.(mem := r.mem), sp', held, e, cur);
    }
  }

  lemma LemmaStoreMapped(m: Mem, sp: Space, held: Held, v: Place)
    requires Inv(m, sp, held) && v in sp.pages
    ensures User(v.0) && 0 <= v.1 < PT && Entry(m, v.0, v.1).Present?
  {
    hide Ledger;
    LemmaEntryIs(m, sp, v);
  }

  lemma LemmaPageSize(s: Mem, v: Place)
    requires Sound(s)
    ensures |ZeroOr(Peek(s, v))| == PAGE_SIZE
  {
  }

  // ---------------------------------------------------------------- runs

  lemma LemmaReapStep(s: Sys, sp: Space, held: Held, k: int) returns (held': Held)
    requires SysInv(s, sp, held) && 1 <= k < SLOTS && s.tasks[k].Zombie?
    ensures var (t, r) := Release(s, k);
      && r.Ok? && SysInv(t, sp, held') && SameRest(s, held, t, held') && t.tasks == s.tasks[k := NoTask]
      && (forall v :: Peek(t.mem, v) == Peek(s.mem, v))
  {
    hide Inv, Sound, Limits, Peek, Release;
    assert s.tasks[k].frame in held by { LemmaTaskPage(s, held, k); }
    held' := LemmaRelease(s, sp, held, k);
    LemmaReapHolds(s, held, Release(s, k).0, k);
  }

  lemma LemmaTaskPage(s: Sys, held: Held, k: int)
    requires |s.tasks| == SLOTS && HoldsTaskPages(s, held) && 1 <= k < SLOTS && !s.tasks[k].NoTask?
    ensures s.tasks[k].frame in held
  {
  }

  lemma LemmaStep(s: Sys, sp: Space, held: Held, e: Eager, ev: Event) returns (sp': Space, held': Held)
    requires SysInv(s, sp, held) && Agrees(s, e)
    ensures var (t, r) := Step(s, ev);
      && r == Answer(s, ev) && (Enabled(s, ev) ==> Sensible(e, ev, r))
      && SysInv(t, sp', held') && Agrees(t, EagerStep(e, ev, r)) && SameRest(s, held, t, held')
  {
    hide Ledger, Sound, At, Exit, Fork, Touch, Write, Release, Limits, HoldsTaskPages, Peek, Reflects;
    sp', held' := sp, held;
    if Enabled(s, ev) {
      if !ev.Reaps? {
        assert SameTask(s.tasks[ev.cur], e.tasks[ev.cur]);
      }
      match ev {
        case Forks(cur) => sp', held' := LemmaForkAgrees(s, sp, held, e, cur);
        case Exits(cur) => sp' := LemmaExitAgrees(s, sp, held, e, cur);
        case Reaps(k) => held' := LemmaReapStep(s, sp, held, k);
        case Reads(cur, d, i) => sp' := LemmaTouch(s, sp, held, e, cur, d, i);
        case Writes(cur, d, i, off, b) => sp' := LemmaWrite(s, sp, held, e, cur, d, i, off, b);
      }
    }
    if !ev.Reaps? && !ev.Forks? {
      LemmaSameRest(s, Step(s, ev).0, held);
    }
  }

  // The kernel under any sequence of events; events that are not enabled do not happen.
  ghost function Run(s: Sys, evs: seq<Event>): (Sys, seq<Result>)
    requires WellFormed(s)
    decreases evs
  {
    if evs == [] then (s, [])
    else
      var (s1, r) := Step(s, evs[0]);
      if !WellFormed(s1) then (s1, [Panicked])
      else
        var (t, rs) := Run(s1, evs[1..]);
        (t, [r] + rs)
  }

  ghost function EagerRun(e: Eager, evs: seq<Event>, rs: seq<Result>): Eager
    requires |evs| == |rs|
    decreases evs
  {
    if evs == [] then e else EagerRun(EagerStep(e, evs[0], rs[0]), evs[1..], rs[1..])
  }

  lemma LemmaNoPanic(s: Sys, ev: Event)
    requires WellFormed(s)
    ensures Answer(s, ev) != Panicked
  {
  }

  /** Main theorem: in every run of fork, exit, reaping, page faults and writes no kernel panic is
      reached, every call answers what free slots and free pages allow, no page is lost, the ledger holds (so mem_map counts references and writers are exclusive), and every
      task reads exactly the bytes of the machine whose fork copies at once. */
  lemma {:induction false} LemmaRefinesEagerCopy(s: Sys, sp: Space, held: Held, e: Eager, evs: seq<Event>)
    returns (sp': Space, held': Held)
    requires SysInv(s, sp, held) && Agrees(s, e)
    ensures var (t, rs) := Run(s, evs);
      && |rs| == |evs| && Panicked !in rs && Answered(s, evs, rs)
      && SysInv(t, sp', held') && Agrees(t, EagerRun(e, evs, rs)) && SameRest(s, held, t, held')
    decreases evs
  {
    hide Ledger, Sound, Step, EagerStep, At, Inv, Limits, HoldsTaskPages, Agrees, Owners, Answer;
    sp', held' := sp, held;
    if evs != [] {
      var sp1, held1 := LemmaStep(s, sp, held, e, evs[0]);
      var (s1, r) := Step(s, evs[0]);
      assert r != Panicked by { LemmaNoPanic(s, evs[0]); }
      sp', held' := LemmaRefinesEagerCopy(s1, sp1, held1, EagerStep(e, evs[0], r), evs[1..]);
      var (t, rs) := Run(s1, evs[1..]);
      assert ([r] + rs)[1..] == rs;
    }
  }
}

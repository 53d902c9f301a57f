/** kernel/fork.c and kernel/exit.c as they run: the task array and the memory they share. */
module ProcessTable {
  import opened Memory
  import opened Processes
  import opened MemoryManager
  import opened PageLedger
  import opened MemoryAccounting
  import opened Shortage

  const SLOT_BYTES: int := SLOT_DIRS * 0x400000

  class TaskTable {
    const task: array<Task>
    const memory: PhysicalMemory

    constructor (m: PhysicalMemory)
      ensures memory == m && fresh(task) && task[..] == seq(SLOTS, _ => NoTask)
    {
      memory := m;
      task := new Task[SLOTS](_ => NoTask);
    }

    ghost function View(): Sys
      reads task, memory, memory.memMap, memory.pgDir, memory.tables, memory.frames
    {
      Sys(memory.View(), task[..])
    }

    ghost predicate Valid()
      reads task, memory, memory.memMap, memory.pgDir, memory.tables, memory.frames
    {
      && memory.Valid() && task.Length == SLOTS
      && forall k :: 0 <= k < SLOTS && task[k].Live? ==> 0 <= task[k].code <= task[k].data <= SLOT_DIRS
    }

    // The part of find_empty_process that looks for a slot; -1 stands for -EAGAIN.
    method FindEmptyProcess() returns (nr: int)
      requires Valid()
      ensures nr == if FirstFree(task[..], 1) == SLOTS then -1 else FirstFree(task[..], 1)
    {
      var i := 1;
      while i < SLOTS
        invariant 1 <= i <= SLOTS
        invariant FirstFree(task[..], i) == FirstFree(task[..], 1)
      {
        if task[i].NoTask? {
          return i;
        }
        i := i + 1;
      }
      return -1;
    }

    // verify_area for the task cur; true when oom was called on the way.
    method VerifyArea(cur: int, addr: int, size: int) returns (oom: bool)
      requires Valid() && 1 <= cur < SLOTS && 0 <= addr
      modifies memory.memMap, memory.tables, memory.frames
      ensures var bytes := size + addr % 4096;
        var r := VerifyPages(old(memory.View()), (cur * SLOT_BYTES + addr) / 4096, PagesLeft(bytes));
        Valid() && memory.View() == r.mem && oom == r.NoMemory?
    {
      hide Verified, VerifyPages, Sound;
      var left := size + addr % 4096;
      var start := addr - addr % 4096 + cur * SLOT_BYTES;
      ghost var page := start / 4096;
      assert start == page * 4096 && page == (cur * SLOT_BYTES + addr) / 4096;
      ghost var n := PagesLeft(left);
      ghost var want := VerifyPages(memory.View(), page, n);
      while left > 0
        invariant Valid() && 0 <= page && start == page * 4096 && n == PagesLeft(left)
        invariant VerifyPages(memory.View(), page, n) == want
      {
        LemmaPage(start, page);
        LemmaVerifyMore(memory.View(), page, n);
        left := left - 4096;
        oom := memory.WriteVerify(start % 0x1_0000_0000);
        if oom {
          return;
        }
        start := start + 4096;
        page, n := page + 1, n - 1;
      }
      LemmaVerifyMore(memory.View(), page, 0);
      return false;
    }

    // copy_mem for the slot nr; -1 stands for -ENOMEM.
    method CopyMem(cur: int, nr: int) returns (result: int, panicked: bool)
      requires Valid() && 0 <= cur < SLOTS && 1 <= nr < SLOTS && task[cur].Live?
      modifies memory.memMap, memory.pgDir, memory.tables, memory.frames
      ensures var r := Processes.CopyMem(old(memory.View()), cur, nr, task[cur].data);
        && panicked == r.Panic?
        && (!panicked ==> memory.Valid() && memory.View() == r.mem && result == if r.Done? then 0 else -1)
    {
      hide CopyTables, FreeTables, TablesInRange, BytesInRange;
      var limit := task[cur].data * 0x400000;
      LemmaDirs(task[cur].data);
      result, panicked := memory.CopyPageTables(cur * SLOT_BYTES, nr * SLOT_BYTES, limit);
      if !panicked && result != 0 {
        var ok := memory.FreePageTables(nr * SLOT_BYTES, limit);
        panicked := !ok;
      }
    }

    // The memory part of copy_process; -1 stands for -EAGAIN.
    method CopyProcess(cur: int) returns (result: int, panicked: bool)
      requires Valid() && 0 <= cur < SLOTS && task[cur].Live?
      modifies task, memory.memMap, memory.pgDir, memory.tables, memory.frames
      ensures var (s, r) := Fork(old(View()), cur);
        && panicked == r.Panicked?
        && (!panicked ==> memory.Valid() && View() == s && (result == -1 <==> r == Again))
    {
      hide CopyTables, FreeTables, GetFree, TablesInRange, BytesInRange, Memory.FreePage;
      var nr := FindEmptyProcess();
      if nr == -1 {
        return -1, false;
      }
      ghost var s := View();
      var p := memory.GetFreePage();
      if p == 0 {
        assert View() == s.(mem := GetFree(s.mem).0);
        return -1, false;
      }
      task[nr] := Live(p, task[cur].code, task[cur].data);
      result, panicked := CopyMem(cur, nr);
      if panicked {
        return;
      }
      if result != 0 {
        task[nr] := NoTask;
        var ok := memory.FreePage(p);
        if ok {
          assert task[..] == s.tasks;
        }
        return -1, !ok;
      }
      assert task[..] == s.tasks[nr := Live(p, s.tasks[cur].code, s.tasks[cur].data)];
      return nr, false;
    }

    // The memory part of do_exit.
    method DoExit(cur: int) returns (panicked: bool)
      requires Valid() && 1 <= cur < SLOTS && task[cur].Live?
      modifies task, memory.memMap, memory.pgDir, memory.tables
      ensures var (s, r) := Exit(old(View()), cur);
        panicked == r.Panicked? && (!panicked ==> Valid() && View() == s)
    {
      hide FreeTables, TablesInRange, BytesInRange;
      ghost var s := View();
      var t := task[cur];
      LemmaDirs(t.code);
      LemmaDirs(t.data);
      var ok := memory.FreePageTables(cur * SLOT_BYTES, t.code * 0x400000);
      if !ok {
        return true;
      }
      ok := memory.FreePageTables(cur * SLOT_BYTES, t.data * 0x400000);
      if !ok {
        return true;
      }
      task[cur] := Zombie(t.frame);
      assert task[..] == s.tasks[cur := Zombie(t.frame)];
      return false;
    }

    // release of slot k.
    method Release(k: int) returns (panicked: bool)
      requires Valid() && 1 <= k < SLOTS && task[k].Zombie?
      modifies task, memory.memMap
      ensures var (s, r) := Processes.Release(old(View()), k);
        panicked == r.Panicked? && (!panicked ==> Valid() && View() == s)
    {
      hide TablesInRange, BytesInRange, Memory.FreePage;
      ghost var s := View();
      var p := task[k].frame;
      task[k] := NoTask;
      assert task[..] == s.tasks[k := NoTask];
      var ok := memory.FreePage(p);
      return !ok;
    }
  }

  lemma LemmaDirs(n: int)
    requires 0 <= n <= SLOT_DIRS
    ensures (n * 0x400000 + 0x3fffff) / 0x400000 == n
    ensures forall k :: 0 <= k < SLOTS ==> (k * SLOT_BYTES) / 0x400000 == Base(k) && k * SLOT_BYTES % 0x400000 == 0
  {
  }

  lemma LemmaVerifyMore(m: Mem, page: int, n: nat)
    requires Sound(m) && 0 <= page
    ensures n == 0 ==> VerifyPages(m, page, n) == Done(m)
    ensures n > 0 ==>
      var p := page % (SLOTS * SLOT_DIRS * PT);
      var r := Verified(m, p / PT, p % PT);
      && !r.Panic? && (r.Done? ==> Sound(r.mem))
      && VerifyPages(m, page, n) == if r.Done? then VerifyPages(r.mem, page + 1, n - 1) else r
  {
    hide Verified;
  }

  // Pages the loop of verify_area still visits.
  function PagesLeft(bytes: int): nat { if bytes <= 0 then 0 else (bytes + 4095) / 4096 }

  // They are the pages from that of the area's first byte to that of its last.
  lemma LemmaAreaPages(base: int, addr: int, size: int)
    requires 0 <= base && base % 4096 == 0 && 0 <= addr && 0 < size
    ensures (base + addr) / 4096 + PagesLeft(size + addr % 4096) == (base + addr + size - 1) / 4096 + 1
  {
    var p, q, o := base / 4096, addr / 4096, addr % 4096;
    assert base + addr == (p + q) * 4096 + o;
    var n := (size + o - 1) / 4096;
    assert base + addr + size - 1 == (p + q + n) * 4096 + (size + o - 1) % 4096;
  }

  /** verify_area, for every byte of the area: unless memory ran out its page, if it is mapped, is
      the task's own to write, and memory ran out only with no page free and one still needed. */
  lemma LemmaArea(s: Mem, sp: Space, held: Held, cur: int, addr: int, size: int) returns (sp': Space)
    requires Inv(s, sp, held) && 1 <= cur < SLOTS && 0 <= addr && 0 < size && addr + size <= SLOT_BYTES
    ensures var r := VerifyPages(s, (cur * SLOT_BYTES + addr) / 4096, PagesLeft(size + addr % 4096));
      && !r.Panic? && Inv(r.mem, sp', held) && SamePeeks(s, r.mem) && sp'.pages.Keys == sp.pages.Keys
      && (r.Done? ==> forall w :: w in sp.pages && InArea(w, cur, addr, size) ==> sp'.pages[w].rw)
      && (r.NoMemory? ==> FreeSet(r.mem) == {} && exists v :: Unresolved(r.mem, v) && InArea(v, cur, addr, size))
  {
    hide Inv, VerifyPages, SamePeeks;
    var base := cur * SLOT_BYTES;
    assert base % 4096 == 0;
    LemmaAreaPages(base, addr, size);
    var page, n := (base + addr) / 4096, PagesLeft(size + addr % 4096);
    assert Sound(s) by { LemmaInv(s, sp, held); }
    sp' := LemmaVerifyPages(s, sp, held, page, n);
    LemmaVerifyShort(s, page, n);
    var r := VerifyPages(s, page, n);
    if r.NoMemory? {
      var v :| Unresolved(r.mem, v) && page <= v.0 * PT + v.1 < page + n;
      assert InArea(v, cur, addr, size);
    }
  }

  // The linear page v holds bytes of the area.
  predicate InArea(v: Place, cur: int, addr: int, size: int) {
    (cur * SLOT_BYTES + addr) / 4096 <= v.0 * PT + v.1 <= (cur * SLOT_BYTES + addr + size - 1) / 4096
  }

  lemma LemmaPage(start: int, page: int)
    requires 0 <= page && start == page * 4096
    ensures 0 <= start % 0x1_0000_0000 < SLOTS * SLOT_DIRS * 0x400000
    ensures start % 0x1_0000_0000 / 0x400000 == page % (SLOTS * SLOT_DIRS * PT) / PT
    ensures start % 0x1_0000_0000 / 0x1000 % 0x400 == page % (SLOTS * SLOT_DIRS * PT) % PT
  {
    var q := page / 0x10_0000;
    var p := page % 0x10_0000;
    assert page == q * 0x10_0000 + p;
    assert start == q * 0x1_0000_0000 + p * 4096;
    assert start % 0x1_0000_0000 == p * 4096;
  }
}

/** mm/memory.c as it runs: mem_map, the page directory and the page tables updated in place.
    Every method is proved to compute the function of module Memory that specifies it. */
module MemoryManager {
  import opened Basics
  import opened Memory
  import opened Wrappers

  class PhysicalMemory {
    const memMap: array<int>
    const pgDir: array<Pte>
    const tables: array<seq<Pte>>
    const frames: array<Page>
    var high: int

    ghost function View(): Mem
      reads this, memMap, pgDir, tables, frames
    {
      Mem(high, memMap[..], pgDir[..], tables[..], frames[..])
    }

    ghost predicate Valid()
      reads this, memMap, pgDir, tables, frames
    {
      Sound(View())
    }

    // mem_init for memory from startMem to endMem, both multiples of the page size.
    method MemInit(startMem: int, endMem: int)
      requires LOW <= startMem / PAGE_SIZE <= endMem / PAGE_SIZE <= LOW + memMap.Length
      requires startMem % PAGE_SIZE == 0 && endMem % PAGE_SIZE == 0
      modifies this, memMap
      ensures View() == Memory.MemInit(old(View()), startMem / PAGE_SIZE, endMem / PAGE_SIZE)
    {
      high := endMem / PAGE_SIZE;
      var i := 0;
      while i < memMap.Length
        invariant 0 <= i <= memMap.Length && high == endMem / PAGE_SIZE
        invariant forall k :: 0 <= k < i ==> memMap[k] == USED
      {
        memMap[i] := USED;
        i := i + 1;
      }
      i := startMem / PAGE_SIZE - LOW;
      var n := (endMem - startMem) / PAGE_SIZE;
      while n > 0
        invariant 0 <= n && i + n == endMem / PAGE_SIZE - LOW && i >= startMem / PAGE_SIZE - LOW && high == endMem / PAGE_SIZE
        invariant forall k :: 0 <= k < memMap.Length ==> memMap[k] == if startMem / PAGE_SIZE - LOW <= k < i then 0 else USED
      {
        memMap[i] := 0;
        i, n := i + 1, n - 1;
      }
    }

    // get_free_page: the physical page taken, 0 if there is none.
    method GetFreePage() returns (page: int)
      requires Valid()
      modifies memMap, tables, frames
      ensures Valid() && (View(), page) == GetFree(old(View()))
    {
      var k := memMap.Length;
      while k > 0
        invariant 0 <= k <= memMap.Length
        invariant View() == old(View())
        invariant LastZero(memMap[..], k) == LastZero(memMap[..], memMap.Length)
      {
        k := k - 1;
        if memMap[k] == 0 {
          memMap[k] := 1;
          page := LOW + k;
          tables[page] := seq(PT, _ => Absent);
          frames[page] := ZeroPage();
          assert View() == GetFree(old(View())).0;
          return;
        }
      }
      page := 0;
    }

    // free_page; false is a panic.
    method FreePage(page: int) returns (ok: bool)
      requires Valid()
      modifies memMap
      ensures ok == Memory.FreePage(old(View()), page).Some?
      ensures ok ==> Valid() && View() == Memory.FreePage(old(View()), page).value
    {
      if page < LOW {
        return true;
      }
      if page >= high {
        return false;
      }
      var nr := page - LOW;
      if memMap[nr] != 0 {
        memMap[nr] := memMap[nr] - 1;
        assert View() == Memory.FreePage(old(View()), page).value;
        return true;
      }
      memMap[nr] := 0;
      return false;
    }

    // The inner loop of free_page_tables; false is a panic.
    method FreeTableEntries(table: int) returns (ok: bool)
      requires Valid() && 0 <= table < tables.Length
      modifies memMap, tables
      ensures ok == FreeEntries(old(View()), table, 0).Some?
      ensures ok ==> Valid() && View() == FreeEntries(old(View()), table, 0).value
    {
      hide FreeEntries, FreeEntry, Sound;
      var nr := 0;
      while nr < PT
        invariant 0 <= nr <= PT && Valid()
        invariant FreeEntries(View(), table, nr) == FreeEntries(old(View()), table, 0)
      {
        ghost var was := View();
        ok := FreeOne(table, nr);
        LemmaFreeStep(was, table, nr);
        if !ok {
          return;
        }
        nr := nr + 1;
      }
      LemmaFreeLast(View(), table);
      return true;
    }

    // One round of the inner loop of free_page_tables.
    method FreeOne(table: int, nr: int) returns (ok: bool)
      requires Valid() && 0 <= table < tables.Length && 0 <= nr < PT
      modifies memMap, tables
      ensures ok == FreeEntry(old(View()), table, nr).Some?
      ensures ok ==> Valid() && View() == FreeEntry(old(View()), table, nr).value
    {
      ok := true;
      if tables[table][nr].Present? {
        ok := FreePage(tables[table][nr].frame);
        if !ok {
          return;
        }
      }
      tables[table] := tables[table][nr := Absent];
    }

    // free_page_tables for a linear address and a size in bytes; false is a panic.
    method FreePageTables(from: int, size: int) returns (ok: bool)
      requires Valid() && 0 <= size && 0 <= from
      requires from / 0x400000 + (size + 0x3fffff) / 0x400000 <= SLOTS * SLOT_DIRS
      modifies memMap, tables, pgDir
      ensures ok == (from % 0x400000 == 0 && from != 0 &&
                     FreeTables(old(View()), from / 0x400000, (size + 0x3fffff) / 0x400000).Some?)
      ensures ok ==> Valid() && View() == FreeTables(old(View()), from / 0x400000, (size + 0x3fffff) / 0x400000).value
    {
      hide FreeEntries, TablesInRange, BytesInRange;
      if from % 0x400000 != 0 || from == 0 {
        return false;
      }
      var n := (size + 0x3fffff) / 0x400000;
      var dir := from / 0x400000;
      ghost var want := FreeTables(View(), dir, n);
      while n > 0
        invariant Valid() && 0 <= n && 0 <= dir && dir + n <= pgDir.Length
        invariant FreeTables(View(), dir, n) == want
      {
        ghost var s := View();
        if pgDir[dir].Present? {
          var table := pgDir[dir].frame;
          ok := FreeTableEntries(table);
          if !ok {
            return false;
          }
          ok := FreePage(table);
          if !ok {
            return false;
          }
          pgDir[dir] := Absent;
          assert View() == FreeTable(s, dir).value;
        }
        dir, n := dir + 1, n - 1;
      }
      return true;
    }

    // One entry of copy_page_tables.
    method CopyTableEntry(fromTable: int, toTable: int, nr: int)
      requires Valid() && 0 <= fromTable < tables.Length && 0 <= toTable < tables.Length && 0 <= nr < PT
      modifies memMap, tables
      ensures Valid() && View() == CopyEntry(old(View()), fromTable, toTable, nr)
    {
      var thisPage := tables[fromTable][nr];
      if thisPage.Present? {
        thisPage := thisPage.(rw := false);
        tables[toTable] := tables[toTable][nr := thisPage];
        if thisPage.frame >= LOW {
          tables[fromTable] := tables[fromTable][nr := thisPage];
          memMap[thisPage.frame - LOW] := (memMap[thisPage.frame - LOW] + 1) % 256;
        }
      }
      assert View() == CopyEntry(old(View()), fromTable, toTable, nr);
    }

    // The inner loop of copy_page_tables over the first count entries.
    method CopyTableEntries(fromTable: int, toTable: int, count: int)
      requires Valid() && 0 <= fromTable < tables.Length && 0 <= toTable < tables.Length && 0 <= count <= PT
      modifies memMap, tables
      ensures Valid() && View() == CopyEntries(old(View()), fromTable, toTable, 0, count)
    {
      hide CopyEntry, TablesInRange, BytesInRange;
      var nr := 0;
      while nr < count
        invariant 0 <= nr <= count && Valid()
        invariant CopyEntries(View(), fromTable, toTable, nr, count) == CopyEntries(old(View()), fromTable, toTable, 0, count)
      {
        CopyTableEntry(fromTable, toTable, nr);
        nr := nr + 1;
      }
    }

    // copy_page_tables: 0, or -1 when out of memory; panicked tells of a panic.
    method CopyPageTables(from: int, to: int, size: int) returns (result: int, panicked: bool)
      requires Valid() && 0 <= size && 0 <= from && 0 <= to
      requires from / 0x400000 + (size + 0x3fffff) / 0x400000 <= SLOTS * SLOT_DIRS
      requires to / 0x400000 + (size + 0x3fffff) / 0x400000 <= SLOTS * SLOT_DIRS
      modifies memMap, tables, pgDir, frames
      ensures var aligned := from % 0x400000 == 0 && to % 0x400000 == 0;
        var r := CopyTables(old(View()), from / 0x400000, to / 0x400000, (size + 0x3fffff) / 0x400000, if from == 0 then 0xA0 else PT);
        && panicked == (!aligned || r.Panic?)
        && (!panicked ==> Valid() && View() == r.mem && result == if r.Done? then 0 else -1)
    {
      hide CopyTable, CopyTables, Sound;
      if from % 0x400000 != 0 || to % 0x400000 != 0 {
        return 0, true;
      }
      var fromDir, toDir, n := from / 0x400000, to / 0x400000, (size + 0x3fffff) / 0x400000;
      var nr := if from == 0 then 0xA0 else PT;
      LemmaDirSize(View());
      ghost var want := CopyTables(View(), fromDir, toDir, n, nr);
      result, panicked := 0, false;
      while n > 0
        invariant Valid() && 0 <= n && 0 <= fromDir && 0 <= toDir && fromDir + n <= pgDir.Length && toDir + n <= pgDir.Length
        invariant CopyTables(View(), fromDir, toDir, n, nr) == want && result == 0 && !panicked
      {
        LemmaDirSize(View());
        LemmaCopyStep(View(), fromDir, toDir, n, nr);
        result, panicked := CopyOne(fromDir, toDir, nr);
        if panicked || result != 0 {
          return;
        }
        fromDir, toDir, n := fromDir + 1, toDir + 1, n - 1;
      }
      LemmaDirSize(View());
      LemmaCopyStep(View(), fromDir, toDir, 0, nr);
    }

    // One round of the outer loop of copy_page_tables.
    method CopyOne(fromDir: int, toDir: int, nr: int) returns (result: int, panicked: bool)
      requires Valid() && 0 <= fromDir < pgDir.Length && 0 <= toDir < pgDir.Length && 0 <= nr <= PT
      modifies memMap, tables, pgDir, frames
      ensures var r := CopyTable(old(View()), fromDir, toDir, nr);
        panicked == r.Panic? && (!panicked ==> Valid() && View() == r.mem && result == if r.Done? then 0 else -1)
    {
      hide CopyEntries, GetFree, TablesInRange, BytesInRange;
      ghost var s := View();
      result, panicked := 0, false;
      if pgDir[toDir].Present? {
        panicked := true;
        return;
      }
      if pgDir[fromDir].Present? {
        var fromTable := pgDir[fromDir].frame;
        var toTable := GetFreePage();
        if toTable == 0 {
          result := -1;
          return;
        }
        pgDir[toDir] := Present(toTable, true);
        assert View() == SetDir(GetFree(s).0, toDir, Present(toTable, true));
        CopyTableEntries(fromTable, toTable, nr);
      }
    }

    // put_page; the source's two warnings have no effect on the tables.
    method PutPage(page: int, address: int) returns (result: int)
      requires Valid() && 0 <= page < high && 0 <= address < SLOTS * SLOT_DIRS * 0x400000
      modifies memMap, tables, pgDir, frames
      ensures var (m, ok) := Memory.PutPage(old(View()), page, address / 0x400000, address / 0x1000 % 0x400);
        Valid() && View() == m && result == if ok then page else 0
    {
      hide GetFree, BytesInRange;
      var dir := address / 0x400000;
      var table;
      if pgDir[dir].Present? {
        table := pgDir[dir].frame;
      } else {
        ghost var s := View();
        table := GetFreePage();
        if table == 0 {
          return 0;
        }
        pgDir[dir] := Present(table, true);
        assert View() == SetDir(GetFree(s).0, dir, Present(table, true));
      }
      ghost var s2 := View();
      tables[table] := tables[table][address / 0x1000 % 0x400 := Present(page, true)];
      assert View() == SetEntry(s2, table, address / 0x1000 % 0x400, Present(page, true));
      return page;
    }

    // get_empty_page; the flags tell whether oom was called and whether free_page panicked.
    method GetEmptyPage(address: int) returns (oom: bool, panicked: bool)
      requires Valid() && 0 <= address < SLOTS * SLOT_DIRS * 0x400000
      modifies memMap, tables, pgDir, frames
      ensures var r := GetEmpty(old(View()), address / 0x400000, address / 0x1000 % 0x400);
        panicked == r.Panic? && (!panicked ==> Valid() && View() == r.mem && oom == r.NoMemory?)
    {
      hide GetFree, Memory.PutPage, Memory.FreePage, TablesInRange, BytesInRange;
      var tmp := GetFreePage();
      if tmp == 0 {
        return true, false;
      }
      var got := PutPage(tmp, address);
      if got == 0 {
        var ok := FreePage(tmp);
        return true, !ok;
      }
      return false, false;
    }

    // un_wp_page on the entry nr of a table; true when it calls oom.
    method UnWpPage(table: int, nr: int) returns (oom: bool)
      requires Valid() && 0 <= table < tables.Length && 0 <= nr < PT && tables[table][nr].Present?
      modifies memMap, tables, frames
      ensures var r := UnWp(old(View()), table, nr);
        Valid() && View() == r.mem && oom == r.NoMemory?
    {
      hide GetFree, BytesInRange;
      var oldPage := tables[table][nr].frame;
      if oldPage >= LOW && memMap[oldPage - LOW] == 1 {
        tables[table] := tables[table][nr := Present(oldPage, true)];
        assert View() == UnWp(old(View()), table, nr).mem;
        return false;
      }
      var newPage := GetFreePage();
      if newPage == 0 {
        return true;
      }
      if oldPage >= LOW {
        memMap[oldPage - LOW] := (memMap[oldPage - LOW] + 255) % 256;
      }
      tables[table] := tables[table][nr := Present(newPage, true)];
      frames[newPage] := frames[oldPage];
      assert View() == UnWp(old(View()), table, nr).mem;
      return false;
    }

    // write_verify: a present page that is not writable is unshared before the kernel writes it.
    method WriteVerify(address: int) returns (oom: bool)
      requires Valid() && 0 <= address < SLOTS * SLOT_DIRS * 0x400000
      modifies memMap, tables, frames
      ensures var r := Verified(old(View()), address / 0x400000, address / 0x1000 % 0x400);
        Valid() && View() == r.mem && oom == r.NoMemory?
    {
      hide UnWp;
      var dir := address / 0x400000;
      if pgDir[dir].Absent? {
        return false;
      }
      var nr := address / 0x1000 % 0x400;
      var table := pgDir[dir].frame;
      var e := tables[table][nr];
      if e.Present? && !e.rw {
        oom := UnWpPage(table, nr);
        return;
      }
      return false;
    }

    // do_wp_page, called by the processor on a write to a present page that is not writable.
    method DoWpPage(address: int) returns (oom: bool)
      requires Valid() && 0 <= address < SLOTS * SLOT_DIRS * 0x400000
      requires Entry(View(), address / 0x400000, address / 0x1000 % 0x400).Present?
      modifies memMap, tables, frames
      ensures var r := UnWp(old(View()), old(pgDir[address / 0x400000].frame), address / 0x1000 % 0x400);
        Valid() && View() == r.mem && oom == r.NoMemory?
    {
      hide UnWp;
      oom := UnWpPage(pgDir[address / 0x400000].frame, address / 0x1000 % 0x400);
    }
  }

  lemma LemmaFreeStep(s: Mem, t: int, i: int)
    requires Sound(s) && 0 <= t < |s.tab| && 0 <= i < PT
    ensures var r := FreeEntry(s, t, i);
      && (r.Some? ==> Sound(r.value) && |r.value.tab| == |s.tab|)
      && FreeEntries(s, t, i) == if r.None? then None else FreeEntries(r.value, t, i + 1)
  {
    hide FreeEntry, TablesInRange, BytesInRange;
  }

  lemma LemmaFreeLast(s: Mem, t: int)
    requires Sound(s) && 0 <= t < |s.tab|
    ensures FreeEntries(s, t, PT) == Some(s)
  {
  }

  lemma LemmaDirSize(s: Mem)
    requires Sound(s)
    ensures |s.dir| == SLOTS * SLOT_DIRS
  {
  }

  lemma LemmaCopyStep(s: Mem, fd: int, td: int, n: int, nr: int)
    requires Sound(s) && 0 <= fd && 0 <= td && 0 <= n && fd + n <= |s.dir| && td + n <= |s.dir| && 0 <= nr <= PT
    ensures n == 0 ==> CopyTables(s, fd, td, n, nr) == Done(s)
    ensures n > 0 ==>
      var r := CopyTable(s, fd, td, nr);
      && (!r.Panic? ==> Sound(r.mem))
      && CopyTables(s, fd, td, n, nr) == if r.Done? then CopyTables(r.mem, fd + 1, td + 1, n - 1, nr) else r
  {
    hide CopyTable, TablesInRange, BytesInRange;
  }
}

/** How the runs of CopyOnWrite start: mem_init, then task 0 forks task 1 from the kernel's tables. */
module Boot {
  import opened Memory
  import opened PageLedger
  import opened MemoryAccounting
  import opened Processes
  import opened CopyOnWrite

  // The pages mem_init withholds, each held as often as mem_map says.
  function HeldOf(count: seq<int>, n: int): Held
    requires 0 <= n <= |count| && forall k :: 0 <= k < |count| ==> 0 <= count[k]
  {
    if n == 0 then multiset{} else HeldOf(count, n - 1)[LOW + n - 1 := count[n - 1]]
  }

  lemma {:induction false} LemmaHeldOf(count: seq<int>, n: int)
    requires 0 <= n <= |count| && forall k :: 0 <= k < |count| ==> 0 <= count[k]
    ensures forall k :: 0 <= k < n ==> HeldOf(count, n)[LOW + k] == count[k]
  {
    if n > 0 {
      LemmaHeldOf(count, n - 1);
    }
  }

  const Nothing: Space := Space(map[], map[])

  // mem_init establishes the ledger.
  lemma LemmaMemInit(s: Mem, start: int, end: int)
    requires LOW <= start <= end <= LOW + |s.count| && LOW < end && Sound(MemInit(s, start, end))
    requires forall d :: User(d) ==> s.dir[d].Absent?
    ensures var t := MemInit(s, start, end);
      Inv(t, Nothing, HeldOf(t.count, |t.count|)) && forall k :: k in FreeSet(t) <==> start - LOW <= k < end - LOW
  {
    var t := MemInit(s, start, end);
    LemmaHeldOf(t.count, |t.count|);
    forall f | LOW <= f < LOW + |t.count|
      ensures Counted(Nothing, t.count, HeldOf(t.count, |t.count|), f)
    {
      assert HeldOf(t.count, |t.count|)[LOW + (f - LOW)] == t.count[f - LOW];
      assert PageRefs(Nothing, f) == {} && TableRefs(Nothing, f) == {};
    }
  }

  // The kernel's table of the low memory: none of its first 160 entries is in main memory.
  predicate KernelTable(s: Mem, kt: int)
    requires Sound(s)
  {
    0 <= kt < LOW && forall j :: 0 <= j < 0xA0 && s.tab[kt][j].Present? ==> s.tab[kt][j].frame < LOW
  }

  function FromKernel(s: Mem, kt: int, td: int, i: int, v: Place): Pte
    requires Sound(s) && 0 <= kt < |s.tab| && 0 <= i
  {
    if v.0 == td && i <= v.1 < 0xA0 && s.tab[kt][v.1].Present? then Present(s.tab[kt][v.1].frame, false) else At(s, v)
  }

  lemma LemmaKernelEntry(s: Mem, sp: Space, held: Held, kt: int, td: int, i: int) returns (sp': Space)
    requires Inv(s, sp, held) && KernelTable(s, kt) && td in sp.tables && 0 <= i < 0xA0 && At(s, (td, i)).Absent?
    ensures var t := CopyEntry(s, kt, s.dir[td].frame, i);
      && Inv(t, sp', held) && sp'.tables == sp.tables && KernelTable(t, kt) && t.tab[kt] == s.tab[kt]
      && t.high == s.high && |t.count| == |s.count|
      && (forall v :: At(t, v) == if v == (td, i) then FromKernel(s, kt, td, i, v) else At(s, v))
  {
    hide Ledger, BytesInRange;
    var v := (td, i);
    sp' := sp;
    if s.tab[kt][i].Present? {
      var f := s.tab[kt][i].frame;
      sp' := sp.(pages := sp.pages[v := Ref(f, false)]);
      LemmaShareKernelPage(sp, s.high, s.count, held, v, f);
      LemmaSetEntry(s, sp, held, v, Present(f, false));
      LemmaKernelTableKept(s, sp, held, kt, td, i);
    }
  }

  lemma LemmaKernelTableKept(s: Mem, sp: Space, held: Held, kt: int, td: int, i: int)
    requires Inv(s, sp, held) && KernelTable(s, kt) && td in sp.tables && 0 <= i < 0xA0 && s.tab[kt][i].Present?
    ensures CopyEntry(s, kt, s.dir[td].frame, i) == SetEntry(s, s.dir[td].frame, i, Present(s.tab[kt][i].frame, false))
    ensures var t := CopyEntry(s, kt, s.dir[td].frame, i); t.tab[kt] == s.tab[kt] && KernelTable(t, kt)
  {
    hide Counts, PagesShared, ExclusiveWriters;
    assert s.dir[td].frame >= LOW;
  }

  lemma {:induction false} LemmaKernelEntries(s: Mem, sp: Space, held: Held, kt: int, td: int, i: int) returns (sp': Space)
    requires Inv(s, sp, held) && KernelTable(s, kt) && td in sp.tables && 0 <= i <= 0xA0
    requires forall j :: i <= j < 0xA0 ==> At(s, (td, j)).Absent?
    ensures var t := CopyEntries(s, kt, s.dir[td].frame, i, 0xA0);
      && Inv(t, sp', held) && sp'.tables == sp.tables && t.high == s.high && |t.count| == |s.count|
      && (forall v :: At(t, v) == FromKernel(s, kt, td, i, v))
    decreases 0xA0 - i
  {
    hide Ledger, CopyEntry, At, TablesInRange, BytesInRange;
    sp' := sp;
    if i < 0xA0 {
      var sp1 := LemmaKernelEntry(s, sp, held, kt, td, i);
      var s1 := CopyEntry(s, kt, s.dir[td].frame, i);
      sp' := LemmaKernelEntries(s1, sp1, held, kt, td, i + 1);
      var t := CopyEntries(s1, kt, s.dir[td].frame, i + 1, 0xA0);
      forall v
        ensures At(t, v) == FromKernel(s, kt, td, i, v)
      {
        assert At(t, v) == FromKernel(s1, kt, td, i + 1, v);
      }
    }
  }

  // What task 1 reads after the first fork: the kernel's pages below 640 kB.
  function KernelBytes(s: Mem, kt: int): map<Place, Page>
    requires Sound(s) && 0 <= kt < |s.tab|
  {
    map v | v in (set j | 0 <= j < 0xA0 && s.tab[kt][j].Present? :: (SLOT_DIRS, j)) :: s.data[s.tab[kt][v.1].frame]
  }

  function FirstEager(s: Mem, kt: int): Eager
    requires Sound(s) && 0 <= kt < |s.tab|
  {
    Eager(KernelBytes(s, kt), seq(SLOTS, k => if k == 1 then Running(1) else Nobody))
  }

  /** The fork that makes task 1 establishes everything CopyOnWrite.LemmaRefinesEagerCopy needs. */
  lemma LemmaFirstFork(s: Sys, held: Held, kt: int) returns (sp': Space, held': Held)
    requires WellFormed(s) && Inv(s.mem, Nothing, held) && s.tasks[0] == Live(0, 1, 1)
    requires forall k :: 1 <= k < SLOTS ==> s.tasks[k].NoTask?
    requires KernelTable(s.mem, kt) && s.mem.dir[0] == Present(kt, true)
    requires Fork(s, 0).1.Ok?
    ensures SysInv(Fork(s, 0).0, sp', held') && Agrees(Fork(s, 0).0, FirstEager(s.mem, kt))
  {
    hide Ledger, TablesInRange, BytesInRange, GetFree, CopyEntries;
    assert FirstFree(s.tasks, 1) == 1;
    LemmaGetFree(s.mem, Nothing, held);
    var (m, p) := GetFree(s.mem);
    held' := held + multiset{p};
    LemmaNewTable(m, Nothing, held', SLOT_DIRS);
    LemmaGetFree(m, Nothing, held');
    var (m1, tt) := GetFree(m);
    var m2 := SetDir(m1, SLOT_DIRS, Present(tt, true));
    LemmaOneTable(m, kt);
    var sp2 := Nothing.(tables := Nothing.tables[SLOT_DIRS := tt]);
    assert KernelTable(m2, kt);
    assert m2.tab[kt] == s.mem.tab[kt];
    sp' := LemmaKernelEntries(m2, sp2, held', kt, SLOT_DIRS, 0);
    var t := CopyEntries(m2, kt, tt, 0, 0xA0);
    LemmaFirstPeeks(s.mem, kt, m2, t);
  }

  lemma LemmaOneTable(m: Mem, kt: int)
    requires Sound(m) && m.dir[0] == Present(kt, true) && m.dir[SLOT_DIRS].Absent?
    ensures var r := CopyTables(m, 0, SLOT_DIRS, 1, 0xA0);
      var (m1, tt) := GetFree(m);
      r == if tt == 0 then NoMemory(m1) else Done(CopyEntries(SetDir(m1, SLOT_DIRS, Present(tt, true)), kt, tt, 0, 0xA0))
  {
  }

  lemma LemmaFirstPeeks(s: Mem, kt: int, m2: Mem, t: Mem)
    requires Sound(s) && Sound(m2) && Sound(t) && KernelTable(s, kt) && |m2.tab| == |s.tab| == |t.tab|
    requires m2.tab[kt] == s.tab[kt] && t.data == m2.data
    requires forall f :: 0 <= f < LOW ==> m2.data[f] == s.data[f]
    requires forall v :: At(m2, v) == Absent
    requires forall v :: At(t, v) == FromKernel(m2, kt, SLOT_DIRS, 0, v)
    ensures forall v :: Peek(t, v) == Look(KernelBytes(s, kt), v)
  {
    forall v
      ensures Peek(t, v) == Look(KernelBytes(s, kt), v)
    {
      assert v in KernelBytes(s, kt) <==> v.0 == SLOT_DIRS && 0 <= v.1 < 0xA0 && s.tab[kt][v.1].Present?;
    }
  }
}

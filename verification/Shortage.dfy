/** When memory is out: what get_free_page, put_page, get_empty_page, un_wp_page, write_verify,
    verify_area and copy_page_tables answer, as a matter of how many bytes of mem_map are 0. */
module Shortage {
  import opened Basics
  import opened Bytes
  import opened Wrappers
  import opened Memory
  import opened PageLedger
  import opened MemoryAccounting

  lemma LemmaTaken(s: Mem)
    requires Sound(s)
    ensures GetFree(s).1 == 0 <==> FreeSet(s) == {}
    ensures GetFree(s).1 != 0 ==>
      && GetFree(s).1 - LOW in FreeSet(s) && FreeSet(GetFree(s).0) == FreeSet(s) - {GetFree(s).1 - LOW}
      && |FreeSet(GetFree(s).0)| == |FreeSet(s)| - 1
  {
    hide TablesInRange;
    var k := LastZero(s.count, |s.count|);
    if k >= 0 {
      assert k in FreeSet(s);
    }
  }

  // un_wp_page's answer for the only user of a page of main memory.
  predicate Sole(s: Mem, t: int, i: int)
    requires Sound(s) && 0 <= t < |s.tab| && 0 <= i < PT && s.tab[t][i].Present?
  {
    LOW <= s.tab[t][i].frame && s.count[s.tab[t][i].frame - LOW] == 1
  }

  // un_wp_page: the only user needs no page, anyone else needs one.
  lemma LemmaUnWpShort(s: Mem, t: int, i: int)
    requires Sound(s) && 0 <= t < |s.tab| && 0 <= i < PT && s.tab[t][i].Present?
    ensures UnWp(s, t, i).NoMemory? <==> FreeSet(s) == {} && !Sole(s, t, i)
    ensures UnWp(s, t, i).NoMemory? ==> UnWp(s, t, i).mem == s
    ensures Sole(s, t, i) ==> UnWp(s, t, i).mem.count == s.count && UnWp(s, t, i).mem.tab[t][i] == Present(s.tab[t][i].frame, true)
  {
    LemmaTaken(s);
    hide GetFree;
  }

  // put_page needs a page exactly if there is no table.
  lemma LemmaPutShort(s: Mem, f: int, d: int, i: int)
    requires Sound(s) && 0 <= f < s.high && 0 <= d < |s.dir| && 0 <= i < PT
    ensures PutPage(s, f, d, i).1 <==> s.dir[d].Present? || FreeSet(s) != {}
  {
    hide TablesInRange, BytesInRange;
    LemmaTaken(s);
  }

  // The pages get_empty_page needs for a place of the directory entry d.
  function Needed(s: Mem, d: int): int
    requires 0 <= d < |s.dir|
  {
    if s.dir[d].Present? then 1 else 2
  }

  lemma LemmaEmptyShort(s: Mem, d: int, i: int)
    requires Sound(s) && 0 <= d < |s.dir| && 0 <= i < PT
    ensures !GetEmpty(s, d, i).Panic?
    ensures GetEmpty(s, d, i).NoMemory? <==> |FreeSet(s)| < Needed(s, d)
  {
    hide TablesInRange, BytesInRange, PutPage;
    LemmaTaken(s);
    var (s1, f) := GetFree(s);
    if f != 0 {
      LemmaPutShort(s1, f, d, i);
      LemmaTaken(s1);
      LemmaPutFails(s1, f, d, i);
    }
  }

  lemma LemmaPutFails(s: Mem, f: int, d: int, i: int)
    requires Sound(s) && LOW <= f < s.high && s.count[f - LOW] == 1 && 0 <= d < |s.dir| && 0 <= i < PT
    ensures !PutPage(s, f, d, i).1 ==> PutPage(s, f, d, i).0 == s && FreePage(s, f).Some?
  {
    hide TablesInRange;
  }

  // ---------------------------------------------------------------- copy_page_tables

  // How many of the n directory entries from d on have a table.
  function Tables(dir: seq<Pte>, d: int, n: int): (r: int)
    requires 0 <= d && 0 <= n && d + n <= |dir|
    ensures 0 <= r <= n
    decreases n
  {
    if n == 0 then 0 else (if dir[d].Present? then 1 else 0) + Tables(dir, d + 1, n - 1)
  }

  lemma {:induction false} LemmaSameCount(dir: seq<Pte>, dir': seq<Pte>, d: int, n: int)
    requires 0 <= d && 0 <= n && d + n <= |dir| && |dir'| == |dir|
    requires forall e :: d <= e < d + n ==> dir'[e] == dir[e]
    ensures Tables(dir', d, n) == Tables(dir, d, n)
    decreases n
  {
    if n > 0 {
      LemmaSameCount(dir, dir', d + 1, n - 1);
    }
  }

  lemma LemmaOneEntry(s: Mem, fd: int, td: int)
    requires Sound(s) && 0 <= fd < |s.dir| && 0 <= td < |s.dir| && CopyTable(s, fd, td, PT).Done?
    ensures var t := CopyTable(s, fd, td, PT).mem; |t.dir| == |s.dir| && forall e :: 0 <= e < |s.dir| && e != td ==> t.dir[e] == s.dir[e]
  {
    hide TablesInRange, BytesInRange, CopyEntries;
  }

  // copy_page_tables takes one page for every table of the source and fails exactly for want of them.
  lemma {:induction false} LemmaCopyShort(s: Mem, sp: Space, held: Held, fd: int, td: int, n: int)
    requires Inv(s, sp, held) && SLOT_DIRS <= fd && SLOT_DIRS <= td && 0 <= n && fd + n <= |s.dir| && td + n <= |s.dir|
    requires fd + n <= td || td + n <= fd
    requires fd % SLOT_DIRS == td % SLOT_DIRS && Vacant(sp, td, n)
    ensures CopyTables(s, fd, td, n, PT).NoMemory? <==> |FreeSet(s)| < Tables(s.dir, fd, n)
    decreases n
  {
    hide Inv, At, TablesInRange, BytesInRange, CopyTable, CopyTables, FrameAt, Reflects, Kept, Copied, Vacant, Sound, FreeSet;
    LemmaInv(s, sp, held);
    LemmaCopyTablesOnce(s, fd, td, n);
    if n > 0 {
      assert Vacant(sp, td, 1) && td !in sp.tables by { LemmaVacantParts(sp, td, n); }
      LemmaTaken(s);
      var sp1 := LemmaCopyTable(s, sp, held, fd, td);
      var r1 := CopyTable(s, fd, td, PT);
      if r1.Done? {
        LemmaStillVacant(s, sp, r1.mem, sp1, td, n);
        LemmaNextPlace(fd, td);
        LemmaOneEntry(s, fd, td);
        LemmaSameCount(s.dir, r1.mem.dir, fd + 1, n - 1);
        LemmaCopyShort(r1.mem, sp1, held, fd + 1, td + 1, n - 1);
      }
    }
  }

  // ---------------------------------------------------------------- verify_area

  // The linear page v is mapped, may not be written, and its page is not only its own.
  predicate Unresolved(s: Mem, v: Place)
    requires Sound(s)
  {
    User(v.0) && 0 <= v.1 < PT && Entry(s, v.0, v.1).Present? && !Entry(s, v.0, v.1).rw && !Sole(s, s.dir[v.0].frame, v.1)
  }

  lemma LemmaVerifiedShort(s: Mem, v: Place)
    requires Sound(s) && User(v.0) && 0 <= v.1 < PT
    ensures Verified(s, v.0, v.1).NoMemory? <==> FreeSet(s) == {} && Unresolved(s, v)
    ensures Verified(s, v.0, v.1).NoMemory? ==> Verified(s, v.0, v.1).mem == s
  {
    hide BytesInRange, UnWp;
    if s.dir[v.0].Present? && s.tab[s.dir[v.0].frame][v.1].Present? {
      LemmaUnWpShort(s, s.dir[v.0].frame, v.1);
    }
  }

  // verify_area gives up exactly where no page is left for a page of the area that needs one.
  lemma {:induction false} LemmaVerifyShort(s: Mem, page: int, n: nat)
    requires Sound(s) && SLOT_DIRS * PT <= page && page + n <= SLOTS * SLOT_DIRS * PT
    ensures var r := VerifyPages(s, page, n);
      r.NoMemory? ==> FreeSet(r.mem) == {} && exists v :: Unresolved(r.mem, v) && page <= v.0 * PT + v.1 < page + n
    decreases n
  {
    hide Sound, Verified, FreeSet;
    if n > 0 {
      assert |s.dir| == SLOTS * SLOT_DIRS by { LemmaSizes(s); }
      assert page % (SLOTS * SLOT_DIRS * PT) == page;
      var v := (page / PT, page % PT);
      LemmaVerifiedShort(s, v);
      assert v.0 * PT + v.1 == page;
      var r1 := Verified(s, v.0, v.1);
      if r1.Done? {
        LemmaVerifyShort(r1.mem, page + 1, n - 1);
      }
    }
  }
}

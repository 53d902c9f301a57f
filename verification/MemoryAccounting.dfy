/** mm/memory.c keeps the page ledger, and what each operation means for the users' bytes. */
module MemoryAccounting {
  import opened Basics
  import opened Bytes
  import opened Wrappers
  import opened Memory
  import opened PageLedger

  predicate User(d: int) { SLOT_DIRS <= d < SLOTS * SLOT_DIRS }

  // The entry that translates the linear page v, for places in the task slots.
  function At(s: Mem, v: Place): Pte
    requires Sound(s)
  {
    if User(v.0) && 0 <= v.1 < PT then Entry(s, v.0, v.1) else Absent
  }

  // sp is the users' part of the page directory and tables of s.
  ghost predicate Reflects(s: Mem, sp: Space)
    requires Sound(s)
  {
    && (forall v :: v in sp.pages <==> At(s, v).Present?)
    && (forall v :: v in sp.pages ==> At(s, v) == Present(sp.pages[v].frame, sp.pages[v].rw))
    && (forall d :: d in sp.tables <==> User(d) && s.dir[d].Present?)
    && (forall d :: d in sp.tables ==> s.dir[d].frame == sp.tables[d])
  }

  ghost predicate Inv(s: Mem, sp: Space, held: Held) {
    Sound(s) && Reflects(s, sp) && Ledger(sp, s.high, s.count, held)
  }

  // What a user reads at the linear page v.
  function Peek(s: Mem, v: Place): Option<Page>
    requires Sound(s)
  {
    if At(s, v).Present? then Some(s.data[At(s, v).frame]) else None
  }

  // ---------------------------------------------------------------- get_free_page, free_page

  // f is free in s; in t it is held once and cleared, and no user can tell the difference.
  ghost predicate Took(s: Mem, sp: Space, held: Held, t: Mem, f: int)
    requires Sound(s) && Sound(t)
  {
    && LOW <= f < s.high && s.count[f - LOW] == 0 && held[f] == 0
    && t == s.(count := s.count[f - LOW := 1], tab := s.tab[f := seq(PT, _ => Absent)], data := s.data[f := ZeroPage()])
    && Inv(t, sp, held + multiset{f})
    && (forall v :: At(s, v) == At(t, v) && (At(t, v).Present? ==> At(t, v).frame != f))
    && (forall d :: User(d) && s.dir[d].Present? ==> s.dir[d].frame != f)
  }

  lemma LemmaGetFree(s: Mem, sp: Space, held: Held)
    requires Inv(s, sp, held)
    ensures GetFree(s).1 == 0 ==> GetFree(s).0 == s && forall k :: 0 <= k < |s.count| ==> s.count[k] != 0
    ensures GetFree(s).1 != 0 ==>
      && Took(s, sp, held, GetFree(s).0, GetFree(s).1)
      && forall k :: GetFree(s).1 - LOW < k < |s.count| ==> s.count[k] != 0
  {
    var (t, f) := GetFree(s);
    if f != 0 {
      LemmaTake(sp, s.high, s.count, held, f);
      LemmaUnreferenced(sp, s.high, s.count, held, f);
      forall v
        ensures At(s, v) == At(t, v) && (At(t, v).Present? ==> At(t, v).frame != f)
      {
        assert v.0 in sp.tables ==> sp.tables[v.0] != f;
      }
    }
  }

  lemma LemmaFreePage(s: Mem, sp: Space, held: Held, f: int)
    requires Inv(s, sp, held) && LOW <= f < s.high && f in held
    ensures FreePage(s, f).Some? && Inv(FreePage(s, f).value, sp, held - multiset{f})
    ensures forall v :: At(FreePage(s, f).value, v) == At(s, v)
  {
    LemmaReturn(sp, s.high, s.count, held, f);
  }

  // ---------------------------------------------------------------- entries and tables

  // Tables are private, so writing one entry changes one translation.
  lemma LemmaSetEntry(s: Mem, sp: Space, held: Held, v: Place, e: Pte)
    requires Inv(s, sp, held) && v.0 in sp.tables && 0 <= v.1 < PT
    requires e.Present? ==> 0 <= e.frame < s.high
    ensures var t := SetEntry(s, s.dir[v.0].frame, v.1, e);
      forall w :: At(t, w) == if w == v then e else At(s, w)
  {
    var t := SetEntry(s, s.dir[v.0].frame, v.1, e);
    forall w
      ensures At(t, w) == if w == v then e else At(s, w)
    {
      if w.0 in sp.tables && w.0 != v.0 {
        assert s.dir[w.0].frame != s.dir[v.0].frame;
      }
    }
  }

  lemma LemmaFreeEntry(s: Mem, sp: Space, held: Held, v: Place)
    requires Inv(s, sp, held) && v.0 in sp.tables && 0 <= v.1 < PT
    ensures FreeEntry(s, s.dir[v.0].frame, v.1).Some?
    ensures var t := FreeEntry(s, s.dir[v.0].frame, v.1).value;
      Inv(t, sp.(pages := sp.pages - {v}), held) && forall w :: At(t, w) == if w == v then Absent else At(s, w)
  {
    hide Ledger, TablesInRange, BytesInRange, Reflects, FreeEntry, FreePage;
    if v in sp.pages {
      LemmaFreeMapped(s, sp, held, v);
    } else {
      LemmaFreeUnmapped(s, sp, held, v);
      assert sp.pages - {v} == sp.pages;
    }
  }

  lemma LemmaFreeUnmapped(s: Mem, sp: Space, held: Held, v: Place)
    requires Inv(s, sp, held) && v.0 in sp.tables && 0 <= v.1 < PT && v !in sp.pages
    ensures 0 <= s.dir[v.0].frame < |s.tab| && FreeEntry(s, s.dir[v.0].frame, v.1) == Some(SetEntry(s, s.dir[v.0].frame, v.1, Absent))
    ensures At(s, v).Absent? && forall w :: At(SetEntry(s, s.dir[v.0].frame, v.1, Absent), w) == At(s, w)
    ensures Inv(SetEntry(s, s.dir[v.0].frame, v.1, Absent), sp, held)
  {
    hide Ledger;
    LemmaSetEntry(s, sp, held, v, Absent);
  }

  lemma LemmaFreeMapped(s: Mem, sp: Space, held: Held, v: Place)
    requires Inv(s, sp, held) && v in sp.pages && v.0 in sp.tables && 0 <= v.1 < PT
    ensures FreeEntry(s, s.dir[v.0].frame, v.1).Some?
    ensures var t := FreeEntry(s, s.dir[v.0].frame, v.1).value;
      Inv(t, sp.(pages := sp.pages - {v}), held) && forall w :: At(t, w) == if w == v then Absent else At(s, w)
  {
    hide Ledger, TablesInRange, BytesInRange, FreePage;
    LemmaSetEntry(s, sp, held, v, Absent);
    LemmaEntryIs(s, sp, v);
    LemmaDropPage(sp, s.high, s.count, held, v);
    LemmaPlace(sp, s.high, s.count, held, v);
    LemmaDropped(s, sp.pages[v].frame);
    var s1 := FreePage(s, sp.pages[v].frame).value;
    var t := SetEntry(s1, s.dir[v.0].frame, v.1, Absent);
    assert t == SetEntry(s, s.dir[v.0].frame, v.1, Absent).(count := s1.count);
    LemmaSameTables(SetEntry(s, s.dir[v.0].frame, v.1, Absent), t);
  }

  lemma LemmaDropped(s: Mem, f: int)
    requires Sound(s) && f < s.high && (f >= LOW ==> s.count[f - LOW] > 0)
    ensures FreePage(s, f) == Some(s.(count := Dropped(s.count, f)))
  {
  }

  lemma LemmaSameTables(s: Mem, t: Mem)
    requires Sound(s) && Sound(t) && t.dir == s.dir && t.tab == s.tab
    ensures forall v :: At(t, v) == At(s, v)
  {
  }

  lemma LemmaDetachDir(s: Mem, sp: Space, held: Held, d: int)
    requires Inv(s, sp, held) && d in sp.tables
    requires forall v: Place :: v.0 == d ==> At(s, v).Absent?
    ensures FreePage(s, s.dir[d].frame).Some?
    ensures var t := FreePage(s, s.dir[d].frame).value.(dir := s.dir[d := Absent]);
      Inv(t, sp.(tables := sp.tables - {d}), held) && forall v :: At(t, v) == At(s, v)
  {
    hide Ledger;
    forall v | v in sp.pages
      ensures v.0 != d
    {
      assert At(s, v).Present?;
    }
    PageLedger.LemmaDetachTable(sp, s.high, s.count, held, d);
    var t := FreePage(s, s.dir[d].frame).value.(dir := s.dir[d := Absent]);
    forall v
      ensures At(t, v) == At(s, v)
    {
      assert v.0 == d ==> At(s, v).Absent?;
    }
  }

  // ---------------------------------------------------------------- free_page_tables

  lemma LemmaPlaces(s: Mem, sp: Space, held: Held)
    requires Inv(s, sp, held)
    ensures forall v :: v in sp.pages ==> v.0 in sp.tables && User(v.0) && 0 <= v.1 < PT
  {
  }

  lemma LemmaDirectory(s: Mem, sp: Space, d: int)
    requires Sound(s) && Reflects(s, sp) && User(d)
    ensures d in sp.tables <==> s.dir[d].Present?
    ensures forall t, v: Place :: Sound(t) && v.1 < 0 ==> At(t, v).Absent?
    ensures s.dir[d].Absent? ==> forall v: Place :: v.0 == d ==> At(s, v).Absent? && v !in sp.pages
  {
  }

  predicate Within(v: Place, d: int, n: int) { d <= v.0 < d + n }

  function Row(sp: Space, d: int, i: int): set<Place> {
    set v | v in sp.pages && v.0 == d && i <= v.1
  }

  lemma {:induction false} LemmaFreeEntries(s: Mem, sp: Space, held: Held, d: int, i: int)
    requires Inv(s, sp, held) && d in sp.tables && 0 <= i <= PT
    ensures FreeEntries(s, s.dir[d].frame, i).Some?
    ensures var t := FreeEntries(s, s.dir[d].frame, i).value;
      && Inv(t, sp.(pages := sp.pages - Row(sp, d, i)), held)
      && (forall v :: At(t, v) == if v.0 == d && i <= v.1 then Absent else At(s, v))
    decreases PT - i
  {
    hide Ledger, FreeEntry, TablesInRange, BytesInRange, At;
    if i < PT {
      LemmaFreeEntry(s, sp, held, (d, i));
      var s1 := FreeEntry(s, s.dir[d].frame, i).value;
      var sp1 := sp.(pages := sp.pages - {(d, i)});
      LemmaFreeEntries(s1, sp1, held, d, i + 1);
      assert sp1.pages - Row(sp1, d, i + 1) == sp.pages - Row(sp, d, i);
    } else {
      LemmaPlaces(s, sp, held);
      assert Row(sp, d, i) == {};
      assert sp.pages - Row(sp, d, i) == sp.pages;
    }
  }

  // The space without the directory entries [d, d + n).
  function Unmapped(sp: Space, d: int, n: int): Space {
    Space(sp.pages - (set v | v in sp.pages && Within(v, d, n)), sp.tables - (set e | e in sp.tables && d <= e < d + n))
  }

  lemma LemmaFreeTable(s: Mem, sp: Space, held: Held, d: int)
    requires Inv(s, sp, held) && User(d)
    ensures FreeTable(s, d).Some?
    ensures var t := FreeTable(s, d).value;
      Inv(t, Unmapped(sp, d, 1), held) && forall v :: At(t, v) == if v.0 == d then Absent else At(s, v)
  {
    hide Ledger, FreeEntries, FreePage, TablesInRange, BytesInRange, At, Reflects;
    LemmaPlaces(s, sp, held);
    LemmaDirectory(s, sp, d);
    if s.dir[d].Absent? {
      assert Unmapped(sp, d, 1) == sp;
    } else {
      LemmaFreeEntries(s, sp, held, d, 0);
      var s1 := FreeEntries(s, s.dir[d].frame, 0).value;
      var sp1 := sp.(pages := sp.pages - Row(sp, d, 0));
      LemmaDetachDir(s1, sp1, held, d);
      assert Unmapped(sp, d, 1) == sp1.(tables := sp1.tables - {d});
    }
  }

  lemma LemmaSizes(s: Mem)
    requires Sound(s)
    ensures |s.dir| == SLOTS * SLOT_DIRS && |s.tab| == |s.data| == LOW + |s.count|
  {
  }

  lemma LemmaWithoutTwice(sp: Space, d: int, n: int)
    requires n > 0
    ensures Unmapped(Unmapped(sp, d, 1), d + 1, n - 1) == Unmapped(sp, d, n)
  {
  }

  // free_page_tables never panics, unmaps exactly its range, and keeps the ledger.
  lemma {:induction false} LemmaFreeTables(s: Mem, sp: Space, held: Held, d: int, n: int)
    requires Inv(s, sp, held) && SLOT_DIRS <= d && 0 <= n && d + n <= |s.dir|
    ensures FreeTables(s, d, n).Some?
    ensures var t := FreeTables(s, d, n).value;
      Inv(t, Unmapped(sp, d, n), held) && (forall v :: At(t, v) == if Within(v, d, n) then Absent else At(s, v))
    decreases n
  {
    hide Ledger, FreeTable, TablesInRange, BytesInRange, At, Reflects;
    if n == 0 {
      assert Unmapped(sp, d, n) == sp;
    } else {
      assert |s.dir| == SLOTS * SLOT_DIRS by { LemmaSizes(s); }
      LemmaFreeTable(s, sp, held, d);
      var s1 := FreeTable(s, d).value;
      LemmaFreeTables(s1, Unmapped(sp, d, 1), held, d + 1, n - 1);
      LemmaWithoutTwice(sp, d, n);
    }
  }

  // ---------------------------------------------------------------- copy_page_tables

  // The translation after one round of copy_page_tables on the present entry of v.
  function CopiedAt(s: Mem, v: Place, w: Place, x: Place): Pte
    requires Sound(s) && At(s, v).Present?
  {
    var f := At(s, v).frame;
    if x == w || (x == v && f >= LOW) then Present(f, false) else At(s, x)
  }

  lemma LemmaCopyEntryAt(s: Mem, sp: Space, held: Held, v: Place, w: Place)
    requires Inv(s, sp, held) && v in sp.pages && w.0 in sp.tables && w !in sp.pages && SamePlace(v, w)
    requires sp.pages[v].frame >= LOW ==> s.count[sp.pages[v].frame - LOW] < SLOTS
    ensures var t := CopyEntry(s, s.dir[v.0].frame, s.dir[w.0].frame, v.1);
      && (forall x :: At(t, x) == CopiedAt(s, v, w, x))
      && t == s.(count := t.count, tab := t.tab) && t.count == SharedCount(s.count, sp.pages[v].frame)
  {
    hide Counts, TablesPrivate, ExclusiveWriters, PagesShared, TablesInRange, BytesInRange, CopyEntry;
    var f := sp.pages[v].frame;
    var ro := Present(f, false);
    LemmaEntryIs(s, sp, v);
    LemmaPlace(sp, s.high, s.count, held, v);
    LemmaWriteTwo(s, sp, held, v, w, ro);
    var s1 := SetEntry(s, s.dir[w.0].frame, w.1, ro);
    var s2 := SetEntry(s1, s.dir[v.0].frame, v.1, ro);
    LemmaCopyEntryIs(s, s.dir[v.0].frame, s.dir[w.0].frame, v.1);
    var t := CopyEntry(s, s.dir[v.0].frame, s.dir[w.0].frame, v.1);
    LemmaSameTables(if f >= LOW then s2 else s1, t);
  }

  // copy_page_tables's inner loop on one present entry, whose page has fewer users than a byte counts.
  lemma LemmaCopyEntryIs(s: Mem, ft: int, tt: int, i: int)
    requires Sound(s) && 0 <= ft < |s.tab| && 0 <= tt < |s.tab| && 0 <= i < PT && s.tab[ft][i].Present?
    requires var f := s.tab[ft][i].frame; f < s.high && (f >= LOW ==> s.count[f - LOW] < SLOTS)
    ensures var f := s.tab[ft][i].frame;
      var ro := Present(f, false);
      var s1 := SetEntry(s, tt, i, ro);
      var s2 := SetEntry(s1, ft, i, ro);
      CopyEntry(s, ft, tt, i) == if f >= LOW then s2.(count := s.count[f - LOW := s.count[f - LOW] + 1]) else s1
  {
    hide TablesInRange;
  }

  lemma LemmaReflectsShared(s: Mem, sp: Space, t: Mem, v: Place, w: Place)
    requires Sound(s) && Sound(t) && Reflects(s, sp) && v in sp.pages && t.dir == s.dir
    requires forall x :: At(t, x) == CopiedAt(s, v, w, x)
    ensures Reflects(t, Shared(sp, v, w))
  {
    hide Sound, At;
  }

  // One entry: the page gets a second user and neither may write it; the count byte does not wrap.
  lemma LemmaCopyEntry(s: Mem, sp: Space, held: Held, v: Place, w: Place) returns (sp': Space)
    requires Inv(s, sp, held) && v.0 in sp.tables && w.0 in sp.tables && w !in sp.pages && SamePlace(v, w) && 0 <= v.1 < PT
    ensures var t := CopyEntry(s, s.dir[v.0].frame, s.dir[w.0].frame, v.1);
      Inv(t, sp', held) && sp'.tables == sp.tables && SameButCopied(s, t, v.0, w.0, v.1, v.1 + 1) && FreeSet(t) == FreeSet(s)
  {
    hide Counts, PagesShared, ExclusiveWriters, At, TablesInRange, BytesInRange;
    var t := CopyEntry(s, s.dir[v.0].frame, s.dir[w.0].frame, v.1);
    if v !in sp.pages {
      LemmaNothingToCopy(s, sp, v, w);
      sp' := sp;
    } else {
      sp' := Shared(sp, v, w);
      LemmaShare(sp, s.high, s.count, held, v, w);
      LemmaCopyEntryAt(s, sp, held, v, w);
      LemmaReflectsShared(s, sp, t, v, w);
      assert sp.pages[v].frame < LOW + |s.count| by { LemmaPlace(sp, s.high, s.count, held, v); }
      LemmaSharedFree(s, sp, held, v, t);
    }
  }

  // The free pages, by their places in mem_map.
  function FreeSet(s: Mem): set<int> { set k | 0 <= k < |s.count| && s.count[k] == 0 }

  // A page that gets another user was not free.
  lemma LemmaSharedFree(s: Mem, sp: Space, held: Held, v: Place, t: Mem)
    requires Inv(s, sp, held) && v in sp.pages && sp.pages[v].frame < LOW + |s.count| && t.count == SharedCount(s.count, sp.pages[v].frame)
    ensures FreeSet(t) == FreeSet(s)
  {
    hide PagesShared, TablesPrivate, ExclusiveWriters, TablesInRange, Reflects;
    var f := sp.pages[v].frame;
    if f >= LOW {
      LemmaDropPage(sp, s.high, s.count, held, v);
    }
  }

  lemma LemmaNothingToCopy(s: Mem, sp: Space, v: Place, w: Place)
    requires Sound(s) && Reflects(s, sp) && v.0 in sp.tables && w.0 in sp.tables && 0 <= v.1 < PT
    requires v !in sp.pages && w !in sp.pages && v.1 == w.1
    ensures CopyEntry(s, s.dir[v.0].frame, s.dir[w.0].frame, v.1) == s
    ensures SameButCopied(s, s, v.0, w.0, v.1, v.1 + 1)
  {
    assert At(s, v).Absent? && At(s, w).Absent?;
    forall x: Place | x.0 == w.0 && v.1 <= x.1 < v.1 + 1
      ensures x == w && (v.0, x.1) == v
    {
    }
  }

  lemma LemmaWriteTwo(s: Mem, sp: Space, held: Held, v: Place, w: Place, e: Pte)
    requires Inv(s, sp, held) && v.0 in sp.tables && w.0 in sp.tables && 0 <= v.1 < PT && 0 <= w.1 < PT && v != w
    requires e.Present? && 0 <= e.frame < s.high
    ensures var s1 := SetEntry(s, s.dir[w.0].frame, w.1, e);
      var s2 := SetEntry(s1, s.dir[v.0].frame, v.1, e);
      forall x :: At(s1, x) == (if x == w then e else At(s, x)) && At(s2, x) == if x == w || x == v then e else At(s, x)
  {
    LemmaSetEntry(s, sp, held, w, e);
    var s1 := SetEntry(s, s.dir[w.0].frame, w.1, e);
    var s2 := SetEntry(s1, s.dir[v.0].frame, v.1, e);
    forall x
      ensures At(s2, x) == if x == w || x == v then e else At(s, x)
    {
      assert At(s1, x) == if x == w then e else At(s, x);
      if x.0 in sp.tables && x.0 != v.0 {
        assert s.dir[x.0].frame != s.dir[v.0].frame;
      }
    }
  }

  // The frame of an entry, -1 if absent: what copying keeps when it clears R/W.
  function FrameAt(s: Mem, v: Place): (f: int)
    requires Sound(s)
    ensures -1 <= f < s.high && (f == -1 <==> At(s, v).Absent?)
  {
    if At(s, v).Present? then At(s, v).frame else -1
  }

  ghost predicate SameButCopied(s: Mem, t: Mem, fd: int, td: int, i: int, n: int)
    requires Sound(s) && Sound(t)
  {
    && t == s.(count := t.count, tab := t.tab) && |t.count| == |s.count|
    && (forall v :: FrameAt(t, v) == FrameAt(s, if v.0 == td && i <= v.1 < n then (fd, v.1) else v))
  }

  lemma {:induction false} LemmaCopyEntries(s: Mem, sp: Space, held: Held, fd: int, td: int, i: int) returns (sp': Space)
    requires Inv(s, sp, held) && fd in sp.tables && td in sp.tables && fd != td && 0 <= i <= PT
    requires fd % SLOT_DIRS == td % SLOT_DIRS && forall j :: i <= j < PT ==> FrameAt(s, (td, j)) == -1
    ensures var t := CopyEntries(s, s.dir[fd].frame, s.dir[td].frame, i, PT);
      Inv(t, sp', held) && sp'.tables == sp.tables && SameButCopied(s, t, fd, td, i, PT) && FreeSet(t) == FreeSet(s)
    decreases PT - i
  {
    hide Ledger, CopyEntry, At, TablesInRange, BytesInRange, FreeSet;
    if i == PT {
      sp' := sp;
    } else {
      assert FrameAt(s, (td, i)) == -1;
      var sp1 := LemmaCopyEntry(s, sp, held, (fd, i), (td, i));
      var s1 := CopyEntry(s, s.dir[fd].frame, s.dir[td].frame, i);
      sp' := LemmaCopyEntries(s1, sp1, held, fd, td, i + 1);
    }
  }

  lemma LemmaSetDir(s: Mem, sp: Space, held: Held, d: int, f: int)
    requires Inv(s, sp, held) && User(d) && d !in sp.tables && LOW <= f < s.high && held[f] == 1 && s.count[f - LOW] == 1
    requires s.tab[f] == seq(PT, _ => Absent)
    ensures var t := s.(dir := s.dir[d := Present(f, true)]);
      Inv(t, sp.(tables := sp.tables[d := f]), held - multiset{f}) && forall v :: At(t, v) == At(s, v)
  {
    hide Ledger;
    PageLedger.LemmaAttachTable(sp, s.high, s.count, held, f, d);
    var t := s.(dir := s.dir[d := Present(f, true)]);
    assert Sound(t);
    forall v
      ensures At(t, v) == At(s, v)
    {
    }
  }

  // Outside the directory entries [td, td + n), t has the same pages as s, with the same bytes.
  ghost predicate Kept(s: Mem, sp: Space, t: Mem, sp': Space, td: int, n: int)
    requires Sound(s) && Sound(t)
  {
    && s.high == t.high && |s.tab| == |t.tab| && |s.data| == |t.data|
    && (forall v :: !Within(v, td, n) ==> FrameAt(t, v) == FrameAt(s, v))
    && (forall v :: FrameAt(s, v) >= 0 ==> t.data[FrameAt(s, v)] == s.data[FrameAt(s, v)])
    && (forall d :: !(td <= d < td + n) ==> (d in sp'.tables <==> d in sp.tables))
    && (forall d :: !(td <= d < td + n) && d in sp.tables ==> sp'.tables[d] == sp.tables[d])
  }

  // The linear page that v is a copy of.
  function Source(v: Place, fd: int, td: int, n: int): Place {
    if Within(v, td, n) then (v.0 - td + fd, v.1) else v
  }

  ghost predicate Copied(s: Mem, t: Mem, fd: int, td: int, n: int)
    requires Sound(s) && Sound(t)
  {
    forall v :: FrameAt(t, v) == FrameAt(s, Source(v, fd, td, n))
  }

  // A new, empty table for the directory entry d.
  lemma LemmaNewTable(s: Mem, sp: Space, held: Held, d: int)
    requires Inv(s, sp, held) && User(d) && d !in sp.tables
    ensures GetFree(s).1 == 0 ==> GetFree(s).0 == s
    ensures GetFree(s).1 != 0 ==>
      var (s1, f) := GetFree(s);
      var t := s1.(dir := s1.dir[d := Present(f, true)]);
      var sp' := sp.(tables := sp.tables[d := f]);
      && Inv(t, sp', held) && Kept(s, sp, t, sp', d, 1) && (forall v :: At(t, v) == At(s, v))
      && (forall e :: 0 <= e < |s.dir| && e != d ==> t.dir[e] == s.dir[e])
  {
    hide Ledger, At, TablesInRange, BytesInRange;
    LemmaGetFree(s, sp, held);
    var (s1, f) := GetFree(s);
    if f != 0 {
      assert (held + multiset{f})[f] == 1;
      LemmaSetDir(s1, sp, held + multiset{f}, d, f);
      assert held + multiset{f} - multiset{f} == held;
    }
  }

  lemma LemmaKeptTwice(s: Mem, sp: Space, s1: Mem, sp1: Space, t: Mem, sp': Space, d: int, m: int, e: int, k: int, td: int, n: int)
    requires Sound(s) && Sound(s1) && Sound(t)
    requires Kept(s, sp, s1, sp1, d, m) && Kept(s1, sp1, t, sp', e, k)
    requires td <= d && d + m <= td + n && td <= e && e + k <= td + n
    requires forall v :: Within(v, td, n) ==> FrameAt(s, v) == -1
    ensures Kept(s, sp, t, sp', td, n)
  {
    hide TablesInRange, BytesInRange, At;
    forall v | FrameAt(s, v) >= 0
      ensures t.data[FrameAt(s, v)] == s.data[FrameAt(s, v)]
    {
      assert FrameAt(s1, v) == FrameAt(s, v);
    }
  }

  lemma LemmaRowsAreTables(s: Mem, s2: Mem, sp: Space, t: Mem, sp': Space, fd: int, td: int)
    requires Sound(s) && Sound(s2) && Sound(t) && (forall v :: At(s2, v) == At(s, v))
    requires SameButCopied(s2, t, fd, td, 0, PT) && sp'.tables == sp.tables
    ensures Copied(s, t, fd, td, 1)
    ensures Kept(s2, sp, t, sp', td, 1)
  {
    hide TablesInRange, BytesInRange;
    forall v
      ensures FrameAt(t, v) == FrameAt(s, Source(v, fd, td, 1))
    {
      assert FrameAt(t, v) == FrameAt(s2, if v.0 == td && 0 <= v.1 < PT then (fd, v.1) else v);
    }
  }

  lemma LemmaCopyTable(s: Mem, sp: Space, held: Held, fd: int, td: int) returns (sp': Space)
    requires Inv(s, sp, held) && User(fd) && User(td) && fd != td && fd % SLOT_DIRS == td % SLOT_DIRS && td !in sp.tables
    ensures var r := CopyTable(s, fd, td, PT);
      && !r.Panic? && Inv(r.mem, sp', held) && Kept(s, sp, r.mem, sp', td, 1)
      && (r.Done? ==> Copied(s, r.mem, fd, td, 1))
      && (r.NoMemory? ==> r.mem == s && sp' == sp)
      && (s.dir[fd].Absent? ==> r == Done(s))
      && (s.dir[fd].Present? ==> (r.Done? <==> GetFree(s).1 != 0) && (r.Done? ==> FreeSet(r.mem) == FreeSet(GetFree(s).0)))
  {
    hide Ledger, At, TablesInRange, BytesInRange, GetFree, CopyEntries, SameButCopied, FreeSet;
    LemmaDirectory(s, sp, fd);
    LemmaNoTable(s, sp, td);
    sp' := sp;
    if fd !in sp.tables {
      LemmaNoTable(s, sp, fd);
    } else {
      LemmaNewTable(s, sp, held, td);
      var (s1, tt) := GetFree(s);
      if tt != 0 {
        sp' := LemmaFillTable(s, sp, held, fd, td);
      }
    }
  }

  lemma LemmaFillTable(s: Mem, sp: Space, held: Held, fd: int, td: int) returns (sp': Space)
    requires Inv(s, sp, held) && fd in sp.tables && User(td) && fd != td && fd % SLOT_DIRS == td % SLOT_DIRS && td !in sp.tables
    requires GetFree(s).1 != 0
    ensures var r := CopyTable(s, fd, td, PT);
      && r.Done? && Inv(r.mem, sp', held) && Kept(s, sp, r.mem, sp', td, 1) && Copied(s, r.mem, fd, td, 1)
      && FreeSet(r.mem) == FreeSet(GetFree(s).0)
  {
    hide Ledger, At, TablesInRange, BytesInRange, GetFree, CopyEntries, SameButCopied, Kept, Copied, FreeSet;
    LemmaSameFree(GetFree(s).0, td, Present(GetFree(s).1, true));
    LemmaNoTable(s, sp, td);
    LemmaNewTable(s, sp, held, td);
    var (s1, tt) := GetFree(s);
    var s2 := s1.(dir := s1.dir[td := Present(tt, true)]);
    var sp2 := sp.(tables := sp.tables[td := tt]);
    sp' := LemmaCopyEntries(s2, sp2, held, fd, td, 0);
    var t := CopyEntries(s2, s2.dir[fd].frame, tt, 0, PT);
    LemmaRowsAreTables(s, s2, sp2, t, sp', fd, td);
    LemmaKeptTwice(s, sp, s2, sp2, t, sp', td, 1, td, 1, td, 1);
  }

  lemma LemmaSameFree(s: Mem, d: int, e: Pte)
    requires 0 <= d < |s.dir|
    ensures FreeSet(s.(dir := s.dir[d := e])) == FreeSet(s)
  {
  }

  lemma LemmaNoTable(s: Mem, sp: Space, d: int)
    requires Sound(s) && Reflects(s, sp) && User(d) && d !in sp.tables
    ensures s.dir[d].Absent? && forall v: Place :: v.0 == d ==> FrameAt(s, v) == -1
  {
  }

  // The range [d, d + n) has no tables, as in a free task slot.
  ghost predicate Vacant(sp: Space, d: int, n: int) {
    forall e :: d <= e < d + n ==> e !in sp.tables
  }

  lemma LemmaVacant(s: Mem, sp: Space, d: int, n: int)
    requires Sound(s) && Reflects(s, sp) && Vacant(sp, d, n) && SLOT_DIRS <= d && 0 <= n && d + n <= |s.dir|
    ensures forall v :: Within(v, d, n) ==> FrameAt(s, v) == -1
  {
    forall v | Within(v, d, n)
      ensures FrameAt(s, v) == -1
    {
      LemmaNoTable(s, sp, v.0);
    }
  }

  // copy_page_tables between two task slots: it keeps the ledger, touches nothing but the target
  // range, and when it succeeds the target shares every page of the source.
  lemma {:induction false} LemmaCopyTables(s: Mem, sp: Space, held: Held, fd: int, td: int, n: int) returns (sp': Space)
    requires Inv(s, sp, held) && SLOT_DIRS <= fd && SLOT_DIRS <= td && 0 <= n && fd + n <= |s.dir| && td + n <= |s.dir|
    requires fd + n <= td || td + n <= fd
    requires fd % SLOT_DIRS == td % SLOT_DIRS && Vacant(sp, td, n)
    ensures var r := CopyTables(s, fd, td, n, PT);
      && !r.Panic? && Inv(r.mem, sp', held) && Kept(s, sp, r.mem, sp', td, n)
      && (r.Done? ==> Copied(s, r.mem, fd, td, n))
    decreases n
  {
    hide Inv, At, TablesInRange, BytesInRange, CopyTable, CopyTables, FrameAt, Reflects, Kept, Copied, Vacant, Sound;
    LemmaInv(s, sp, held);
    LemmaCopyTablesOnce(s, fd, td, n);
    sp' := sp;
    if n == 0 {
      LemmaNothingCopied(s, sp, fd, td);
    } else {
      assert Vacant(sp, td, 1) && td !in sp.tables by { LemmaVacantParts(sp, td, n); }
      LemmaVacant(s, sp, td, n);
      var sp1 := LemmaCopyTable(s, sp, held, fd, td);
      var r1 := CopyTable(s, fd, td, PT);
      if r1.Done? {
        LemmaStillVacant(s, sp, r1.mem, sp1, td, n);
        LemmaNextPlace(fd, td);
        sp' := LemmaCopyTables(r1.mem, sp1, held, fd + 1, td + 1, n - 1);
        var r := CopyTables(r1.mem, fd + 1, td + 1, n - 1, PT);
        LemmaKeptTwice(s, sp, r1.mem, sp1, r.mem, sp', td, 1, td + 1, n - 1, td, n);
        if r.Done? {
          LemmaCopiedTwice(s, r1.mem, r.mem, fd, td, n);
        }
      } else {
        sp' := sp1;
        LemmaKeptLonger(s, sp, r1.mem, sp1, td, n);
      }
    }
  }

  lemma LemmaNextPlace(d: int, e: int)
    requires d % SLOT_DIRS == e % SLOT_DIRS
    ensures (d + 1) % SLOT_DIRS == (e + 1) % SLOT_DIRS
  {
  }

  lemma LemmaInv(s: Mem, sp: Space, held: Held)
    requires Inv(s, sp, held)
    ensures Sound(s) && Reflects(s, sp) && |s.dir| == SLOTS * SLOT_DIRS
  {
  }

  lemma LemmaCopyTablesOnce(s: Mem, fd: int, td: int, n: int)
    requires Sound(s) && 0 <= fd && 0 <= td && 0 <= n && fd + n <= |s.dir| && td + n <= |s.dir|
    ensures n == 0 ==> CopyTables(s, fd, td, n, PT) == Done(s)
    ensures n > 0 ==>
      var r := CopyTable(s, fd, td, PT);
      CopyTables(s, fd, td, n, PT) == if r.Done? then CopyTables(r.mem, fd + 1, td + 1, n - 1, PT) else r
  {
    hide CopyTable;
  }

  lemma LemmaNothingCopied(s: Mem, sp: Space, fd: int, td: int)
    requires Sound(s)
    ensures Kept(s, sp, s, sp, td, 0) && Copied(s, s, fd, td, 0)
  {
    hide Sound, At;
  }

  lemma LemmaVacantParts(sp: Space, d: int, n: int)
    requires Vacant(sp, d, n) && n > 0
    ensures Vacant(sp, d, 1) && d !in sp.tables
  {
  }

  lemma LemmaStillVacant(s: Mem, sp: Space, t: Mem, sp': Space, d: int, n: int)
    requires Sound(s) && Sound(t) && Vacant(sp, d, n) && Kept(s, sp, t, sp', d, 1) && n > 0
    ensures Vacant(sp', d + 1, n - 1) && |t.dir| == |s.dir|
  {
  }

  lemma LemmaKeptLonger(s: Mem, sp: Space, t: Mem, sp': Space, d: int, n: int)
    requires Sound(s) && Sound(t) && Kept(s, sp, t, sp', d, 1) && n > 0
    ensures Kept(s, sp, t, sp', d, n)
  {
    hide Sound, FrameAt;
  }

  lemma LemmaCopiedTwice(s: Mem, s1: Mem, t: Mem, fd: int, td: int, n: int)
    requires Sound(s) && Sound(s1) && Sound(t) && n > 0 && (fd + n <= td || td + n <= fd)
    requires Copied(s, s1, fd, td, 1) && Copied(s1, t, fd + 1, td + 1, n - 1)
    ensures Copied(s, t, fd, td, n)
  {
    hide Sound, At;
    forall v
      ensures FrameAt(t, v) == FrameAt(s, Source(v, fd, td, n))
    {
      assert FrameAt(t, v) == FrameAt(s1, Source(v, fd + 1, td + 1, n - 1));
      assert FrameAt(s1, Source(v, fd + 1, td + 1, n - 1)) == FrameAt(s, Source(Source(v, fd + 1, td + 1, n - 1), fd, td, 1));
      assert Source(Source(v, fd + 1, td + 1, n - 1), fd, td, 1) == Source(v, fd, td, n);
    }
  }

  // ---------------------------------------------------------------- write faults and stores

  ghost predicate SamePeeks(s: Mem, t: Mem)
    requires Sound(s) && Sound(t)
  {
    forall v :: Peek(t, v) == Peek(s, v)
  }

  // un_wp_page, last user: the page becomes writable in place.
  lemma LemmaUnWpLast(s: Mem, sp: Space, held: Held, v: Place)
    requires Inv(s, sp, held) && v in sp.pages && sp.pages[v].frame >= LOW && s.count[sp.pages[v].frame - LOW] == 1
    ensures var t := SetEntry(s, s.dir[v.0].frame, v.1, Present(sp.pages[v].frame, true));
      Inv(t, sp.(pages := sp.pages[v := Ref(sp.pages[v].frame, true)]), held) && SamePeeks(s, t)
  {
    hide Ledger, TablesInRange, BytesInRange;
    LemmaPlace(sp, s.high, s.count, held, v);
    LemmaUnprotect(sp, s.high, s.count, held, v);
    LemmaSetEntry(s, sp, held, v, Present(sp.pages[v].frame, true));
    var t := SetEntry(s, s.dir[v.0].frame, v.1, Present(sp.pages[v].frame, true));
    assert At(s, v).frame == sp.pages[v].frame;
  }

  // One user of a page moves to the page f just taken.
  lemma LemmaMove(sp: Space, high: int, count: seq<int>, held: Held, v: Place, f: int)
    requires Ledger(sp, high, count, held + multiset{f}) && v in sp.pages && LOW <= f < high && held[f] == 0
    requires count[f - LOW] == 1
    ensures sp.pages[v].frame != f
    ensures sp.pages[v].frame >= LOW ==> count[sp.pages[v].frame - LOW] > 0
    ensures Ledger(sp.(pages := sp.pages[v := Ref(f, true)]), high, Dropped(count, sp.pages[v].frame), held)
  {
    var held' := held + multiset{f};
    LemmaUnreferenced(sp, high, count, held', f);
    LemmaDropPage(sp, high, count, held', v);
    var sp1 := sp.(pages := sp.pages - {v});
    hide Ledger;
    assert v.0 in sp1.tables && 0 <= v.1 < PT by { LemmaPlace(sp, high, count, held', v); }
    LemmaAttachPage(sp1, high, Dropped(count, sp.pages[v].frame), held', f, v);
    assert sp1.pages[v := Ref(f, true)] == sp.pages[v := Ref(f, true)];
    assert held' - multiset{f} == held;
  }

  lemma LemmaPlace(sp: Space, high: int, count: seq<int>, held: Held, v: Place)
    requires Ledger(sp, high, count, held) && v in sp.pages
    ensures v.0 in sp.tables && User(v.0) && 0 <= v.1 < PT && 0 <= sp.pages[v].frame < high
  {
  }

  // Giving v the page f, which nobody refers to, changes what v reads and nothing else.
  lemma LemmaSetFresh(s: Mem, sp: Space, held: Held, v: Place, f: int, t: Mem)
    requires Inv(s, sp, held) && v.0 in sp.tables && 0 <= v.1 < PT && LOW <= f < s.high
    requires Sound(t) && t.dir == s.dir && t.tab == SetEntry(s, s.dir[v.0].frame, v.1, Present(f, true)).tab
    requires forall w :: At(s, w).Present? ==> At(s, w).frame != f && t.data[At(s, w).frame] == s.data[At(s, w).frame]
    ensures Reflects(t, sp.(pages := sp.pages[v := Ref(f, true)]))
    ensures forall w :: Peek(t, w) == if w == v then Some(t.data[f]) else Peek(s, w)
  {
    hide Ledger, TablesInRange, BytesInRange;
    LemmaSetEntry(s, sp, held, v, Present(f, true));
    LemmaSameTables(SetEntry(s, s.dir[v.0].frame, v.1, Present(f, true)), t);
  }

  lemma LemmaUnWp(s: Mem, sp: Space, held: Held, v: Place) returns (sp': Space)
    requires Inv(s, sp, held) && v in sp.pages
    ensures var r := UnWp(s, s.dir[v.0].frame, v.1);
      && !r.Panic? && Inv(r.mem, sp', held) && SamePeeks(s, r.mem) && sp'.tables == sp.tables && r.mem.dir == s.dir
      && (r.Done? ==> v in sp'.pages && sp'.pages[v].rw && sp'.pages == sp.pages[v := sp'.pages[v]])
      && (r.NoMemory? ==> r.mem == s && sp' == sp)
  {
    hide Ledger, At, TablesInRange, BytesInRange, SetEntry, GetFree;
    LemmaPlace(sp, s.high, s.count, held, v);
    LemmaEntryIs(s, sp, v);
    var was := sp.pages[v].frame;
    sp' := sp;
    if was >= LOW && s.count[was - LOW] == 1 {
      LemmaUnWpLast(s, sp, held, v);
      sp' := sp.(pages := sp.pages[v := Ref(was, true)]);
    } else {
      LemmaGetFree(s, sp, held);
      var (s1, f) := GetFree(s);
      if f != 0 {
        LemmaUnWpMove(s, sp, held, v);
        sp' := sp.(pages := sp.pages[v := Ref(f, true)]);
      }
    }
  }

  lemma LemmaEntryIs(s: Mem, sp: Space, v: Place)
    requires Sound(s) && Reflects(s, sp) && v in sp.pages
    ensures User(v.0) && 0 <= v.1 < PT && s.dir[v.0].Present?
    ensures At(s, v) == s.tab[s.dir[v.0].frame][v.1] == Present(sp.pages[v].frame, sp.pages[v].rw)
  {
    assert At(s, v).Present?;
  }

  lemma LemmaUnWpMove(s: Mem, sp: Space, held: Held, v: Place)
    requires Inv(s, sp, held) && v in sp.pages
    requires sp.pages[v].frame >= LOW ==> s.count[sp.pages[v].frame - LOW] != 1
    requires GetFree(s).1 != 0
    ensures var r := UnWp(s, s.dir[v.0].frame, v.1);
      r.Done? && Inv(r.mem, sp.(pages := sp.pages[v := Ref(GetFree(s).1, true)]), held) && SamePeeks(s, r.mem)
  {
    hide Ledger, GetFree, BytesInRange;
    LemmaGetFree(s, sp, held);
    LemmaEntryIs(s, sp, v);
    var (s1, f) := GetFree(s);
    LemmaMove(sp, s1.high, s1.count, held, v, f);
    var was := sp.pages[v].frame;
    var t := UnWp(s, s.dir[v.0].frame, v.1).mem;
    assert t.count == Dropped(s1.count, was) by {
      LemmaByte(s1, was);
    }
    LemmaSetFresh(s1, sp, held + multiset{f}, v, f, t);
    assert Peek(s1, v) == Peek(s, v);
  }

  lemma LemmaByte(s: Mem, f: int)
    requires Sound(s) && f < LOW + |s.count|
    requires f >= LOW ==> s.count[f - LOW] > 0
    ensures f >= LOW ==> s.count[f - LOW := (s.count[f - LOW] + 255) % 256] == Dropped(s.count, f)
  {
  }

  // put_page into the table that v's directory entry has.
  lemma LemmaPutInTable(s: Mem, sp: Space, held: Held, f: int, v: Place)
    requires Inv(s, sp, held + multiset{f}) && held[f] == 0 && LOW <= f < s.high && s.count[f - LOW] == 1
    requires v.0 in sp.tables && 0 <= v.1 < PT && v !in sp.pages
    ensures var t := SetEntry(s, s.dir[v.0].frame, v.1, Present(f, true));
      && Inv(t, sp.(pages := sp.pages[v := Ref(f, true)]), held)
      && (forall w :: Peek(t, w) == if w == v then Some(s.data[f]) else Peek(s, w))
  {
    hide Ledger, BytesInRange;
    LemmaUnreferenced(sp, s.high, s.count, held + multiset{f}, f);
    LemmaAttachPage(sp, s.high, s.count, held + multiset{f}, f, v);
    assert held + multiset{f} - multiset{f} == held;
    LemmaSetFresh(s, sp, held + multiset{f}, v, f, SetEntry(s, s.dir[v.0].frame, v.1, Present(f, true)));
  }

  // put_page, with a new table if there is none for the place.
  lemma LemmaPutPage(s: Mem, sp: Space, held: Held, f: int, v: Place) returns (sp': Space)
    requires Inv(s, sp, held + multiset{f}) && held[f] == 0 && LOW <= f < s.high && s.count[f - LOW] == 1
    requires User(v.0) && 0 <= v.1 < PT && v !in sp.pages
    ensures var (t, ok) := PutPage(s, f, v.0, v.1);
      && (ok ==>
            && Inv(t, sp', held) && v in sp'.pages && sp'.pages[v].rw && sp'.tables.Keys == sp.tables.Keys + {v.0}
            && forall w :: Peek(t, w) == if w == v then Some(s.data[f]) else Peek(s, w))
      && (!ok ==> t == s && sp' == sp)
  {
    hide Ledger, At, TablesInRange, BytesInRange, SetEntry, GetFree, Peek;
    sp' := sp;
    LemmaDirectory(s, sp, v.0);
    if v.0 in sp.tables {
      LemmaPutInTable(s, sp, held, f, v);
      sp' := sp.(pages := sp.pages[v := Ref(f, true)]);
    } else {
      LemmaNewTable(s, sp, held + multiset{f}, v.0);
      LemmaGetFree(s, sp, held + multiset{f});
      var (s1, t) := GetFree(s);
      if t != 0 {
        var s2 := s1.(dir := s1.dir[v.0 := Present(t, true)]);
        var sp2 := sp.(tables := sp.tables[v.0 := t]);
        LemmaNewTableKeeps(s, f);
        LemmaPutInTable(s2, sp2, held, f, v);
        LemmaSameAt(s, s2, t);
        sp' := sp2.(pages := sp2.pages[v := Ref(f, true)]);
      }
    }
  }

  // get_empty_page: a zero page at v, or nothing changed but the contents of free pages.
  lemma LemmaGetEmpty(s: Mem, sp: Space, held: Held, v: Place) returns (sp': Space)
    requires Inv(s, sp, held) && User(v.0) && 0 <= v.1 < PT && v !in sp.pages
    ensures var r := GetEmpty(s, v.0, v.1);
      && !r.Panic? && Inv(r.mem, sp', held)
      && (r.Done? ==> v in sp'.pages && sp'.pages[v].rw && sp'.tables.Keys == sp.tables.Keys + {v.0} &&
                      forall w :: Peek(r.mem, w) == if w == v then Some(ZeroPage()) else Peek(s, w))
      && (r.NoMemory? ==> sp' == sp && r.mem.count == s.count && SamePeeks(s, r.mem))
  {
    hide Ledger, At, TablesInRange, BytesInRange, PutPage, GetFree, FreePage, Peek;
    LemmaGetFree(s, sp, held);
    var (s1, f) := GetFree(s);
    sp' := sp;
    if f != 0 {
      var held1 := held + multiset{f};
      assert held1 - multiset{f} == held;
      LemmaSameAt(s, s1, f);
      sp' := LemmaPutPage(s1, sp, held, f, v);
      if !PutPage(s1, f, v.0, v.1).1 {
        LemmaFreePage(s1, sp, held1, f);
        LemmaCountBack(s, s1, f);
        LemmaSameAt(s, FreePage(s1, f).value, f);
      }
    }
  }

  lemma LemmaCountBack(s: Mem, s1: Mem, f: int)
    requires Sound(s) && Sound(s1) && LOW <= f < s.high && s.count[f - LOW] == 0 && s1.count == s.count[f - LOW := 1] && s1.high == s.high
    ensures FreePage(s1, f).Some? && FreePage(s1, f).value.count == s.count
  {
  }

  lemma LemmaSameAt(s: Mem, t: Mem, f: int)
    requires Sound(s) && Sound(t) && 0 <= f < |s.tab| && t.data == s.data[f := ZeroPage()]
    requires forall v :: At(s, v) == At(t, v) && (At(t, v).Present? ==> At(t, v).frame != f)
    ensures SamePeeks(s, t)
  {
  }

  // A second get_free_page takes another page.
  lemma LemmaNewTableKeeps(s1: Mem, f: int)
    requires Sound(s1) && LOW <= f < s1.high && s1.count[f - LOW] == 1 && GetFree(s1).1 != 0
    ensures GetFree(s1).1 != f && GetFree(s1).0.count[f - LOW] == 1 && GetFree(s1).0.data[f] == s1.data[f]
  {
  }

  // The store of one byte: exclusive writers make it invisible to everyone else.
  lemma LemmaStore(s: Mem, sp: Space, held: Held, v: Place, off: int, b: byte)
    requires Inv(s, sp, held) && v in sp.pages && sp.pages[v].rw && 0 <= off < PAGE_SIZE
    requires User(v.0) && 0 <= v.1 < PT && Entry(s, v.0, v.1).Present?
    ensures Peek(s, v).Some? && |Peek(s, v).value| == PAGE_SIZE
    ensures var t := Store(s, v.0, v.1, off, b);
      && Inv(t, sp, held)
      && (forall w :: Peek(t, w) == if w == v then Some(Peek(s, v).value[off := b]) else Peek(s, w))
  {
    hide Counts, TablesPrivate;
    LemmaSameTables(s, Store(s, v.0, v.1, off, b));
  }

  // The ledger determines mem_map.
  lemma LemmaCountsDetermined(s: Mem, sp: Space, t: Mem, sp': Space, held: Held)
    requires Inv(s, sp, held) && Inv(t, sp', held) && |s.count| == |t.count|
    requires forall v :: FrameAt(s, v) == FrameAt(t, v)
    requires sp.tables == sp'.tables
    ensures s.count == t.count
  {
    hide Inv, FrameAt, PageRefs, TableRefs;
    LemmaSameUsers(s, sp, t, sp', held);
    LemmaCounts(s, sp, held);
    LemmaCounts(t, sp', held);
    forall k | 0 <= k < |s.count|
      ensures s.count[k] == t.count[k]
    {
      assert Counted(sp, s.count, held, LOW + k) && Counted(sp', t.count, held, LOW + k);
      LemmaSameRefs(sp, sp', LOW + k);
    }
  }

  lemma LemmaSameRefs(sp: Space, sp': Space, f: int)
    requires sp.pages.Keys == sp'.pages.Keys && (forall v :: v in sp.pages ==> sp.pages[v].frame == sp'.pages[v].frame)
    requires sp.tables == sp'.tables
    ensures PageRefs(sp, f) == PageRefs(sp', f) && TableRefs(sp, f) == TableRefs(sp', f)
  {
    forall v ensures v in PageRefs(sp, f) <==> v in PageRefs(sp', f) {
      assert v in sp.pages.Keys <==> v in sp'.pages.Keys;
    }
  }

  lemma LemmaCounts(s: Mem, sp: Space, held: Held)
    requires Inv(s, sp, held)
    ensures Counts(sp, s.count, held)
  {
  }

  lemma LemmaSameUsers(s: Mem, sp: Space, t: Mem, sp': Space, held: Held)
    requires Inv(s, sp, held) && Inv(t, sp', held) && forall v :: FrameAt(s, v) == FrameAt(t, v)
    ensures sp.pages.Keys == sp'.pages.Keys && forall v :: v in sp.pages ==> sp.pages[v].frame == sp'.pages[v].frame
  {
    hide Ledger, TablesInRange, BytesInRange;
    forall v
      ensures v in sp.pages <==> v in sp'.pages
      ensures v in sp.pages ==> sp.pages[v].frame == sp'.pages[v].frame
    {
      assert FrameAt(s, v) == FrameAt(t, v);
    }
  }

  // A copy_page_tables that ran out of memory, undone by free_page_tables as copy_mem does.
  lemma LemmaCopyUndone(s: Mem, sp: Space, held: Held, fd: int, td: int, n: int) returns (sp': Space)
    requires Inv(s, sp, held) && SLOT_DIRS <= fd && SLOT_DIRS <= td && 0 <= n && fd + n <= |s.dir| && td + n <= |s.dir|
    requires fd + n <= td || td + n <= fd
    requires fd % SLOT_DIRS == td % SLOT_DIRS && Vacant(sp, td, n)
    requires CopyTables(s, fd, td, n, PT).NoMemory?
    ensures FreeTables(CopyTables(s, fd, td, n, PT).mem, td, n).Some?
    ensures var t := FreeTables(CopyTables(s, fd, td, n, PT).mem, td, n).value;
      && Inv(t, sp', held) && t.count == s.count && SamePeeks(s, t) && sp'.tables == sp.tables
  {
    hide Ledger, At, TablesInRange, BytesInRange, CopyTables;
    var m := CopyTables(s, fd, td, n, PT).mem;
    var sp1 := LemmaCopyTables(s, sp, held, fd, td, n);
    LemmaFreeTables(m, sp1, held, td, n);
    var t := FreeTables(m, td, n).value;
    sp' := Unmapped(sp1, td, n);
    LemmaVacant(s, sp, td, n);
    forall v
      ensures FrameAt(t, v) == FrameAt(s, v) && Peek(t, v) == Peek(s, v)
    {
      assert At(t, v) == if Within(v, td, n) then Absent else At(m, v);
    }
    assert sp'.tables == sp.tables by {
      assert forall d :: d in sp'.tables <==> d in sp.tables;
    }
    LemmaCountsDetermined(s, sp, t, sp', held);
  }

  // ---------------------------------------------------------------- verify_area

  lemma LemmaVerified(s: Mem, sp: Space, held: Held, v: Place) returns (sp': Space)
    requires Inv(s, sp, held) && 0 <= v.0 < |s.dir| && 0 <= v.1 < PT && User(v.0)
    ensures var r := Verified(s, v.0, v.1);
      && Inv(r.mem, sp', held) && SamePeeks(s, r.mem) && sp'.pages.Keys == sp.pages.Keys
      && (forall w :: w in sp.pages && sp.pages[w].rw ==> sp'.pages[w].rw)
      && (r.Done? && v in sp.pages ==> sp'.pages[v].rw)
  {
    hide Ledger, TablesInRange, BytesInRange, UnWp;
    assert At(s, v) == Entry(s, v.0, v.1);
    sp' := sp;
    if v in sp.pages && !sp.pages[v].rw {
      sp' := LemmaUnWp(s, sp, held, v);
    }
  }

  /** verify_area: no user can tell, and unless memory ran out every present page in the area is
      then writable, so that the kernel's writes, which ignore R/W, reach nobody else. */
  lemma {:induction false} LemmaVerifyPages(s: Mem, sp: Space, held: Held, page: int, n: nat) returns (sp': Space)
    requires Inv(s, sp, held) && SLOT_DIRS * PT <= page && page + n <= SLOTS * SLOT_DIRS * PT
    ensures var r := VerifyPages(s, page, n);
      && !r.Panic? && Inv(r.mem, sp', held) && SamePeeks(s, r.mem) && sp'.pages.Keys == sp.pages.Keys
      && (forall w :: w in sp.pages && sp.pages[w].rw ==> sp'.pages[w].rw)
      && (r.Done? ==> forall w :: w in sp.pages && page <= w.0 * PT + w.1 < page + n ==> sp'.pages[w].rw)
    decreases n
  {
    hide Sound, Reflects, Verified, Peek, Ledger;
    LemmaPlaces(s, sp, held);
    sp' := sp;
    if n > 0 {
      var v := (page / PT, page % PT);
      assert |s.dir| == SLOTS * SLOT_DIRS by { LemmaSizes(s); }
      assert page % (SLOTS * SLOT_DIRS * PT) == page;
      var sp1 := LemmaVerified(s, sp, held, v);
      var r1 := Verified(s, v.0, v.1);
      sp' := sp1;
      if r1.Done? {
        sp' := LemmaVerifyPages(r1.mem, sp1, held, page + 1, n - 1);
        forall w | w in sp.pages && w.0 * PT + w.1 == page
          ensures w == v
        {
        }
      }
    }
  }
}

/** The accounting rules of mm/memory.c for the linear space of task slots 1 and up, on maps:
    who refers to which page, and how often mem_map must count it. */
module PageLedger {
  import opened Memory

  // A linear page: directory index and table index.
  type Place = (int, int)

  datatype Ref = Ref(frame: int, rw: bool)

  datatype Space = Space(pages: map<Place, Ref>, tables: map<int, int>)

  // Raw holders of a page: task structures, pipe pages, exec argument pages,
  // and USED times the pages mem_init withholds.
  type Held = multiset<int>

  function PageRefs(sp: Space, f: int): set<Place> {
    set v | v in sp.pages && sp.pages[v].frame == f
  }

  function TableRefs(sp: Space, f: int): set<int> {
    set d | d in sp.tables && sp.tables[d] == f
  }

  ghost predicate Counted(sp: Space, count: seq<int>, held: Held, f: int)
    requires LOW <= f < LOW + |count|
  {
    count[f - LOW] == |PageRefs(sp, f)| + |TableRefs(sp, f)| + held[f]
  }

  // mem_map is the number of references to every page.
  ghost predicate Counts(sp: Space, count: seq<int>, held: Held) {
    forall f :: LOW <= f < LOW + |count| ==> Counted(sp, count, held, f)
  }

  // A page table belongs to one directory entry and to nothing else.
  ghost predicate TablesPrivate(sp: Space, high: int, held: Held) {
    && (forall d :: d in sp.tables ==> SLOT_DIRS <= d < SLOTS * SLOT_DIRS && LOW <= sp.tables[d] < high && held[sp.tables[d]] == 0)
    && (forall d, e :: d in sp.tables && e in sp.tables && d != e ==> sp.tables[d] != sp.tables[e])
    && (forall d, v :: d in sp.tables && v in sp.pages ==> sp.pages[v].frame != sp.tables[d])
  }

  // Two linear pages share a page only at the same place of two task slots.
  predicate SamePlace(v: Place, w: Place) {
    v.0 % SLOT_DIRS == w.0 % SLOT_DIRS && v.1 == w.1
  }

  ghost predicate PagesShared(sp: Space, high: int, held: Held) {
    && (forall v :: v in sp.pages ==> v.0 in sp.tables && 0 <= v.1 < PT && 0 <= sp.pages[v].frame < high)
    && (forall v :: v in sp.pages && sp.pages[v].frame >= LOW ==> held[sp.pages[v].frame] == 0)
    && (forall v, w :: v in sp.pages && w in sp.pages && sp.pages[v].frame == sp.pages[w].frame >= LOW ==> SamePlace(v, w))
  }

  // Whoever may write a page is its only user; pages below LOW_MEM are never writable.
  ghost predicate ExclusiveWriters(sp: Space) {
    && (forall v :: v in sp.pages && sp.pages[v].rw ==> sp.pages[v].frame >= LOW)
    && (forall v, w :: v in sp.pages && w in sp.pages && sp.pages[v].rw && v != w ==> sp.pages[v].frame != sp.pages[w].frame)
  }

  ghost predicate Ledger(sp: Space, high: int, count: seq<int>, held: Held) {
    && LOW < high <= LOW + |count|
    && Counts(sp, count, held)
    && TablesPrivate(sp, high, held)
    && PagesShared(sp, high, held)
    && ExclusiveWriters(sp)
  }

  lemma LemmaUnreferenced(sp: Space, high: int, count: seq<int>, held: Held, f: int)
    requires Ledger(sp, high, count, held) && LOW <= f < LOW + |count| && count[f - LOW] == held[f]
    ensures forall v :: v in sp.pages ==> sp.pages[v].frame != f
    ensures forall d :: d in sp.tables ==> sp.tables[d] != f
  {
    assert Counted(sp, count, held, f);
    assert PageRefs(sp, f) == {} && TableRefs(sp, f) == {};
    forall v | v in sp.pages
      ensures sp.pages[v].frame != f
    {
      assert v !in PageRefs(sp, f);
    }
    forall d | d in sp.tables
      ensures sp.tables[d] != f
    {
      assert d !in TableRefs(sp, f);
    }
  }

  lemma LemmaTake(sp: Space, high: int, count: seq<int>, held: Held, f: int)
    requires Ledger(sp, high, count, held) && LOW <= f < high && count[f - LOW] == 0
    ensures held[f] == 0
    ensures Ledger(sp, high, count[f - LOW := 1], held + multiset{f})
  {
    assert Counted(sp, count, held, f);
    LemmaUnreferenced(sp, high, count, held, f);
    var count' := count[f - LOW := 1];
    forall g | LOW <= g < LOW + |count|
      ensures Counted(sp, count', held + multiset{f}, g)
    {
      assert Counted(sp, count, held, g);
    }
  }

  lemma LemmaReturn(sp: Space, high: int, count: seq<int>, held: Held, f: int)
    requires Ledger(sp, high, count, held) && LOW <= f < LOW + |count| && f in held
    ensures count[f - LOW] > 0
    ensures Ledger(sp, high, count[f - LOW := count[f - LOW] - 1], held - multiset{f})
  {
    assert Counted(sp, count, held, f);
    var count' := count[f - LOW := count[f - LOW] - 1];
    forall g | LOW <= g < LOW + |count|
      ensures Counted(sp, count', held - multiset{f}, g)
    {
      assert Counted(sp, count, held, g);
    }
  }

  // Setting the entry of v moves v between reference sets and touches nothing else.
  lemma LemmaSetPage(sp: Space, v: Place, r: Ref, f: int)
    ensures var sp' := sp.(pages := sp.pages[v := r]);
      TableRefs(sp', f) == TableRefs(sp, f) && PageRefs(sp', f) == PageRefs(sp, f) - {v} + if r.frame == f then {v} else {}
  {
  }

  lemma LemmaAttachPage(sp: Space, high: int, count: seq<int>, held: Held, f: int, v: Place)
    requires Ledger(sp, high, count, held) && LOW <= f < high && held[f] == 1 && count[f - LOW] == 1
    requires v !in sp.pages && v.0 in sp.tables && 0 <= v.1 < PT
    ensures Ledger(sp.(pages := sp.pages[v := Ref(f, true)]), high, count, held - multiset{f})
  {
    hide Counts, TablesPrivate, PagesShared, ExclusiveWriters;
    LemmaUnreferenced(sp, high, count, held, f);
    LemmaAttachCounts(sp, count, held, f, v);
    LemmaAttachPrivate(sp, high, held, f, v);
    LemmaAttachShared(sp, high, held, f, v);
  }

  lemma LemmaAttachCounts(sp: Space, count: seq<int>, held: Held, f: int, v: Place)
    requires Counts(sp, count, held) && held[f] == 1 && v !in sp.pages
    ensures Counts(sp.(pages := sp.pages[v := Ref(f, true)]), count, held - multiset{f})
  {
    var sp' := sp.(pages := sp.pages[v := Ref(f, true)]);
    forall g | LOW <= g < LOW + |count|
      ensures Counted(sp', count, held - multiset{f}, g)
    {
      assert Counted(sp, count, held, g);
      LemmaSetPage(sp, v, Ref(f, true), g);
      assert v !in PageRefs(sp, g);
    }
  }

  lemma LemmaAttachPrivate(sp: Space, high: int, held: Held, f: int, v: Place)
    requires TablesPrivate(sp, high, held) && ExclusiveWriters(sp) && LOW <= f && held[f] == 1 && v !in sp.pages
    requires (forall w :: w in sp.pages ==> sp.pages[w].frame != f) && forall d :: d in sp.tables ==> sp.tables[d] != f
    ensures TablesPrivate(sp.(pages := sp.pages[v := Ref(f, true)]), high, held - multiset{f})
    ensures ExclusiveWriters(sp.(pages := sp.pages[v := Ref(f, true)]))
  {
  }

  lemma LemmaAttachShared(sp: Space, high: int, held: Held, f: int, v: Place)
    requires PagesShared(sp, high, held) && LOW <= f < high && held[f] == 1
    requires v.0 in sp.tables && 0 <= v.1 < PT
    requires forall w :: w in sp.pages ==> sp.pages[w].frame != f
    ensures PagesShared(sp.(pages := sp.pages[v := Ref(f, true)]), high, held - multiset{f})
  {
  }

  // The count a page has after one of its users is gone.
  function Dropped(count: seq<int>, f: int): (r: seq<int>)
    requires f < LOW + |count|
    ensures |r| == |count|
  {
    if f < LOW then count else count[f - LOW := count[f - LOW] - 1]
  }

  lemma LemmaDropPage(sp: Space, high: int, count: seq<int>, held: Held, v: Place)
    requires Ledger(sp, high, count, held) && v in sp.pages
    ensures sp.pages[v].frame >= LOW ==> count[sp.pages[v].frame - LOW] > 0
    ensures Ledger(sp.(pages := sp.pages - {v}), high, Dropped(count, sp.pages[v].frame), held)
  {
    var f := sp.pages[v].frame;
    var sp' := sp.(pages := sp.pages - {v});
    assert v in PageRefs(sp, f);
    if f >= LOW {
      assert Counted(sp, count, held, f);
    }
    forall g | LOW <= g < LOW + |count|
      ensures Counted(sp', Dropped(count, f), held, g)
    {
      assert Counted(sp, count, held, g);
      assert TableRefs(sp', g) == TableRefs(sp, g);
      assert PageRefs(sp', g) == PageRefs(sp, g) - {v};
    }
  }

  lemma LemmaAttachTable(sp: Space, high: int, count: seq<int>, held: Held, f: int, d: int)
    requires Ledger(sp, high, count, held) && LOW <= f < high && held[f] == 1 && count[f - LOW] == 1
    requires d !in sp.tables && SLOT_DIRS <= d < SLOTS * SLOT_DIRS
    ensures Ledger(sp.(tables := sp.tables[d := f]), high, count, held - multiset{f})
  {
    LemmaUnreferenced(sp, high, count, held, f);
    LemmaAttachTableCounts(sp, count, held, f, d);
    LemmaAttachTableShape(sp, high, held, f, d);
  }

  lemma LemmaAttachTableCounts(sp: Space, count: seq<int>, held: Held, f: int, d: int)
    requires Counts(sp, count, held) && held[f] > 0 && d !in sp.tables
    ensures Counts(sp.(tables := sp.tables[d := f]), count, held - multiset{f})
  {
    var sp' := sp.(tables := sp.tables[d := f]);
    forall g | LOW <= g < LOW + |count|
      ensures Counted(sp', count, held - multiset{f}, g)
    {
      assert Counted(sp, count, held, g);
      assert TableRefs(sp', g) == TableRefs(sp, g) + if g == f then {d} else {};
      assert d !in TableRefs(sp, g);
      assert PageRefs(sp', g) == PageRefs(sp, g);
    }
  }

  lemma LemmaAttachTableShape(sp: Space, high: int, held: Held, f: int, d: int)
    requires TablesPrivate(sp, high, held) && PagesShared(sp, high, held) && ExclusiveWriters(sp)
    requires LOW <= f < high && held[f] == 1 && d !in sp.tables && SLOT_DIRS <= d < SLOTS * SLOT_DIRS
    requires (forall v :: v in sp.pages ==> sp.pages[v].frame != f) && forall e :: e in sp.tables ==> sp.tables[e] != f
    ensures var sp' := sp.(tables := sp.tables[d := f]);
      TablesPrivate(sp', high, held - multiset{f}) && PagesShared(sp', high, held - multiset{f}) && ExclusiveWriters(sp')
  {
  }

  lemma LemmaDetachTable(sp: Space, high: int, count: seq<int>, held: Held, d: int)
    requires Ledger(sp, high, count, held) && d in sp.tables
    requires forall v :: v in sp.pages ==> v.0 != d
    ensures LOW <= sp.tables[d] < high && count[sp.tables[d] - LOW] > 0
    ensures Ledger(sp.(tables := sp.tables - {d}), high, Dropped(count, sp.tables[d]), held)
  {
    var f := sp.tables[d];
    var sp' := sp.(tables := sp.tables - {d});
    assert d in TableRefs(sp, f);
    assert Counted(sp, count, held, f);
    forall g | LOW <= g < LOW + |count|
      ensures Counted(sp', Dropped(count, f), held, g)
    {
      assert Counted(sp, count, held, g);
      assert TableRefs(sp', g) == TableRefs(sp, g) - {d};
      assert PageRefs(sp', g) == PageRefs(sp, g);
    }
  }

  // ---------------------------------------------------------------- sharing

  function Column(d: int, i: int, n: nat): set<Place> {
    if n == 0 then {} else Column(d, i, n - 1) + {(SLOT_DIRS * n + d % SLOT_DIRS, i)}
  }

  lemma {:induction false} LemmaColumn(d: int, i: int, n: nat)
    ensures |Column(d, i, n)| <= n
    ensures forall m :: 1 <= m <= n ==> (SLOT_DIRS * m + d % SLOT_DIRS, i) in Column(d, i, n)
  {
    if n > 0 {
      LemmaColumn(d, i, n - 1);
    }
  }

  // The byte of mem_map cannot wrap: a page has at most one user per task slot.
  lemma LemmaFewUsers(sp: Space, high: int, count: seq<int>, held: Held, v: Place)
    requires Ledger(sp, high, count, held) && v in sp.pages && sp.pages[v].frame >= LOW
    ensures count[sp.pages[v].frame - LOW] <= SLOTS - 1
  {
    var f := sp.pages[v].frame;
    assert Counted(sp, count, held, f);
    assert forall d :: d in sp.tables ==> sp.tables[d] != f;
    assert TableRefs(sp, f) == {};
    LemmaColumn(v.0, v.1, SLOTS - 1);
    var col := Column(v.0, v.1, SLOTS - 1);
    forall w | w in PageRefs(sp, f)
      ensures w in col
    {
      assert SamePlace(v, w);
      var m := w.0 / SLOT_DIRS;
      assert w == (SLOT_DIRS * m + v.0 % SLOT_DIRS, v.1);
    }
    LemmaSubsetSize(PageRefs(sp, f), col);
  }

  lemma LemmaSubsetSize<T>(a: set<T>, b: set<T>)
    requires a <= b
    ensures |a| <= |b|
  {
    assert b == a + (b - a);
  }

  function Shared(sp: Space, v: Place, w: Place): Space
    requires v in sp.pages
  {
    var ro := Ref(sp.pages[v].frame, false);
    sp.(pages := if ro.frame >= LOW then sp.pages[w := ro][v := ro] else sp.pages[w := ro])
  }

  function SharedCount(count: seq<int>, f: int): seq<int>
    requires f < LOW + |count|
  {
    if f >= LOW then count[f - LOW := count[f - LOW] + 1] else count
  }

  // copy_page_tables: v and the new linear page w read the same page, and neither may write it.
  lemma LemmaShare(sp: Space, high: int, count: seq<int>, held: Held, v: Place, w: Place)
    requires Ledger(sp, high, count, held) && v in sp.pages && w !in sp.pages && SamePlace(v, w)
    requires w.0 in sp.tables && 0 <= w.1 < PT
    ensures Ledger(Shared(sp, v, w), high, SharedCount(count, sp.pages[v].frame), held)
    ensures sp.pages[v].frame >= LOW ==> count[sp.pages[v].frame - LOW] < SLOTS
  {
    if sp.pages[v].frame >= LOW {
      LemmaFewUsers(sp, high, count, held, v);
    }
    LemmaShareCounts(sp, high, count, held, v, w);
    LemmaShareTables(sp, high, held, v, w);
    LemmaShareShared(sp, high, held, v, w);
  }

  lemma LemmaShareRefs(sp: Space, v: Place, w: Place, g: int)
    requires v in sp.pages && w !in sp.pages
    ensures PageRefs(Shared(sp, v, w), g) == PageRefs(sp, g) + if g == sp.pages[v].frame then {w} else {}
    ensures TableRefs(Shared(sp, v, w), g) == TableRefs(sp, g)
    ensures w !in PageRefs(sp, g)
  {
    var sp' := Shared(sp, v, w);
    assert sp'.pages.Keys == sp.pages.Keys + {w};
    assert forall x :: x in sp.pages ==> sp'.pages[x].frame == sp.pages[x].frame;
  }

  lemma LemmaShareCounts(sp: Space, high: int, count: seq<int>, held: Held, v: Place, w: Place)
    requires Counts(sp, count, held) && v in sp.pages && w !in sp.pages && sp.pages[v].frame < LOW + |count|
    ensures Counts(Shared(sp, v, w), SharedCount(count, sp.pages[v].frame), held)
  {
    forall g | LOW <= g < LOW + |count|
      ensures Counted(Shared(sp, v, w), SharedCount(count, sp.pages[v].frame), held, g)
    {
      assert Counted(sp, count, held, g);
      LemmaShareRefs(sp, v, w, g);
    }
  }

  lemma LemmaShareTables(sp: Space, high: int, held: Held, v: Place, w: Place)
    requires TablesPrivate(sp, high, held) && ExclusiveWriters(sp) && v in sp.pages && w !in sp.pages
    ensures TablesPrivate(Shared(sp, v, w), high, held)
    ensures ExclusiveWriters(Shared(sp, v, w))
  {
    var sp' := Shared(sp, v, w);
    forall x, y | x in sp'.pages && y in sp'.pages && sp'.pages[x].rw && x != y
      ensures sp'.pages[x].frame != sp'.pages[y].frame
    {
      var y' := if y == w then v else y;
      assert x != w && sp.pages[x].rw;
      assert sp'.pages[y].frame == sp.pages[y'].frame;
    }
  }

  lemma LemmaShareShared(sp: Space, high: int, held: Held, v: Place, w: Place)
    requires PagesShared(sp, high, held) && v in sp.pages && w !in sp.pages && SamePlace(v, w)
    requires w.0 in sp.tables && 0 <= w.1 < PT
    ensures PagesShared(Shared(sp, v, w), high, held)
  {
    var sp' := Shared(sp, v, w);
    forall x, y | x in sp'.pages && y in sp'.pages && sp'.pages[x].frame == sp'.pages[y].frame >= LOW
      ensures SamePlace(x, y)
    {
      var x' := if x == w then v else x;
      var y' := if y == w then v else y;
      assert SamePlace(x', y');
    }
  }

  // The first fork: a kernel page becomes readable at v, and is not counted.
  lemma LemmaShareKernelPage(sp: Space, high: int, count: seq<int>, held: Held, v: Place, f: int)
    requires Ledger(sp, high, count, held) && v !in sp.pages && v.0 in sp.tables && 0 <= v.1 < PT && 0 <= f < LOW
    ensures Ledger(sp.(pages := sp.pages[v := Ref(f, false)]), high, count, held)
  {
    hide Counts, TablesPrivate, PagesShared, ExclusiveWriters;
    LemmaKernelPageCounts(sp, count, held, v, f);
    LemmaKernelPageShape(sp, high, held, v, f);
  }

  lemma LemmaKernelPageCounts(sp: Space, count: seq<int>, held: Held, v: Place, f: int)
    requires Counts(sp, count, held) && v !in sp.pages && 0 <= f < LOW
    ensures Counts(sp.(pages := sp.pages[v := Ref(f, false)]), count, held)
  {
    hide PageRefs, TableRefs;
    var sp' := sp.(pages := sp.pages[v := Ref(f, false)]);
    forall g | LOW <= g < LOW + |count|
      ensures Counted(sp', count, held, g)
    {
      assert Counted(sp, count, held, g);
      LemmaSetPage(sp, v, Ref(f, false), g);
      LemmaNoRef(sp, v, g);
    }
  }

  lemma LemmaNoRef(sp: Space, v: Place, g: int)
    requires v !in sp.pages
    ensures PageRefs(sp, g) - {v} + {} == PageRefs(sp, g)
  {
  }

  lemma LemmaKernelPageShape(sp: Space, high: int, held: Held, v: Place, f: int)
    requires TablesPrivate(sp, high, held) && PagesShared(sp, high, held) && ExclusiveWriters(sp)
    requires v !in sp.pages && v.0 in sp.tables && 0 <= v.1 < PT && 0 <= f < LOW < high
    ensures var sp' := sp.(pages := sp.pages[v := Ref(f, false)]);
      TablesPrivate(sp', high, held) && PagesShared(sp', high, held) && ExclusiveWriters(sp')
  {
    hide PagesShared;
    LemmaKernelPageShared(sp, high, held, v, f);
  }

  lemma LemmaKernelPageShared(sp: Space, high: int, held: Held, v: Place, f: int)
    requires PagesShared(sp, high, held) && v.0 in sp.tables && 0 <= v.1 < PT && 0 <= f < LOW < high
    ensures PagesShared(sp.(pages := sp.pages[v := Ref(f, false)]), high, held)
  {
    hide SamePlace;
  }

  // un_wp_page on a page that has one user left.
  lemma LemmaUnprotect(sp: Space, high: int, count: seq<int>, held: Held, v: Place)
    requires Ledger(sp, high, count, held) && v in sp.pages
    requires sp.pages[v].frame >= LOW && count[sp.pages[v].frame - LOW] == 1
    ensures Ledger(sp.(pages := sp.pages[v := Ref(sp.pages[v].frame, true)]), high, count, held)
  {
    var f := sp.pages[v].frame;
    LemmaOnlyUser(sp, count, held, v);
    hide Counted, SamePlace;
    LemmaUnprotectCounts(sp, count, held, v);
    LemmaUnprotectShape(sp, high, held, v);
  }

  lemma LemmaOnlyUser(sp: Space, count: seq<int>, held: Held, v: Place)
    requires Counts(sp, count, held) && v in sp.pages
    requires LOW <= sp.pages[v].frame < LOW + |count| && count[sp.pages[v].frame - LOW] == 1
    ensures forall w :: w in sp.pages && sp.pages[w].frame == sp.pages[v].frame ==> w == v
  {
    var f := sp.pages[v].frame;
    assert Counted(sp, count, held, f);
    assert v in PageRefs(sp, f);
    forall w | w in sp.pages && sp.pages[w].frame == f
      ensures w == v
    {
      assert w in PageRefs(sp, f);
      LemmaSubsetSize({v, w}, PageRefs(sp, f));
    }
  }

  lemma LemmaUnprotectCounts(sp: Space, count: seq<int>, held: Held, v: Place)
    requires Counts(sp, count, held) && v in sp.pages
    ensures Counts(sp.(pages := sp.pages[v := Ref(sp.pages[v].frame, true)]), count, held)
  {
    var f := sp.pages[v].frame;
    var sp' := sp.(pages := sp.pages[v := Ref(f, true)]);
    forall g | LOW <= g < LOW + |count|
      ensures Counted(sp', count, held, g)
    {
      assert Counted(sp, count, held, g);
      LemmaSetPage(sp, v, Ref(f, true), g);
      assert PageRefs(sp', g) == PageRefs(sp, g);
    }
  }

  lemma LemmaUnprotectShape(sp: Space, high: int, held: Held, v: Place)
    requires TablesPrivate(sp, high, held) && PagesShared(sp, high, held) && ExclusiveWriters(sp) && v in sp.pages
    requires sp.pages[v].frame >= LOW && forall w :: w in sp.pages && sp.pages[w].frame == sp.pages[v].frame ==> w == v
    ensures var sp' := sp.(pages := sp.pages[v := Ref(sp.pages[v].frame, true)]);
      TablesPrivate(sp', high, held) && PagesShared(sp', high, held) && ExclusiveWriters(sp')
  {
    hide TablesPrivate, PagesShared, ExclusiveWriters;
    LemmaUnprotectWriters(sp, high, held, v);
    LemmaSameFrames(sp, sp.(pages := sp.pages[v := Ref(sp.pages[v].frame, true)]), high, held);
  }

  lemma LemmaUnprotectWriters(sp: Space, high: int, held: Held, v: Place)
    requires TablesPrivate(sp, high, held) && ExclusiveWriters(sp) && v in sp.pages
    requires sp.pages[v].frame >= LOW && forall w :: w in sp.pages && sp.pages[w].frame == sp.pages[v].frame ==> w == v
    ensures TablesPrivate(sp.(pages := sp.pages[v := Ref(sp.pages[v].frame, true)]), high, held)
    ensures ExclusiveWriters(sp.(pages := sp.pages[v := Ref(sp.pages[v].frame, true)]))
  {
  }

  lemma LemmaSameFrames(sp: Space, sp': Space, high: int, held: Held)
    requires PagesShared(sp, high, held) && sp'.tables == sp.tables && sp'.pages.Keys == sp.pages.Keys
    requires forall v :: v in sp.pages ==> sp.pages[v].frame == sp'.pages[v].frame
    ensures PagesShared(sp', high, held)
  {
  }
}

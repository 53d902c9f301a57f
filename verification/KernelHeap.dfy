/** lib/malloc.c as it runs: descriptors, chains and free objects threaded through one memory.  Each
    method computes the operation of BucketPool on the lists that the memory shows. */
module KernelHeap {
  import opened Basics
  import opened Wrappers
  import opened BucketPool
  import opened FreePages

  // One granule: a bucket_desc, or the start of an object, whose first word links it while it is free.
  datatype Cell = Cell(first: int, next: int, freeptr: int, refcnt: int, size: int)

  const ZERO := Cell(0, 0, 0, 0, 0)

  // Memory, the pages in use, the chain field of bucket_dir, and free_bucket_desc.
  datatype Image = Image(mem: seq<Cell>, used: seq<bool>, chain: seq<int>, free: int)

  function Nth(s: seq<int>, k: int): int
    requires 0 <= k
  {
    if k < |s| then s[k] else 0
  }

  predicate NextIs(mem: seq<Cell>, s: seq<int>, k: int) {
    0 <= k < |s| && 0 < s[k] < |mem| && mem[s[k]].next == Nth(s, k + 1)
  }

  // The list s of descriptors starts at head.
  predicate Listed(mem: seq<Cell>, head: int, s: seq<int>) {
    head == Nth(s, 0) && forall k :: 0 <= k < |s| ==> NextIs(mem, s, k)
  }

  lemma LemmaNextOf(mem: seq<Cell>, head: int, s: seq<int>, k: int)
    requires Listed(mem, head, s) && 0 <= k < |s|
    ensures 0 < s[k] < |mem| && mem[s[k]].next == Nth(s, k + 1)
  {
    assert NextIs(mem, s, k);
  }

  // A list depends on the next fields only.
  lemma LemmaSameNext(mem: seq<Cell>, mem': seq<Cell>, head: int, s: seq<int>)
    requires Listed(mem, head, s) && |mem'| == |mem|
    requires forall k :: 0 <= k < |s| && 0 <= s[k] < |mem| ==> mem'[s[k]].next == mem[s[k]].next
    ensures Listed(mem', head, s)
  {
    forall k | 0 <= k < |s| ensures NextIs(mem', s, k) {
      assert NextIs(mem, s, k);
    }
  }

  lemma LemmaCons(mem: seq<Cell>, head: int, d: int, s: seq<int>)
    requires Listed(mem, head, s) && 0 < d < |mem| && mem[d].next == head
    ensures Listed(mem, d, [d] + s)
  {
    var t := [d] + s;
    forall k | 0 <= k < |t| ensures NextIs(mem, t, k) {
      if k > 0 {
        assert NextIs(mem, s, k - 1);
      }
    }
  }

  lemma LemmaRest(mem: seq<Cell>, head: int, s: seq<int>)
    requires Listed(mem, head, s) && s != []
    ensures 0 < head < |mem| && Listed(mem, mem[head].next, s[1..])
  {
    assert NextIs(mem, s, 0);
    forall k | 0 <= k < |s| - 1 ensures NextIs(mem, s[1..], k) {
      assert NextIs(mem, s, k + 1);
    }
  }

  // The free objects s of a bucket are threaded through themselves.
  predicate Threaded(mem: seq<Cell>, s: seq<int>) {
    forall k :: 0 <= k < |s| ==> FirstIs(mem, s, k)
  }

  predicate FirstIs(mem: seq<Cell>, s: seq<int>, k: int) {
    0 <= k < |s| && 0 < s[k] < |mem| && mem[s[k]].first == Nth(s, k + 1)
  }

  predicate Bucketed(mem: seq<Cell>, d: int, b: Bucket) {
    && 0 < d < |mem| && 0 <= b.dir < 9 && Threaded(mem, b.free)
    && mem[d].first == PER_PAGE * b.page && mem[d].freeptr == Nth(b.free, 0)
    && mem[d].refcnt == Count(b.dir) - |b.free| && mem[d].size == SIZES[b.dir]
  }

  // The memory holds the lists of a.
  ghost predicate Shows(h: Image, a: Pool) {
    && h.used == a.pages && |h.mem| == PER_PAGE * |h.used| && |h.chain| == |a.chains| == 9
    && (forall i :: 0 <= i < 9 ==> Listed(h.mem, h.chain[i], a.chains[i]))
    && Listed(h.mem, h.free, a.spare)
    && (forall d :: d in a.info ==> Bucketed(h.mem, d, a.info[d]))
  }

  ghost predicate SameBut(old': seq<Cell>, new': seq<Cell>, page: int) {
    |new'| == |old'| && forall c :: 0 <= c < |old'| && c / PER_PAGE != page ==> new'[c] == old'[c]
  }

  // Every cell the lists go through is in a page in use.
  lemma LemmaInUse(a: Pool, p: int)
    requires Structure(a) && 0 <= p < |a.pages| && !a.pages[p]
    ensures Shaped(a) && forall i, k :: 0 <= i < 9 && 0 <= k < |a.chains[i]| ==> a.chains[i][k] in a.info
    ensures forall d :: d in a.info || d in a.spare ==> d / PER_PAGE != p
    ensures forall k :: 0 <= k < |a.spare| ==> a.spare[k] in a.spare
    ensures forall d, k :: d in a.info && 0 <= k < |a.info[d].free| ==> a.info[d].free[k] / PER_PAGE != p
  {
    forall d, k | d in a.info && 0 <= k < |a.info[d].free|
      ensures a.info[d].free[k] / PER_PAGE != p
    {
      assert GoodBucket(a, a.info[d]);
      assert a.info[d].free[k] in a.info[d].free;
    }
    assert forall i :: 0 <= i < 9 ==> AllOf(a.info, a.chains[i], i);
  }

  lemma LemmaSameFirst(mem: seq<Cell>, mem': seq<Cell>, s: seq<int>)
    requires Threaded(mem, s) && |mem'| == |mem| && forall c :: 0 <= c < |mem| ==> mem'[c].first == mem[c].first
    ensures Threaded(mem', s)
  {
    forall k | 0 <= k < |s| ensures FirstIs(mem', s, k) {
      assert FirstIs(mem, s, k);
    }
  }

  // A bucket depends on its descriptor and its free objects only.
  lemma LemmaSameThread(mem: seq<Cell>, mem': seq<Cell>, e: int, b: Bucket)
    requires Bucketed(mem, e, b) && |mem'| == |mem| && 0 <= e < |mem| && mem'[e] == mem[e]
    requires forall k :: 0 <= k < |b.free| && 0 <= b.free[k] < |mem| ==> mem'[b.free[k]] == mem[b.free[k]]
    ensures Bucketed(mem', e, b)
  {
    forall k | 0 <= k < |b.free| ensures FirstIs(mem', b.free, k) {
      assert FirstIs(mem, b.free, k);
    }
  }

  lemma LemmaSizes(h: Image, a: Pool)
    requires Shows(h, a)
    ensures h.used == a.pages && |h.mem| == PER_PAGE * |h.used| && |h.chain| == |a.chains| == 9
    ensures forall d :: d in a.info ==> 0 < d < |h.mem|
  {
    forall d | d in a.info ensures 0 < d < |h.mem| {
      assert Bucketed(h.mem, d, a.info[d]);
    }
  }

  // Writing to a page nobody uses is not seen.
  lemma LemmaGotPage(h: Image, h': Image, a: Pool, p: int)
    requires Shows(h, a) && Structure(a) && 0 < p < |a.pages| && !a.pages[p]
    requires h' == h.(mem := h'.mem, used := h.used[p := true]) && SameBut(h.mem, h'.mem, p)
    ensures Shows(h', a.(pages := a.pages[p := true]))
  {
    hide Structure, Listed, Bucketed;
    LemmaInUse(a, p);
    LemmaSizes(h, a);
    forall i | 0 <= i < 9 ensures Listed(h'.mem, h'.chain[i], a.chains[i]) {
      LemmaSameNext(h.mem, h'.mem, h.chain[i], a.chains[i]);
    }
    LemmaSameNext(h.mem, h'.mem, h.free, a.spare);
    forall d | d in a.info ensures Bucketed(h'.mem, d, a.info[d]) {
      LemmaSameThread(h.mem, h'.mem, d, a.info[d]);
    }
  }

  lemma LemmaTaken(a: Pool, p: int)
    requires Structure(a) && 0 < p < |a.pages|
    ensures Structure(a.(pages := a.pages[p := true]))
  {
    forall d | d in a.info ensures GoodBucket(a, a.info[d]) {
    }
    LemmaElsewhere(a, a.(pages := a.pages[p := true]));
  }

  lemma LemmaInited(h: Image, a: Pool, p: int)
    requires 0 < p < |a.pages| && Shows(h, a.(pages := a.pages[p := true]))
    requires forall c :: 0 <= c < |h.mem| && c / PER_PAGE == p ==>
      h.mem[c].next == if c % PER_PAGE + 1 < PER_PAGE then c + 1 else h.free
    ensures Shows(h.(free := PER_PAGE * p), a.(pages := a.pages[p := true], spare := NewDescs(p) + a.spare, descPages := a.descPages + {p}))
  {
    var s := NewDescs(p) + a.spare;
    forall k | 0 <= k < |s| ensures NextIs(h.mem, s, k) {
      if k < PER_PAGE {
        var c := PER_PAGE * p + k;
        assert s[k] == c && c / PER_PAGE == p && c % PER_PAGE == k;
        assert h.mem[c].next == if k + 1 < PER_PAGE then c + 1 else h.free;
      } else {
        assert NextIs(h.mem, a.spare, k - PER_PAGE);
      }
    }
  }

  // The new bucket of malloc, its page threaded and its descriptor filled in and linked.
  lemma LemmaNewBucket(h: Image, h': Image, a: Pool, q: int, i: int)
    requires Shows(h, a) && Structure(a) && a.spare != [] && 0 < q < |a.pages| && !a.pages[q] && 0 <= i < 9
    requires |h'.mem| == |h.mem| && 0 < h.free < |h.mem| && h'.used == h.used[q := true] && h'.free == h.mem[h.free].next
    requires h'.chain == h.chain[i := h.free]
    requires forall c :: 0 <= c < |h.mem| && c / PER_PAGE != q && c != h.free ==> h'.mem[c] == h.mem[c]
    requires h'.mem[h.free] == Cell(PER_PAGE * q, h.chain[i], PER_PAGE * q, 0, SIZES[i])
    requires Threaded(h'.mem, NewSlots(q, i))
    ensures Shows(h', Linked(a, h.free, q, i))
  {
    hide Structure, Listed, Bucketed, NewSlots;
    LemmaInUse(a, q);
    LemmaSizes(h, a);
    var d := h.free;
    LemmaSpareApart(h, a);
    forall j | 0 <= j < 9 ensures Listed(h'.mem, h.chain[j], a.chains[j]) {
      LemmaSameNext(h.mem, h'.mem, h.chain[j], a.chains[j]);
    }
    LemmaCons(h'.mem, h.chain[i], d, a.chains[i]);
    LemmaRest(h.mem, h.free, a.spare);
    LemmaSameNext(h.mem, h'.mem, h'.free, a.spare[1..]);
    LemmaFreshBucket(h'.mem, d, q, i);
    forall e | e in a.info ensures Bucketed(h'.mem, e, a.info[e]) {
      LemmaSameThread(h.mem, h'.mem, e, a.info[e]);
    }
  }

  // Nothing else the lists go through is the first spare descriptor.
  lemma LemmaSpareApart(h: Image, a: Pool)
    requires Shows(h, a) && Structure(a) && a.spare != []
    ensures h.free == a.spare[0] && h.free !in a.info && forall k :: 0 < k < |a.spare| ==> a.spare[k] != h.free
    ensures forall e, k :: e in a.info && 0 <= k < |a.info[e].free| ==> a.info[e].free[k] != h.free
  {
    assert a.spare[0] in a.spare;
    forall e | e in a.info ensures forall k :: 0 <= k < |a.info[e].free| ==> a.info[e].free[k] != h.free {
      LemmaNotDesc(a, e, h.free);
    }
  }

  lemma LemmaFreshBucket(mem: seq<Cell>, d: int, q: int, i: int)
    requires 0 <= i < 9 && 0 < d < |mem| && Threaded(mem, NewSlots(q, i))
    requires mem[d] == Cell(PER_PAGE * q, mem[d].next, PER_PAGE * q, 0, SIZES[i])
    ensures Bucketed(mem, d, Bucket(i, q, NewSlots(q, i)))
  {
    LemmaNewSlots(q, i);
  }

  lemma LemmaNewSlots(q: int, i: int)
    requires 0 <= i < 9
    ensures var s := NewSlots(q, i);
      && |s| == Count(i) && Distinct(s) && s[0] == PER_PAGE * q
      && (forall k :: 0 <= k < |s| ==> s[k] / PER_PAGE == q)
  {
    var s := NewSlots(q, i);
    LemmaSlots(q, i);
    assert forall k :: 0 <= k < |s| ==> s[k] in s;
  }

  lemma LemmaNextSlot(q: int, i: int, k: int)
    requires 0 <= i < 9 && 0 <= k < Count(i) - 1
    ensures NewSlots(q, i)[k + 1] == NewSlots(q, i)[k] + Step(i)
  {
  }

  lemma LemmaPopped(h: Image, h': Image, a: Pool, d: int)
    requires Shows(h, a) && Structure(a) && d in a.info && a.info[d].free != [] && 0 < d < |h.mem|
    requires var c := h.mem[d];
      0 <= c.freeptr < |h.mem| && h' == h.(mem := h.mem[d := c.(freeptr := h.mem[c.freeptr].first, refcnt := c.refcnt + 1)])
    ensures Shows(h', Pop(a, d))
  {
    hide Structure, Bucketed, Listed;
    var b := Pop(a, d);
    forall e | e in b.info ensures Bucketed(h'.mem, e, b.info[e]) {
      LemmaNotDesc(a, e, d);
      LemmaPoppedBucket(h.mem, d, e, a.info[e]);
    }
    forall i | 0 <= i < 9 ensures Listed(h'.mem, h'.chain[i], b.chains[i]) {
      LemmaSameNext(h.mem, h'.mem, h.chain[i], a.chains[i]);
    }
    LemmaSameNext(h.mem, h'.mem, h.free, a.spare);
  }

  lemma LemmaPoppedBucket(mem: seq<Cell>, d: int, e: int, b: Bucket)
    requires Bucketed(mem, e, b) && 0 <= d < |mem| && 0 <= mem[d].freeptr < |mem|
    requires forall k :: 0 <= k < |b.free| ==> b.free[k] != d
    requires e == d ==> b.free != []
    ensures var mem' := mem[d := mem[d].(freeptr := mem[mem[d].freeptr].first, refcnt := mem[d].refcnt + 1)];
      Bucketed(mem', e, if e == d then b.(free := b.free[1..]) else b)
  {
    var mem' := mem[d := mem[d].(freeptr := mem[mem[d].freeptr].first, refcnt := mem[d].refcnt + 1)];
    if e == d {
      assert FirstIs(mem, b.free, 0);
      forall k | 0 <= k < |b.free| - 1 ensures FirstIs(mem', b.free[1..], k) {
        assert FirstIs(mem, b.free, k + 1);
      }
    } else {
      LemmaSameThread(mem, mem', e, b);
    }
  }

  // No object is where a descriptor is.
  lemma LemmaNotDesc(a: Pool, e: int, d: int)
    requires Structure(a) && e in a.info && (d in a.info || d in a.spare)
    ensures forall k :: 0 <= k < |a.info[e].free| ==> a.info[e].free[k] != d
    ensures d / PER_PAGE != a.info[e].page
  {
    assert GoodBucket(a, a.info[e]);
    assert forall k :: 0 <= k < |a.info[e].free| ==> a.info[e].free[k] in a.info[e].free;
  }

  // ---------------------------------------------------------------- free_s, after the search

  // The object goes to the front of its bucket's free objects.
  lemma LemmaGivenBack(h: Image, h': Image, a: Pool, d: int, obj: int)
    requires Shows(h, a) && Structure(a) && LiveIn(a, d, obj) && 0 < d < |h.mem| && 0 < obj < |h.mem| && obj != d
    requires h' == h.(mem := h.mem[obj := h.mem[obj].(first := h.mem[d].freeptr)][d := h.mem[d].(freeptr := obj, refcnt := h.mem[d].refcnt - 1)])
    ensures Shows(h', Given(a, d, obj))
  {
    hide Structure, Bucketed, Listed;
    var b := Given(a, d, obj);
    forall e | e in b.info ensures Bucketed(h'.mem, e, b.info[e]) {
      LemmaNotDesc(a, e, d);
      LemmaNotDesc(a, d, e);
      LemmaNotFree(a, d, obj, e);
      LemmaGivenBucket(h.mem, h'.mem, d, obj, e, a.info[e]);
    }
    forall i | 0 <= i < 9 ensures Listed(h'.mem, h'.chain[i], b.chains[i]) {
      LemmaSameNext(h.mem, h'.mem, h.chain[i], a.chains[i]);
    }
    LemmaSameNext(h.mem, h'.mem, h.free, a.spare);
  }

  lemma LemmaGivenBucket(mem: seq<Cell>, mem': seq<Cell>, d: int, obj: int, e: int, b: Bucket)
    requires Bucketed(mem, e, b) && 0 < d < |mem| && 0 < obj < |mem| && obj != d && obj != e
    requires forall k :: 0 <= k < |b.free| ==> b.free[k] != d && b.free[k] != obj
    requires mem' == mem[obj := mem[obj].(first := mem[d].freeptr)][d := mem[d].(freeptr := obj, refcnt := mem[d].refcnt - 1)]
    ensures Bucketed(mem', e, if e == d then b.(free := [obj] + b.free) else b)
  {
    if e == d {
      var t := [obj] + b.free;
      forall k | 0 <= k < |t| ensures FirstIs(mem', t, k) {
        if k > 0 {
          assert FirstIs(mem, b.free, k - 1);
        }
      }
    } else {
      LemmaSameThread(mem, mem', e, b);
    }
  }

  // A live object is neither a descriptor nor free anywhere.
  lemma LemmaNotFree(a: Pool, d: int, obj: int, e: int)
    requires Structure(a) && LiveIn(a, d, obj) && e in a.info
    ensures obj != e && forall k :: 0 <= k < |a.info[e].free| ==> a.info[e].free[k] != obj
  {
    assert GoodBucket(a, a.info[e]) && GoodBucket(a, a.info[d]);
    assert forall k :: 0 <= k < |a.info[e].free| ==> a.info[e].free[k] in a.info[e].free;
  }

  lemma {:induction false} LemmaWithout(s: seq<int>, k: int)
    requires Distinct(s) && 0 <= k < |s|
    ensures Without(s, s[k]) == s[..k] + s[k + 1..]
  {
    if k == 0 {
      LemmaWithoutNone(s[1..], s[0]);
    } else {
      LemmaWithout(s[1..], k - 1);
    }
  }

  lemma {:induction false} LemmaWithoutNone(s: seq<int>, d: int)
    requires d !in s
    ensures Without(s, d) == s
  {
    if s != [] {
      LemmaWithoutNone(s[1..], d);
    }
  }

  // Only the descriptor before d in its chain points to d.
  lemma LemmaBefore(h: Image, a: Pool, d: int, k: int, prev: int)
    requires Shows(h, a) && Structure(a) && d in a.info && (prev in a.info || prev in a.spare)
    requires 0 <= k < |a.chains[a.info[d].dir]| && a.chains[a.info[d].dir][k] == d
    ensures 0 < prev < |h.mem| && (h.mem[prev].next == d <==> k > 0 && prev == a.chains[a.info[d].dir][k - 1])
  {
    hide GoodBucket, Bucketed, Listed;
    LemmaDirs(a, d);
    assert d != 0 by { LemmaNotNull(h, a, d); }
    assert AllOf(a.info, a.chains[a.info[d].dir], a.info[d].dir);
    if prev in a.spare {
      var j :| 0 <= j < |a.spare| && a.spare[j] == prev;
      LemmaNextOf(h.mem, h.free, a.spare, j);
      assert Nth(a.spare, j + 1) == 0 || Nth(a.spare, j + 1) in a.spare;
    } else {
      var i := a.info[prev].dir;
      LemmaDirs(a, prev);
      assert AllOf(a.info, a.chains[i], i) && Listed(h.mem, h.chain[i], a.chains[i]);
      var j :| 0 <= j < |a.chains[i]| && a.chains[i][j] == prev;
      LemmaNextOf(h.mem, h.chain[i], a.chains[i], j);
    }
  }

  lemma LemmaNotNull(h: Image, a: Pool, d: int)
    requires Shows(h, a) && d in a.info
    ensures 0 < d < |h.mem|
  {
    assert Bucketed(h.mem, d, a.info[d]);
  }

  // Taking element k out of a list: its predecessor, or the head, now skips it.
  lemma LemmaSkipped(mem: seq<Cell>, mem': seq<Cell>, head: int, head': int, s: seq<int>, k: int)
    requires Listed(mem, head, s) && Distinct(s) && 0 <= k < |s| && |mem'| == |mem| && 0 <= s[k] < |mem|
    requires if k == 0 then head' == mem[s[k]].next else head' == head && 0 <= s[k - 1] < |mem| && mem'[s[k - 1]].next == mem[s[k]].next
    requires forall c :: 0 <= c < |mem| && c != s[k] && (k > 0 ==> c != s[k - 1]) ==> mem'[c].next == mem[c].next
    ensures Listed(mem', head', s[..k] + s[k + 1..])
  {
    var t := s[..k] + s[k + 1..];
    assert NextIs(mem, s, k);
    forall j | 0 <= j < |t| ensures NextIs(mem', t, j) {
      assert NextIs(mem, s, if j < k then j else j + 1);
    }
  }

  // What free_s does to an empty bucket d, number k of its chain: unlinked, its page freed, spare.
  ghost predicate Unlinked(h: Image, h': Image, a: Pool, d: int, k: int)
    requires Shows(h, a) && Structure(a) && d in a.info && 0 <= k < |a.chains[a.info[d].dir]|
  {
    var i := a.info[d].dir;
    var prev := if k == 0 then d else a.chains[i][k - 1];
    && |h'.mem| == |h.mem| && h'.free == d && h'.used == h.used[a.info[d].page := false]
    && 0 < d < |h.mem| && 0 < prev < |h.mem|
    && h'.chain == (if k == 0 then h.chain[i := h.mem[d].next] else h.chain)
    && (forall c :: 0 <= c < |h.mem| ==> h'.mem[c] == h.mem[c].(next := h'.mem[c].next))
    && (forall c :: 0 <= c < |h.mem| && c != d && c != prev ==> h'.mem[c].next == h.mem[c].next)
    && (k > 0 ==> h'.mem[prev].next == h.mem[d].next)
    && h'.mem[d].next == h.free
  }

  lemma LemmaUnlinked(h: Image, h': Image, a: Pool, d: int, k: int)
    requires Shows(h, a) && Structure(a) && d in a.info
    requires 0 <= k < |a.chains[a.info[d].dir]| && a.chains[a.info[d].dir][k] == d
    requires Unlinked(h, h', a, d, k)
    ensures Shows(h', Removed(a, d))
  {
    hide Structure, Listed, Bucketed, Distinct;
    LemmaChainParts(h, a, d, k);
    var i := a.info[d].dir;
    var prev := if k == 0 then d else a.chains[i][k - 1];
    LemmaWithout(a.chains[i], k);
    LemmaSkipped(h.mem, h'.mem, h.chain[i], h'.chain[i], a.chains[i], k);
    forall j | 0 <= j < 9 && j != i ensures Listed(h'.mem, h'.chain[j], a.chains[j]) {
      LemmaSameNext(h.mem, h'.mem, h.chain[j], a.chains[j]);
    }
    LemmaListedMore(h.mem, h'.mem, h.free, d, a.spare, prev);
    forall e | e in a.info && e != d ensures Bucketed(h'.mem, e, a.info[e]) {
      LemmaSameBucket(h.mem, h'.mem, e, a.info[e]);
    }
  }

  lemma LemmaSameBucket(mem: seq<Cell>, mem': seq<Cell>, e: int, b: Bucket)
    requires Bucketed(mem, e, b) && |mem'| == |mem|
    requires forall c :: 0 <= c < |mem| ==> mem'[c] == mem[c].(next := mem'[c].next)
    ensures Bucketed(mem', e, b)
  {
    forall k | 0 <= k < |b.free| ensures FirstIs(mem', b.free, k) {
      assert FirstIs(mem, b.free, k);
    }
  }

  // The parts of the structure that unlinking number k of its chain needs.
  lemma LemmaChainParts(h: Image, a: Pool, d: int, k: int)
    requires Shows(h, a) && Structure(a) && d in a.info
    requires 0 <= k < |a.chains[a.info[d].dir]| && a.chains[a.info[d].dir][k] == d
    ensures var i := a.info[d].dir;
      && 0 <= i < 9 && 0 < a.info[d].page < |a.pages| && Distinct(a.chains[i])
      && (forall j, m :: 0 <= j < 9 && 0 <= m < |a.chains[j]| && j != i ==> a.chains[j][m] != d && (k > 0 ==> a.chains[j][m] != a.chains[i][k - 1]))
      && (forall m :: 0 <= m < |a.spare| ==> a.spare[m] != d && (k > 0 ==> a.spare[m] != a.chains[i][k - 1]))
  {
    LemmaDirs(a, d);
    hide GoodBucket;
    var i := a.info[d].dir;
    assert forall j :: 0 <= j < 9 ==> AllOf(a.info, a.chains[j], j);
    assert k > 0 ==> a.chains[i][k - 1] in a.info;
    assert forall m :: 0 <= m < |a.spare| ==> a.spare[m] in a.spare;
  }

  lemma LemmaListedMore(mem: seq<Cell>, mem': seq<Cell>, head: int, d: int, s: seq<int>, prev: int)
    requires Listed(mem, head, s) && |mem'| == |mem| && 0 < d < |mem| && mem'[d].next == head
    requires forall k :: 0 <= k < |s| ==> s[k] != d && s[k] != prev
    requires forall c :: 0 <= c < |mem| && c != d && c != prev ==> mem'[c].next == mem[c].next
    ensures Listed(mem', d, [d] + s)
  {
    LemmaSameNext(mem, mem', head, s);
    LemmaCons(mem', head, d, s);
  }

  /** The holder of a live object may write anything in it: no chain runs through it. */
  lemma LemmaHolderWrites(h: Image, h': Image, a: Pool, d: int, obj: int)
    requires Shows(h, a) && Structure(a) && LiveIn(a, d, obj)
    requires h' == h.(mem := h'.mem) && |h'.mem| == |h.mem|
    requires forall c :: 0 <= c < |h.mem| && !(obj <= c < obj + Step(a.info[d].dir)) ==> h'.mem[c] == h.mem[c]
    ensures Shows(h', a)
  {
    hide Structure, Step, LiveIn, Listed, Bucketed;
    LemmaOutside(a, d, obj);
    forall i | 0 <= i < 9 ensures Listed(h'.mem, h'.chain[i], a.chains[i]) {
      LemmaSameNext(h.mem, h'.mem, h.chain[i], a.chains[i]);
    }
    LemmaSameNext(h.mem, h'.mem, h.free, a.spare);
    forall e | e in a.info ensures Bucketed(h'.mem, e, a.info[e]) {
      LemmaPageField(h, a, e);
      LemmaSameThread(h.mem, h'.mem, e, a.info[e]);
    }
  }

  // Nothing that a list goes through is in a live object.
  lemma LemmaOutside(a: Pool, d: int, obj: int)
    requires Structure(a) && LiveIn(a, d, obj)
    ensures var end := obj + Step(a.info[d].dir);
      && (forall i, k :: 0 <= i < 9 && 0 <= k < |a.chains[i]| ==> !(obj <= a.chains[i][k] < end))
      && (forall k :: 0 <= k < |a.spare| ==> !(obj <= a.spare[k] < end))
      && (forall e :: e in a.info ==> !(obj <= e < end))
      && (forall e, k :: e in a.info && 0 <= k < |a.info[e].free| ==> !(obj <= a.info[e].free[k] < end))
  {
    LemmaDirs(a, d);
    LemmaInPage(obj, a.info[d].dir);
    var end := obj + Step(a.info[d].dir);
    forall e, k | e in a.info && 0 <= k < |a.info[e].free|
      ensures !(obj <= a.info[e].free[k] < end)
    {
      LemmaNotInside(a, d, obj, e, k);
    }
    forall c | c in a.info || c in a.spare
      ensures !(obj <= c < end)
    {
      LemmaNotDesc(a, d, c);
    }
    assert forall k :: 0 <= k < |a.spare| ==> a.spare[k] in a.spare;
    assert forall i :: 0 <= i < 9 ==> AllOf(a.info, a.chains[i], i);
  }

  lemma LemmaNotInside(a: Pool, d: int, obj: int, e: int, k: int)
    requires Structure(a) && LiveIn(a, d, obj) && e in a.info && 0 <= k < |a.info[e].free|
    ensures !(obj <= a.info[e].free[k] < obj + Step(a.info[d].dir))
  {
    var g := a.info[e].free[k];
    assert g in a.info[e].free && GoodBucket(a, a.info[e]);
    LemmaInPage(obj, a.info[d].dir);
    if e == d && obj < g {
      LemmaApart(obj, g, a.info[d].page, a.info[d].dir);
    }
  }

  // ---------------------------------------------------------------- the allocator

  class Heap {
    const mem: array<Cell>
    const used: array<bool>
    const chain: array<int>
    var free: int
    ghost var pool: Pool

    ghost function View(): Image
      reads this, mem, used, chain
    {
      Image(mem[..], used[..], chain[..], free)
    }

    ghost predicate Wired()
      reads this, mem, used, chain
    {
      Structure(pool) && Shows(View(), pool)
    }

    ghost predicate Valid()
      reads this, mem, used, chain
    {
      Inv(pool) && Shows(View(), pool)
    }

    // The allocator as loaded: no chains, on a machine with some pages taken.
    constructor (taken: array<bool>)
      ensures Valid() && used == taken && pool == Start(taken[..]).pool
      ensures fresh(mem) && fresh(chain)
    {
      mem := new Cell[PER_PAGE * taken.Length](_ => ZERO);
      used := taken;
      chain := new int[9](_ => 0);
      free := 0;
      pool := Start(taken[..]).pool;
    }

    // get_free_page: the last page not in use, cleared; 0 if there is none.
    method GetFreePage() returns (p: int)
      requires mem.Length == PER_PAGE * used.Length
      modifies mem, used
      ensures p == FreePage(old(used[..])) && SameBut(old(mem[..]), mem[..], p)
      ensures p == 0 ==> used[..] == old(used[..]) && mem[..] == old(mem[..])
      ensures p != 0 ==> used[..] == old(used[..])[p := true] && forall c :: PER_PAGE * p <= c < PER_PAGE * (p + 1) ==> mem[c] == ZERO
    {
      ghost var was := mem[..];
      p := FindFreePage(used);
      if p == 0 {
        return;
      }
      used[p] := true;
      for c := PER_PAGE * p to PER_PAGE * (p + 1)
        modifies mem
        invariant SameBut(was, mem[..], p) && forall k :: PER_PAGE * p <= k < c ==> mem[k] == ZERO
      {
        mem[c] := ZERO;
      }
    }

    // init_bucket_desc; false is the panic.
    method InitBucketDesc() returns (ok: bool)
      requires Wired()
      modifies this, mem, used
      ensures ok == BucketPool.InitBucketDesc(old(pool)).Some?
      ensures ok ==> Wired() && pool == BucketPool.InitBucketDesc(old(pool)).value
    {
      hide Structure, Listed, Bucketed, Shows;
      ghost var h, a := View(), pool;
      LemmaSizes(h, a);
      var first := GetFreePage();
      if first == 0 {
        return false;
      }
      var bdesc := PER_PAGE * first;
      for i := 1 to PER_PAGE
        modifies mem
        invariant bdesc == PER_PAGE * first + i - 1 && SameBut(h.mem, mem[..], first)
        invariant forall c :: PER_PAGE * first <= c < bdesc ==> mem[c].next == c + 1
      {
        mem[bdesc] := mem[bdesc].(next := bdesc + 1);
        bdesc := bdesc + 1;
      }
      mem[bdesc] := mem[bdesc].(next := free);
      LemmaInit(a, first);
      LemmaLaidOut(h, View(), a, first);
      free := PER_PAGE * first;
      pool := BucketPool.InitBucketDesc(a).value;
      ok := true;
    }

    // The chain of free objects in a fresh page.
    method ThreadPage(page: int, i: int)
      requires 0 <= i < 9 && 0 < page && PER_PAGE * (page + 1) <= mem.Length
      modifies mem
      ensures SameBut(old(mem[..]), mem[..], page) && Threaded(mem[..], NewSlots(page, i))
    {
      hide NewSlots, Step, Count;
      LemmaNewSlots(page, i);
      ghost var s := NewSlots(page, i);
      ghost var was := mem[..];
      var size, n := Step(i), Count(i);
      var cp := PER_PAGE * page;
      for k := 1 to n
        invariant 1 <= k <= |s| && cp == s[k - 1] && SameBut(was, mem[..], page)
        invariant forall j :: 0 <= j < k - 1 ==> mem[s[j]].first == s[j + 1]
      {
        LemmaNextSlot(page, i, k - 1);
        mem[cp] := mem[cp].(first := cp + size);
        cp := cp + size;
      }
      mem[cp] := mem[cp].(first := 0);
      assert forall j :: 0 <= j < n ==> mem[..][s[j]] == mem[s[j]];
    }

    // The part of malloc that makes a bucket; false is a panic.
    method NewBucket(i: int) returns (bdesc: int, ok: bool)
      requires Wired() && 0 <= i < 9
      modifies this, mem, used, chain
      ensures ok == AddBucket(old(pool), i).Some?
      ensures ok ==> Wired() && pool == AddBucket(old(pool), i).value && bdesc == pool.chains[i][0]
    {
      hide Structure, Bucketed, Shows, NewSlots, Step, Shaped;
      bdesc, ok := 0, true;
      LemmaFront(View(), pool);
      if free == 0 {
        ok := InitBucketDesc();
        if !ok {
          return;
        }
      }
      ghost var h, a := View(), pool;
      LemmaSizes(h, a);
      LemmaFront(h, a);
      bdesc := free;
      free := mem[bdesc].next;
      mem[bdesc] := mem[bdesc].(refcnt := 0, size := SIZES[i]);
      var cp := GetFreePage();
      mem[bdesc] := mem[bdesc].(first := PER_PAGE * cp, freeptr := PER_PAGE * cp);
      if cp == 0 {
        return bdesc, false;
      }
      ThreadPage(cp, i);
      ghost var threaded := mem[..];
      mem[bdesc] := mem[bdesc].(next := chain[i]);
      chain[i] := bdesc;
      LemmaSameFirst(threaded, mem[..], NewSlots(cp, i));
      LemmaNewBucket(h, View(), a, cp, i);
      LemmaLinked(a, cp, i);
      pool := Linked(a, bdesc, cp, i);
    }

    // The descriptor of a bucket of entry i that has room; 0 if none has.
    method FindRoom(i: int) returns (bdesc: int)
      requires Valid() && 0 <= i < 9
      ensures var s := pool.chains[i];
        var k := WithRoom(pool.info, s, 0);
        bdesc == Nth(s, k) && (bdesc == 0 <==> k == |s|)
    {
      hide Structure, Shows, Bucketed, Inv, GoodBucket, Listed;
      LemmaBetweenCalls(pool);
      LemmaOneChain(View(), pool, i);
      ghost var s := pool.chains[i];
      ghost var k := 0;
      bdesc := chain[i];
      while bdesc != 0
        invariant 0 <= k <= |s| && bdesc == Nth(s, k) && WithRoom(pool.info, s, k) == WithRoom(pool.info, s, 0)
        decreases |s| - k
      {
        LemmaNextOf(mem[..], chain[i], s, k);
        LemmaOneBucket(View(), pool, bdesc);
        if mem[bdesc].freeptr != 0 {
          return;
        }
        bdesc := mem[bdesc].next;
        k := k + 1;
      }
      LemmaAtEnd(mem[..], chain[i], s, k);
    }

    // malloc; ok is false on a panic.
    method Malloc(len: nat) returns (obj: int, ok: bool)
      requires Valid()
      modifies this, mem, used, chain
      ensures ok == BucketPool.Malloc(old(pool), len).Some?
      ensures ok ==> Valid() && (pool, obj) == BucketPool.Malloc(old(pool), len).value
    {
      hide Structure, Bucketed, Shows, Inv, Listed, Pop, AddBucket;
      ghost var a := pool;
      LemmaBetweenCalls(a);
      var i := 0;
      while i < 9 && SIZES[i] < len
        invariant 0 <= i <= 9 && Dir(len, i) == Dir(len, 0)
      {
        i := i + 1;
      }
      if i == 9 {
        return 0, false;
      }
      var bdesc := FindRoom(i);
      if bdesc == 0 {
        bdesc, ok := NewBucket(i);
        if !ok {
          return 0, false;
        }
        LemmaAddBucket(a, i);
      }
      LemmaPop(pool, bdesc);
      obj := PopObject(bdesc);
      ok := true;
    }

    // The last lines of malloc: the next object of a bucket that has room.
    method PopObject(bdesc: int) returns (obj: int)
      requires Wired() && bdesc in pool.info && pool.info[bdesc].free != []
      modifies this`pool, mem
      ensures Shows(View(), pool) && pool == Pop(old(pool), bdesc) && obj == old(pool).info[bdesc].free[0]
    {
      hide Structure, Bucketed, Shows, Listed, Pop;
      ghost var h, b := View(), pool;
      LemmaPoppable(h, b, bdesc);
      obj := mem[bdesc].freeptr;
      mem[bdesc] := mem[bdesc].(freeptr := mem[obj].first);
      mem[bdesc] := mem[bdesc].(refcnt := mem[bdesc].refcnt + 1);
      LemmaPopped(h, View(), b, bdesc);
      pool := Pop(b, bdesc);
    }

    // The inner loop of the search of free_s: the descriptor of the page in chain bdir, or 0, and the
    // one before it.
    method FindInChain(bdir: int, page: int) returns (bdesc: int, prev: int)
      requires Wired() && 0 <= bdir < 9
      ensures var s := pool.chains[bdir];
        var k := PlaceOf(pool.info, s, page, 0);
        (bdesc == 0 <==> k == |s|) && bdesc == Nth(s, k) && (prev == 0 || prev in pool.info)
    {
      hide Bucketed, Shows, Structure, GoodBucket, Listed;
      LemmaOneChain(View(), pool, bdir);
      ghost var s := pool.chains[bdir];
      ghost var k := 0;
      prev := 0;
      bdesc := chain[bdir];
      while bdesc != 0
        invariant 0 <= k <= |s| && bdesc == Nth(s, k) && (prev == 0 || prev in pool.info)
        invariant PlaceOf(pool.info, s, page, k) == PlaceOf(pool.info, s, page, 0)
        decreases |s| - k
      {
        LemmaNextOf(mem[..], chain[bdir], s, k);
        LemmaPageField(View(), pool, bdesc);
        if mem[bdesc].first == PER_PAGE * page {
          return;
        }
        prev := bdesc;
        bdesc := mem[bdesc].next;
        k := k + 1;
      }
      LemmaAtEnd(mem[..], chain[bdir], s, k);
    }

    // The search of free_s: the bucket of the object's page, its entry, and the one before it.
    method FindHolder(obj: nat, size: int) returns (bdir: int, bdesc: int, prev: int)
      requires Valid()
      ensures bdir == 9 <==> Holder(pool, obj / PER_PAGE, size, 0).None?
      ensures bdir != 9 ==> Holder(pool, obj / PER_PAGE, size, 0) == Some(bdesc) && bdir == pool.info[bdesc].dir
      ensures bdir != 9 ==> prev == 0 || prev in pool.info
    {
      hide Bucketed, Inv, Shows, Structure, GoodBucket, Listed, PlaceOf;
      LemmaBetweenCalls(pool);
      var page := obj / PER_PAGE;
      bdir, bdesc, prev := 0, 0, 0;
      while bdir < 9
        invariant 0 <= bdir <= 9 && Holder(pool, page, size, bdir) == Holder(pool, page, size, 0)
      {
        prev := 0;
        if SIZES[bdir] < size {
          bdir := bdir + 1;
          continue;
        }
        LemmaOneChain(View(), pool, bdir);
        bdesc, prev := FindInChain(bdir, page);
        if bdesc != 0 {
          return;
        }
        bdir := bdir + 1;
      }
    }

    // The descriptor before number k of its chain, searched for from the head; 0 if there is none.
    method FindBefore(bdir: int, bdesc: int, ghost k: int) returns (prev: int)
      requires Wired() && 0 <= bdir < 9 && 0 <= k < |pool.chains[bdir]| && pool.chains[bdir][k] == bdesc
      ensures prev == if k == 0 then 0 else pool.chains[bdir][k - 1]
    {
      hide Bucketed, Shows, Structure, GoodBucket, Listed;
      LemmaOneChain(View(), pool, bdir);
      ghost var s := pool.chains[bdir];
      LemmaNextOf(mem[..], chain[bdir], s, k);
      ghost var j := 0;
      prev := chain[bdir];
      while prev != 0
        invariant 0 <= j <= |s| && prev == Nth(s, j) && (k > 0 ==> j < k)
        decreases |s| - j
      {
        LemmaNextOf(mem[..], chain[bdir], s, j);
        if mem[prev].next == bdesc {
          return;
        }
        prev := mem[prev].next;
        j := j + 1;
      }
      LemmaAtEnd(mem[..], chain[bdir], s, j);
    }

    // The last part of free_s: an empty bucket leaves its chain, and its page and descriptor are free.
    method Unlink(bdir: int, bdesc: int, before: int)
      requires Wired() && bdesc in pool.info && bdir == pool.info[bdesc].dir
      requires before == 0 || before in pool.info || before in pool.spare
      modifies this, mem, used, chain
      ensures Shows(View(), pool) && pool == Removed(old(pool), bdesc)
    {
      hide Bucketed, Shows, Structure, GoodBucket, Listed, Without;
      ghost var h, a := View(), pool;
      ghost var k := LemmaPlaced(h, a, bdesc, before);
      var prev := before;
      if (prev != 0 && mem[prev].next != bdesc) || (prev == 0 && chain[bdir] != bdesc) {
        prev := FindBefore(bdir, bdesc, k);
      }
      assert prev == if k == 0 then 0 else a.chains[bdir][k - 1];
      if prev != 0 {
        mem[prev] := mem[prev].(next := mem[bdesc].next);
      } else {
        assert chain[bdir] == bdesc;
        chain[bdir] := mem[bdesc].next;
      }
      used[mem[bdesc].first / PER_PAGE] := false;
      mem[bdesc] := mem[bdesc].(next := free);
      free := bdesc;
      LemmaUnlinked(h, View(), a, bdesc, k);
      pool := Removed(a, bdesc);
    }

    /** The rest of free_s, which runs with interrupts off.  Interrupts may have come after the
        search: prev need not be the descriptor before bdesc any more, nor be in use at all. */
    method GiveBack(obj: int, bdir: int, bdesc: int, prev: int)
      requires Valid() && LiveIn(pool, bdesc, obj) && bdir == pool.info[bdesc].dir
      requires prev == 0 || prev in pool.info || prev in pool.spare
      modifies this, mem, used, chain
      ensures Valid() && pool == Give(old(pool), bdesc, obj)
    {
      hide Bucketed, Inv, Shows, Structure, GoodBucket, Listed, LiveIn;
      ghost var h, a := View(), pool;
      LemmaGivable(h, a, bdesc, obj);
      mem[obj] := mem[obj].(first := mem[bdesc].freeptr);
      mem[bdesc] := mem[bdesc].(freeptr := obj);
      mem[bdesc] := mem[bdesc].(refcnt := mem[bdesc].refcnt - 1);
      LemmaGivenBack(h, View(), a, bdesc, obj);
      LemmaGive(a, bdesc, obj);
      LemmaGivenStructure(a, bdesc, obj);
      pool := Given(a, bdesc, obj);
      if mem[bdesc].refcnt == 0 {
        Unlink(bdir, bdesc, prev);
      }
    }

    // free_s; ok is false on the panic about a bad address.
    method FreeS(obj: nat, size: int) returns (ok: bool)
      requires Valid() && forall d :: d in pool.info && pool.info[d].page == obj / PER_PAGE ==> LiveIn(pool, d, obj)
      modifies this, mem, used, chain
      ensures ok == Free(old(pool), obj, size).Some?
      ensures Valid() && pool == if ok then Free(old(pool), obj, size).value else old(pool)
    {
      hide Bucketed, Inv, Shows, Structure, GoodBucket, LiveIn, Give;
      LemmaBetweenCalls(pool);
      var bdir, bdesc, prev := FindHolder(obj, size);
      if bdir == 9 {
        return false;
      }
      GiveBack(obj, bdir, bdesc, prev);
      ok := true;
    }
  }

  // What giving back a live object needs to know about it.
  lemma LemmaGivable(h: Image, a: Pool, d: int, obj: int)
    requires Shows(h, a) && Inv(a) && LiveIn(a, d, obj)
    ensures Structure(a) && d in a.info && 0 <= a.info[d].dir < 9 && 0 < d < |h.mem| && 0 < obj < |h.mem| && obj != d
    ensures h.mem[d].refcnt == Count(a.info[d].dir) - |a.info[d].free| > 0
    ensures |h.chain| == |a.chains| == 9 && |h.mem| == PER_PAGE * |h.used| && |h.used| == |a.pages| && 0 <= a.info[d].page < |a.pages|
  {
    assert Bucketed(h.mem, d, a.info[d]) && GoodBucket(a, a.info[d]);
    LemmaNotFree(a, d, obj, d);
  }

  // Number k of its chain is d; whether the descriptor before tells so is in its next field.
  lemma LemmaPlaced(h: Image, a: Pool, d: int, before: int) returns (k: int)
    requires Shows(h, a) && Structure(a) && d in a.info && (before == 0 || before in a.info || before in a.spare)
    ensures var i := a.info[d].dir;
      && |a.chains| == |h.chain| == 9 && 0 <= i < 9 && 0 <= k < |a.chains[i]| && a.chains[i][k] == d
      && 0 < d < |h.mem| && (h.chain[i] == d <==> k == 0)
      && (before != 0 ==> 0 < before < |h.mem| && (h.mem[before].next == d <==> k > 0 && before == a.chains[i][k - 1]))
      && (k > 0 ==> 0 < a.chains[i][k - 1] < |h.mem| && a.chains[i][k - 1] != d)
      && |h.used| == |a.pages| && 0 <= a.info[d].page < |a.pages| && h.mem[d].first == PER_PAGE * a.info[d].page
  {
    hide Listed, Bucketed;
    LemmaDirs(a, d);
    LemmaPageField(h, a, d);
    var i := a.info[d].dir;
    LemmaOneChain(h, a, i);
    k :| 0 <= k < |a.chains[i]| && a.chains[i][k] == d;
    LemmaNextOf(h.mem, h.chain[i], a.chains[i], k);
    if k > 0 {
      LemmaNextOf(h.mem, h.chain[i], a.chains[i], k - 1);
    }
    if before != 0 {
      LemmaBefore(h, a, d, k, before);
    }
  }

  lemma LemmaOneChain(h: Image, a: Pool, i: int)
    requires Shows(h, a) && Structure(a) && 0 <= i < 9
    ensures |h.chain| == |a.chains| == 9
    ensures Listed(h.mem, h.chain[i], a.chains[i]) && AllOf(a.info, a.chains[i], i) && Distinct(a.chains[i])
    ensures h.chain[i] == Nth(a.chains[i], 0)
  {
  }

  lemma LemmaPageField(h: Image, a: Pool, d: int)
    requires Shows(h, a) && d in a.info
    ensures 0 < d < |h.mem| && h.mem[d].first == PER_PAGE * a.info[d].page
  {
    assert Bucketed(h.mem, d, a.info[d]);
  }

  lemma LemmaBetweenCalls(a: Pool)
    requires Inv(a)
    ensures Structure(a) && Shaped(a) && forall d :: d in a.info ==> 0 <= a.info[d].dir < 9 && |a.info[d].free| < Count(a.info[d].dir)
  {
  }

  lemma LemmaPoppable(h: Image, a: Pool, d: int)
    requires Shows(h, a) && d in a.info && a.info[d].free != []
    ensures 0 < d < |h.mem| && h.mem[d].freeptr == a.info[d].free[0] && 0 < a.info[d].free[0] < |h.mem|
  {
    assert Bucketed(h.mem, d, a.info[d]);
    assert FirstIs(h.mem, a.info[d].free, 0);
  }

  lemma LemmaOneBucket(h: Image, a: Pool, d: int)
    requires Shows(h, a) && d in a.info
    ensures 0 < d < |h.mem| && (h.mem[d].freeptr != 0 <==> a.info[d].free != [])
  {
    assert Bucketed(h.mem, d, a.info[d]);
    assert a.info[d].free != [] ==> FirstIs(h.mem, a.info[d].free, 0);
  }

  // The null pointer comes after the last element.
  lemma LemmaAtEnd(mem: seq<Cell>, head: int, s: seq<int>, k: int)
    requires Listed(mem, head, s) && 0 <= k <= |s| && Nth(s, k) == 0
    ensures k == |s|
  {
    assert k < |s| ==> NextIs(mem, s, k);
  }

  // free_bucket_desc is the first spare descriptor, in a page in use.
  lemma LemmaFront(h: Image, a: Pool)
    requires Shows(h, a) && Structure(a)
    ensures h.free == 0 <==> a.spare == []
    ensures a.spare != [] ==>
      && h.free == a.spare[0] && 0 < h.free < |h.mem|
      && forall p :: 0 <= p < |a.pages| && !a.pages[p] ==> h.free / PER_PAGE != p
    ensures Shaped(a)
  {
    assert a.spare != [] ==> a.spare[0] in a.spare;
  }

  // The page got for descriptors, once they are chained in front of the spare ones.
  lemma LemmaLaidOut(h: Image, h': Image, a: Pool, p: int)
    requires Shows(h, a) && Structure(a) && 0 < p < |a.pages| && !a.pages[p]
    requires h' == h.(mem := h'.mem, used := h.used[p := true]) && SameBut(h.mem, h'.mem, p)
    requires forall c :: PER_PAGE * p <= c < PER_PAGE * (p + 1) && c < |h'.mem| ==>
      h'.mem[c].next == if c % PER_PAGE + 1 < PER_PAGE then c + 1 else h.free
    ensures Shows(h'.(free := PER_PAGE * p), a.(pages := a.pages[p := true], spare := NewDescs(p) + a.spare, descPages := a.descPages + {p}))
  {
    hide Structure, Listed, Bucketed;
    LemmaGotPage(h, h', a, p);
    LemmaInited(h', a, p);
  }
}

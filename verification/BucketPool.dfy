/** lib/malloc.c without its pointers: the pages the allocator holds, the chains of bucket
    descriptors, and the objects each bucket still has to give.

    Addresses count granules of 16 bytes, the smallest object and the size of a descriptor;
    address 0 is the null pointer and page 0 is never given out. */
module BucketPool {
  import opened Basics
  import opened FreePages
  import opened Wrappers

  const PER_PAGE: int := 256
  const SIZES: seq<int> := [16, 32, 64, 128, 256, 512, 1024, 2048, 4096]

  // The granules of one object of bucket_dir[i].
  function Step(i: int): (g: int)
    requires 0 <= i < 9
    ensures 0 < g <= PER_PAGE
  {
    SIZES[i] / 16
  }

  // How many objects a page of bucket_dir[i] has.
  function Count(i: int): (c: int)
    requires 0 <= i < 9
    ensures 0 < c <= PER_PAGE && c * Step(i) == PER_PAGE
  {
    PER_PAGE / Step(i)
  }

  predicate IsSlot(g: int, page: int, i: int)
    requires 0 <= i < 9
  {
    g / PER_PAGE == page && g % PER_PAGE % Step(i) == 0
  }

  // One bucket: its place in bucket_dir, its page, and its objects that are free, next one first.
  datatype Bucket = Bucket(dir: int, page: int, free: seq<int>)

  /** pages: which pages are in use, by anyone; chains: the descriptors behind each entry of
      bucket_dir; info: the buckets by descriptor; spare: the free descriptors; descPages: the
      pages the descriptors are in. */
  datatype Pool = Pool(pages: seq<bool>, chains: seq<seq<int>>, info: map<int, Bucket>, spare: seq<int>, descPages: set<int>)

  // The descriptors of a chain are those of buckets of entry i.
  predicate AllOf(info: map<int, Bucket>, chain: seq<int>, i: int) {
    forall k :: 0 <= k < |chain| ==> chain[k] in info && info[chain[k]].dir == i
  }

  predicate Shaped(a: Pool) {
    |a.chains| == 9 && forall i :: 0 <= i < 9 ==> AllOf(a.info, a.chains[i], i)
  }

  predicate GoodBucket(a: Pool, b: Bucket) {
    && 0 <= b.dir < 9 && 0 < b.page < |a.pages| && a.pages[b.page] && b.page !in a.descPages
    && Distinct(b.free) && |b.free| <= Count(b.dir)
    && forall g :: g in b.free ==> IsSlot(g, b.page, b.dir)
  }

  // Every bucket is in the chain of its size once and owns its page; every descriptor is in one
  // chain or spare.
  ghost predicate Structure(a: Pool) {
    && Shaped(a) && (forall i :: 0 <= i < 9 ==> Distinct(a.chains[i]))
    && (forall d :: d in a.info ==> GoodBucket(a, a.info[d]) && d in a.chains[a.info[d].dir])
    && (forall d, e :: d in a.info && e in a.info && a.info[d].page == a.info[e].page ==> d == e)
    && DescsListed(a)
  }

  /** Besides, between calls no bucket is without a live object. */
  ghost predicate Inv(a: Pool) {
    Structure(a) && forall d :: d in a.info ==> |a.info[d].free| < Count(a.info[d].dir)
  }

  ghost predicate DescsListed(a: Pool) {
    && Distinct(a.spare)
    && (forall d :: d in a.spare ==> d !in a.info)
    && (forall d: int :: d in a.info || d in a.spare <==> d / PER_PAGE in a.descPages)
    && (forall q :: q in a.descPages ==> 0 < q < |a.pages| && a.pages[q])
  }

  // ---------------------------------------------------------------- malloc

  // The first entry of bucket_dir from i on whose objects are large enough; 9 is none.
  function Dir(len: nat, i: int): (r: int)
    requires 0 <= i <= 9
    ensures i <= r <= 9 && (r < 9 ==> SIZES[r] >= len)
    ensures forall k :: i <= k < r ==> SIZES[k] < len
    decreases 9 - i
  {
    if i == 9 || SIZES[i] >= len then i else Dir(len, i + 1)
  }

  // The descriptors of a fresh page.
  function NewDescs(p: int): seq<int> { seq(PER_PAGE, k => PER_PAGE * p + k) }

  // The objects of a fresh page.
  function NewSlots(p: int, i: int): seq<int>
    requires 0 <= i < 9
  {
    seq(Count(i), k => PER_PAGE * p + k * Step(i))
  }

  // init_bucket_desc; None is a panic.
  function InitBucketDesc(a: Pool): (r: Option<Pool>)
    requires Structure(a)
    ensures r.Some? ==> Structure(r.value) && r.value.spare != []
  {
    var p := FreePage(a.pages);
    if p == 0 then None
    else
      LemmaInit(a, p);
      Some(a.(pages := a.pages[p := true], spare := NewDescs(p) + a.spare, descPages := a.descPages + {p}))
  }

  // The first descriptor from place k of the chain on with a free object; the end if there is none.
  function WithRoom(info: map<int, Bucket>, chain: seq<int>, k: int): (r: int)
    requires 0 <= k <= |chain| && forall j :: 0 <= j < |chain| ==> chain[j] in info
    ensures k <= r <= |chain| && (r < |chain| ==> info[chain[r]].free != [])
    ensures forall j :: k <= j < r ==> info[chain[j]].free == []
    decreases |chain| - k
  {
    if k == |chain| || info[chain[k]].free != [] then k else WithRoom(info, chain, k + 1)
  }

  // The part of malloc that makes a new bucket and links it in; None is a panic.
  function AddBucket(a: Pool, i: int): (r: Option<Pool>)
    requires Structure(a) && 0 <= i < 9
    ensures r.Some? ==> Structure(r.value) && r.value.chains[i] != [] && r.value.info[r.value.chains[i][0]].free != []
  {
    var a1 :- if a.spare == [] then InitBucketDesc(a) else Some(a);
    var q := FreePage(a1.pages);
    if q == 0 then None
    else
      LemmaLinked(a1, q, i);
      Some(Linked(a1, a1.spare[0], q, i))
  }

  function Linked(a: Pool, d: int, q: int, i: int): Pool
    requires Shaped(a) && 0 <= i < 9 && 0 <= q < |a.pages| && a.spare != []
  {
    a.(pages := a.pages[q := true], spare := a.spare[1..], chains := a.chains[i := [d] + a.chains[i]],
       info := a.info[d := Bucket(i, q, NewSlots(q, i))])
  }

  function Pop(a: Pool, d: int): Pool
    requires d in a.info && a.info[d].free != []
  {
    a.(info := a.info[d := a.info[d].(free := a.info[d].free[1..])])
  }

  // malloc: the pool and the object; None is a panic.
  function Malloc(a: Pool, len: nat): Option<(Pool, int)>
    requires Inv(a)
  {
    var i := Dir(len, 0);
    if i == 9 then None
    else
      var k := WithRoom(a.info, a.chains[i], 0);
      if k < |a.chains[i]| then
        var d := a.chains[i][k];
        Some((Pop(a, d), a.info[d].free[0]))
      else
        var a1 :- AddBucket(a, i);
        var d := a1.chains[i][0];
        Some((Pop(a1, d), a1.info[d].free[0]))
  }

  // ---------------------------------------------------------------- free_s

  // The place of the page in a chain, from k on; the end if it is not there.
  function PlaceOf(info: map<int, Bucket>, chain: seq<int>, page: int, k: int): (r: int)
    requires 0 <= k <= |chain| && forall j :: 0 <= j < |chain| ==> chain[j] in info
    ensures k <= r <= |chain| && (r < |chain| ==> info[chain[r]].page == page)
    ensures forall j :: k <= j < r ==> info[chain[j]].page != page
    decreases |chain| - k
  {
    if k == |chain| || info[chain[k]].page == page then k else PlaceOf(info, chain, page, k + 1)
  }

  // The descriptor of a page, looked for from entry i of bucket_dir on, in the entries that fit the hint.
  function Holder(a: Pool, page: int, size: int, i: int): (d: Option<int>)
    requires Shaped(a) && 0 <= i <= 9
    ensures d.Some? ==> d.value in a.info && a.info[d.value].page == page && i <= a.info[d.value].dir < 9
    decreases 9 - i
  {
    if i == 9 then None
    else if SIZES[i] < size then Holder(a, page, size, i + 1)
    else
      var k := PlaceOf(a.info, a.chains[i], page, 0);
      if k < |a.chains[i]| then Some(a.chains[i][k]) else Holder(a, page, size, i + 1)
  }

  function Without(s: seq<int>, d: int): (r: seq<int>)
    ensures forall x :: x in r <==> x in s && x != d
    ensures Distinct(s) ==> Distinct(r)
  {
    if s == [] then []
    else if s[0] == d then Without(s[1..], d)
    else
      assert Distinct(s) ==> s[0] !in Without(s[1..], d);
      [s[0]] + Without(s[1..], d)
  }

  // An object back in front of the free ones of its bucket.
  function Given(a: Pool, d: int, obj: int): Pool
    requires d in a.info
  {
    a.(info := a.info[d := a.info[d].(free := [obj] + a.info[d].free)])
  }

  // A bucket taken out of its chain, its page and its descriptor free.
  function Removed(a: Pool, d: int): Pool
    requires d in a.info && 0 <= a.info[d].dir < |a.chains| && 0 <= a.info[d].page < |a.pages|
  {
    a.(pages := a.pages[a.info[d].page := false], chains := a.chains[a.info[d].dir := Without(a.chains[a.info[d].dir], d)],
       info := a.info - {d}, spare := [d] + a.spare)
  }

  // The part of free_s after the search.
  function Give(a: Pool, d: int, obj: int): Pool
    requires d in a.info && 0 <= a.info[d].dir < |a.chains| == 9 && 0 <= a.info[d].page < |a.pages|
  {
    var b := Given(a, d, obj);
    if |b.info[d].free| < Count(b.info[d].dir) then b else Removed(b, d)
  }

  // free_s; None is the panic on a bad address.
  function Free(a: Pool, obj: int, size: int): Option<Pool>
    requires Inv(a)
  {
    var d :- Holder(a, obj / PER_PAGE, size, 0);
    Some(Give(a, d, obj))
  }

  // ---------------------------------------------------------------- live objects

  predicate InBucket(b: Bucket, g: int)
    requires 0 <= b.dir < 9
  {
    IsSlot(g, b.page, b.dir) && g !in b.free
  }

  // Object g is given out, by the bucket of descriptor d.
  ghost predicate LiveIn(a: Pool, d: int, g: int)
  {
    d in a.info && 0 <= a.info[d].dir < 9 && InBucket(a.info[d], g)
  }

  ghost predicate Live(a: Pool, g: int) {
    exists d :: LiveIn(a, d, g)
  }

  // The buckets of a are still there in b: same size, same page.
  ghost predicate Kept(a: Pool, b: Pool, d: int) {
    d in a.info && d in b.info && b.info[d].(free := a.info[d].free) == a.info[d]
  }

  // ---------------------------------------------------------------- proofs

  lemma LemmaSlots(p: int, i: int)
    requires 0 <= i < 9
    ensures Distinct(NewSlots(p, i)) && forall g :: g in NewSlots(p, i) <==> IsSlot(g, p, i)
  {
    hide Step, Count, IsSlot;
    var s := NewSlots(p, i);
    forall k | 0 <= k < |s|
      ensures IsSlot(s[k], p, i)
    {
      LemmaSlot(p, i, k);
    }
    forall g | IsSlot(g, p, i)
      ensures g in s
    {
      LemmaPlace(g, p, i);
      assert s[g % PER_PAGE / Step(i)] == g;
    }
    forall j, k | 0 <= j < k < |s|
      ensures s[j] != s[k]
    {
      LemmaNextMultiple(j, k, Step(i));
    }
  }

  lemma LemmaSlot(p: int, i: int, k: int)
    requires 0 <= i < 9 && 0 <= k < Count(i)
    ensures IsSlot(PER_PAGE * p + k * Step(i), p, i)
  {
    LemmaStep(i);
    if
    case i == 0 =>
    case i == 1 =>
    case i == 2 =>
    case i == 3 =>
    case i == 4 =>
    case i == 5 =>
    case i == 6 =>
    case i == 7 =>
    case i == 8 =>
  }

  lemma LemmaStep(i: int)
    requires 0 <= i < 9
    ensures Step(i) == [1, 2, 4, 8, 16, 32, 64, 128, 256][i] && Count(i) == [256, 128, 64, 32, 16, 8, 4, 2, 1][i]
  {
  }

  lemma LemmaPlace(g: int, p: int, i: int)
    requires 0 <= i < 9 && IsSlot(g, p, i)
    ensures var k := g % PER_PAGE / Step(i); 0 <= k < Count(i) && PER_PAGE * p + k * Step(i) == g
  {
  }

  lemma LemmaInit(a: Pool, p: int)
    requires Structure(a) && 0 < p < |a.pages| && !a.pages[p]
    ensures Structure(a.(pages := a.pages[p := true], spare := NewDescs(p) + a.spare, descPages := a.descPages + {p}))
  {
    hide DescsListed, AllOf, Distinct, NewDescs, IsSlot, Count;
    LemmaInitDescs(a, p);
    var b := a.(pages := a.pages[p := true], spare := NewDescs(p) + a.spare, descPages := a.descPages + {p});
    forall d | d in b.info ensures GoodBucket(b, b.info[d]) {
      assert GoodBucket(a, a.info[d]);
    }
  }

  lemma LemmaInitDescs(a: Pool, p: int)
    requires DescsListed(a) && 0 < p < |a.pages| && !a.pages[p]
    ensures DescsListed(a.(pages := a.pages[p := true], spare := NewDescs(p) + a.spare, descPages := a.descPages + {p}))
  {
    var spare := NewDescs(p) + a.spare;
    forall d: int
      ensures d in NewDescs(p) <==> d / PER_PAGE == p
    {
      if d / PER_PAGE == p {
        assert NewDescs(p)[d % PER_PAGE] == d;
      }
    }
    assert forall d :: d in spare <==> d in NewDescs(p) || d in a.spare;
    assert p !in a.descPages;
    assert forall k :: PER_PAGE <= k < |spare| ==> spare[k] == a.spare[k - PER_PAGE];
    assert forall k :: 0 <= k < |a.spare| ==> a.spare[k] / PER_PAGE in a.descPages;
  }

  lemma LemmaLinked(a: Pool, q: int, i: int)
    requires Structure(a) && 0 < q < |a.pages| && !a.pages[q] && a.spare != [] && 0 <= i < 9
    ensures Structure(Linked(a, a.spare[0], q, i))
    ensures var b := Linked(a, a.spare[0], q, i); b.chains[i] != [] && b.info[b.chains[i][0]].free != []
  {
    hide Shaped, DescsListed, GoodBucket, Distinct, AllOf, IsSlot;
    LemmaSlots(q, i);
    LemmaStep(i);
    LemmaLinkedChains(a, q, i);
    LemmaLinkedBuckets(a, q, i);
    LemmaLinkedDescs(a, q, i);
  }

  lemma LemmaLinkedChains(a: Pool, q: int, i: int)
    requires Shaped(a) && (forall j :: 0 <= j < 9 ==> Distinct(a.chains[j]))
    requires DescsListed(a) && 0 < q < |a.pages| && a.spare != [] && 0 <= i < 9
    ensures var b := Linked(a, a.spare[0], q, i);
      && Shaped(b) && (forall j :: 0 <= j < 9 ==> Distinct(b.chains[j])) && a.spare[0] !in a.info
      && b.chains[i] == [a.spare[0]] + a.chains[i] && b.info[a.spare[0]] == Bucket(i, q, NewSlots(q, i))
  {
    hide NewSlots, Count;
    var d := a.spare[0];
    assert d in a.spare;
    assert forall j :: 0 <= j < 9 ==> AllOf(a.info, a.chains[j], j);
  }

  lemma LemmaLinkedBuckets(a: Pool, q: int, i: int)
    requires Structure(a) && 0 < q < |a.pages| && !a.pages[q] && a.spare != [] && 0 <= i < 9 && a.spare[0] !in a.info
    requires Distinct(NewSlots(q, i)) && |NewSlots(q, i)| <= Count(i) && forall g :: g in NewSlots(q, i) ==> IsSlot(g, q, i)
    ensures var b := Linked(a, a.spare[0], q, i);
      && (forall d :: d in b.info ==> GoodBucket(b, b.info[d]) && d in b.chains[b.info[d].dir])
      && (forall d, e :: d in b.info && e in b.info && b.info[d].page == b.info[e].page ==> d == e)
  {
    hide AllOf, Distinct, NewSlots, IsSlot, Count;
    assert q !in a.descPages;
    var b := Linked(a, a.spare[0], q, i);
    forall e | e in b.info
      ensures GoodBucket(b, b.info[e]) && e in b.chains[b.info[e].dir]
    {
      if e != a.spare[0] {
        assert GoodBucket(a, a.info[e]) && e in a.chains[a.info[e].dir];
      }
    }
    assert forall e :: e in a.info ==> a.info[e].page != q;
  }

  lemma LemmaLinkedDescs(a: Pool, q: int, i: int)
    requires Shaped(a) && DescsListed(a) && 0 < q < |a.pages| && a.spare != [] && 0 <= i < 9
    ensures DescsListed(Linked(a, a.spare[0], q, i))
  {
    hide Shaped, NewSlots;
    var d := a.spare[0];
    var b := Linked(a, d, q, i);
    assert forall e :: e in a.spare <==> e == d || e in b.spare;
    assert forall k :: 0 <= k < |b.spare| ==> b.spare[k] == a.spare[k + 1];
    assert d !in b.spare;
  }

  // The chain lookup by page finds the one bucket that owns it, unless the hint is too large for it.
  lemma {:induction false} LemmaHolder(a: Pool, d: int, size: int, i: int)
    requires Structure(a) && d in a.info && 0 <= i <= 9
    ensures Holder(a, a.info[d].page, size, i) == if i <= a.info[d].dir && size <= SIZES[a.info[d].dir] then Some(d) else None
    decreases 9 - i
  {
    LemmaDirs(a, d);
    hide DescsListed, GoodBucket;
    if i < 9 {
      LemmaHolder(a, d, size, i + 1);
      assert a.info[d].dir == i ==> d in a.chains[i];
      var k := PlaceOf(a.info, a.chains[i], a.info[d].page, 0);
      assert k < |a.chains[i]| ==> a.chains[i][k] == d;
    }
  }

  lemma {:induction false} LemmaNoHolder(a: Pool, page: int, size: int, i: int)
    requires Shaped(a) && 0 <= i <= 9 && forall d :: d in a.info ==> a.info[d].page != page
    ensures Holder(a, page, size, i).None?
    decreases 9 - i
  {
    if i < 9 {
      LemmaNoHolder(a, page, size, i + 1);
    }
  }

  // The free objects of one bucket change, and nothing else.
  lemma LemmaFreeChanged(a: Pool, d: int, f: seq<int>)
    requires Structure(a) && d in a.info && 0 <= a.info[d].dir < 9
    requires Distinct(f) && |f| <= Count(a.info[d].dir) && forall g :: g in f ==> IsSlot(g, a.info[d].page, a.info[d].dir)
    ensures var b := a.(info := a.info[d := a.info[d].(free := f)]);
      && Structure(b) && forall e, g :: e != d ==> (LiveIn(b, e, g) <==> LiveIn(a, e, g))
  {
    var b := a.(info := a.info[d := a.info[d].(free := f)]);
    hide IsSlot, Distinct, Count, InBucket;
    forall i | 0 <= i < 9 ensures AllOf(b.info, b.chains[i], i) {
      assert AllOf(a.info, a.chains[i], i);
    }
    forall e | e in b.info ensures GoodBucket(b, b.info[e]) && e in b.chains[b.info[e].dir] {
      assert GoodBucket(a, a.info[e]);
    }
    assert DescsListed(b);
  }

  lemma LemmaPop(a: Pool, d: int)
    requires Structure(a) && d in a.info && a.info[d].free != []
    requires forall e :: e in a.info && e != d ==> |a.info[e].free| < Count(a.info[e].dir)
    ensures var b := Pop(a, d);
      && Inv(b) && !LiveIn(a, d, a.info[d].free[0]) && (forall e :: e in a.info ==> Kept(a, b, e))
      && forall e, g :: LiveIn(b, e, g) <==> LiveIn(a, e, g) || (e == d && g == a.info[d].free[0])
  {
    hide Structure, IsSlot;
    LemmaDirs(a, d);
    var f := a.info[d].free;
    assert forall g :: g in f <==> g == f[0] || g in f[1..];
    LemmaFreeChanged(a, d, f[1..]);
  }

  // A new bucket has no live object and changes no other bucket.
  lemma LemmaAddBucket(a: Pool, i: int)
    requires Inv(a) && 0 <= i < 9 && AddBucket(a, i).Some?
    ensures var b := AddBucket(a, i).value;
      var d := b.chains[i][0];
      && Structure(b) && d in b.info && b.info[d].free != [] && b.info[d].dir == i
      && (forall e :: e in b.info && e != d ==> |b.info[e].free| < Count(b.info[e].dir))
      && (forall e :: e in a.info ==> Kept(a, b, e))
      && (forall e, g :: LiveIn(b, e, g) <==> LiveIn(a, e, g))
  {
    hide Inv, Structure, GoodBucket, InBucket, Count, NewSlots, NewDescs, LiveIn, Linked, Kept;
    LemmaBuckets(a);
    var a1 := if a.spare == [] then InitBucketDesc(a).value else a;
    assert a1.info == a.info;
    LemmaNewLive(a, a1, FreePage(a1.pages), i);
  }

  lemma LemmaBuckets(a: Pool)
    requires Inv(a)
    ensures Structure(a) && forall d :: d in a.info ==> 0 <= a.info[d].dir < 9 && |a.info[d].free| < Count(a.info[d].dir)
  {
  }

  lemma LemmaNewLive(a: Pool, a1: Pool, q: int, i: int)
    requires Structure(a1) && a1.info == a.info && a1.spare != [] && 0 <= i < 9 && 0 <= q < |a1.pages|
    requires forall d :: d in a.info ==> 0 <= a.info[d].dir < 9 && |a.info[d].free| < Count(a.info[d].dir)
    ensures var b := Linked(a1, a1.spare[0], q, i);
      var d := a1.spare[0];
      && b.chains[i] != [] && b.chains[i][0] == d && d in b.info && b.info[d].dir == i
      && (forall e :: e in b.info && e != d ==> 0 <= b.info[e].dir < 9 && |b.info[e].free| < Count(b.info[e].dir))
      && (forall e :: e in a.info ==> Kept(a, b, e))
      && (forall e, g :: LiveIn(b, e, g) <==> LiveIn(a, e, g))
  {
    assert a1.spare[0] in a1.spare;
    LemmaSlots(q, i);
    hide GoodBucket;
  }

  /** malloc hands out an object that was not live, of the smallest bucket size that holds the
      request; every other object stays as it was. */
  lemma LemmaMalloc(a: Pool, len: nat) returns (d: int)
    requires Inv(a) && Malloc(a, len).Some?
    ensures var (b, obj) := Malloc(a, len).value;
      && Inv(b) && LiveIn(b, d, obj) && !LiveIn(a, d, obj)
      && (forall e, g :: LiveIn(b, e, g) <==> LiveIn(a, e, g) || (e == d && g == obj))
      && (forall e :: e in a.info ==> Kept(a, b, e))
      && len <= SIZES[b.info[d].dir] && (b.info[d].dir > 0 ==> SIZES[b.info[d].dir - 1] < len)
  {
    hide Structure, GoodBucket, InBucket, Pop, AddBucket;
    var i := Dir(len, 0);
    LemmaStructure(a);
    var k := WithRoom(a.info, a.chains[i], 0);
    if k < |a.chains[i]| {
      d := a.chains[i][k];
      LemmaPop(a, d);
      assert Kept(a, Pop(a, d), d);
    } else {
      LemmaAddBucket(a, i);
      var a1 := AddBucket(a, i).value;
      LemmaStructure(a1);
      d := a1.chains[i][0];
      LemmaPop(a1, d);
      assert Kept(a1, Pop(a1, d), d);
      assert forall e :: e in a.info ==> Kept(a, a1, e) && Kept(a1, Pop(a1, d), e);
    }
  }

  /** malloc panics exactly on a request over a page, or when no bucket of the size has room and the
      pages for a new one (two, if there is no spare descriptor) are not there. */
  lemma LemmaMallocPanics(a: Pool, len: nat)
    requires Inv(a)
    ensures Malloc(a, len).None? <==>
      || len > 4096
      || ((forall d :: d in a.info && a.info[d].dir == Dir(len, 0) ==> a.info[d].free == [])
          && !exists p, q :: 0 < p < |a.pages| && 0 < q < |a.pages| && !a.pages[p] && !a.pages[q] && (a.spare == [] ==> p != q))
  {
    hide GoodBucket, DescsListed, Linked;
    var i := Dir(len, 0);
    assert i == 9 <==> len > 4096;
    if i < 9 {
      var chain := a.chains[i];
      var k := WithRoom(a.info, chain, 0);
      assert k < |chain| ==> chain[k] in a.info && a.info[chain[k]].free != [];
      if k == |chain| {
        LemmaAddFails(a, i);
      }
    }
  }

  lemma LemmaAddFails(a: Pool, i: int)
    requires Structure(a) && 0 <= i < 9
    ensures AddBucket(a, i).Some? <==>
      exists p, q :: 0 < p < |a.pages| && 0 < q < |a.pages| && !a.pages[p] && !a.pages[q] && (a.spare == [] ==> p != q)
  {
    hide Structure, Linked;
    var p := FreePage(a.pages);
    if a.spare == [] && p != 0 {
      var q := FreePage(a.pages[p := true]);
      assert q != 0 ==> q != p && !a.pages[q];
      assert forall x :: 0 < x < |a.pages| && !a.pages[x] && x != p ==> !a.pages[p := true][x];
    }
  }

  lemma LemmaStructure(a: Pool)
    requires Structure(a)
    ensures Shaped(a) && forall d :: d in a.info ==> 0 <= a.info[d].dir < 9
  {
  }

  // ---------------------------------------------------------------- counting

  ghost function Elements(s: seq<int>): (r: set<int>)
    ensures forall x :: x in r <==> x in s
  {
    set x | x in s
  }

  lemma {:induction false} LemmaElements(s: seq<int>)
    requires Distinct(s)
    ensures |Elements(s)| == |s|
  {
    if s == [] {
      assert Elements(s) == {};
    } else {
      LemmaElements(s[1..]);
      assert Elements(s) == Elements(s[1..]) + {s[0]};
    }
  }

  // Free objects and live ones together are all the objects of the page.
  ghost function LiveObjects(b: Bucket): (r: set<int>)
    requires 0 <= b.dir < 9
    ensures forall g :: g in r <==> InBucket(b, g)
  {
    LemmaSlots(b.page, b.dir);
    Elements(NewSlots(b.page, b.dir)) - Elements(b.free)
  }

  /** The reference count is the number of live objects of the page. */
  lemma LemmaRefCount(a: Pool, b: Bucket)
    requires GoodBucket(a, b)
    ensures |LiveObjects(b)| == Count(b.dir) - |b.free|
  {
    LemmaSlots(b.page, b.dir);
    LemmaElements(b.free);
    LemmaElements(NewSlots(b.page, b.dir));
    var all := Elements(NewSlots(b.page, b.dir));
    assert Elements(b.free) <= all;
    assert LiveObjects(b) == all - Elements(b.free);
  }

  // The object is the last live one of its page exactly when all of the others are free.
  lemma LemmaLast(a: Pool, b: Bucket, obj: int)
    requires GoodBucket(a, b) && InBucket(b, obj)
    ensures |b.free| + 1 <= Count(b.dir)
    ensures |b.free| + 1 == Count(b.dir) <==> forall g :: InBucket(b, g) ==> g == obj
  {
    LemmaRefCount(a, b);
    var live := LiveObjects(b);
    assert obj in live;
    assert (forall g :: InBucket(b, g) ==> g == obj) ==> live == {obj};
    if |live| == 1 {
      LemmaOne(live, obj);
    }
  }

  lemma LemmaOne(s: set<int>, x: int)
    requires x in s && |s| == 1
    ensures s == {x}
  {
    assert |s - {x}| == 0;
    assert s == {x} + (s - {x});
  }

  lemma LemmaGivenStructure(a: Pool, d: int, obj: int)
    requires Structure(a) && LiveIn(a, d, obj)
    ensures Structure(Given(a, d, obj))
    ensures forall e, g :: LiveIn(Given(a, d, obj), e, g) <==> LiveIn(a, e, g) && (e, g) != (d, obj)
  {
    hide Structure, IsSlot;
    LemmaDirs(a, d);
    LemmaLast(a, a.info[d], obj);
    var f := [obj] + a.info[d].free;
    assert forall g :: g in f <==> g == obj || g in a.info[d].free;
    LemmaFreeChanged(a, d, f);
  }

  lemma LemmaRemoved(a: Pool, d: int)
    requires Structure(a) && d in a.info && forall g :: !LiveIn(a, d, g)
    requires forall e :: e in a.info && e != d ==> |a.info[e].free| < Count(a.info[e].dir)
    ensures Inv(Removed(a, d)) && forall e, g :: LiveIn(Removed(a, d), e, g) <==> LiveIn(a, e, g)
  {
    var b := Removed(a, d);
    assert GoodBucket(a, a.info[d]);
    assert forall i :: 0 <= i < 9 ==> AllOf(a.info, a.chains[i], i);
    forall i | 0 <= i < 9 ensures AllOf(b.info, b.chains[i], i) && Distinct(b.chains[i]) {
      assert forall k :: 0 <= k < |b.chains[i]| ==> b.chains[i][k] in a.chains[i];
      if i != a.info[d].dir {
        assert d !in a.chains[i];
      }
    }
    forall e | e in b.info ensures GoodBucket(b, b.info[e]) && e in b.chains[b.info[e].dir] {
      assert GoodBucket(a, a.info[e]);
    }
    assert forall e :: e in b.spare <==> e == d || e in a.spare;
  }

  /** free_s: one object stops being live, in its own bucket; the page goes back exactly when it was
      the last live object there. */
  lemma LemmaGive(a: Pool, d: int, obj: int)
    requires Inv(a) && LiveIn(a, d, obj)
    ensures var b := Give(a, d, obj);
      && Inv(b) && |b.pages| == |a.pages|
      && (forall e, g :: LiveIn(b, e, g) <==> LiveIn(a, e, g) && (e, g) != (d, obj))
      && (forall e :: e in a.info && e != d ==> Kept(a, b, e)) && b.descPages == a.descPages
      && (d in b.info ==> b.info[d].dir == a.info[d].dir && b.info[d].page == a.info[d].page)
  {
    hide Structure, GoodBucket, InBucket, Distinct;
    LemmaDirs(a, d);
    LemmaLast(a, a.info[d], obj);
    LemmaGivenStructure(a, d, obj);
    var b := Given(a, d, obj);
    assert forall e :: e in a.info && e != d ==> b.info[e] == a.info[e];
    if |b.info[d].free| == Count(b.info[d].dir) {
      LemmaRemoved(b, d);
    }
  }

  /** The page goes back exactly when the object was the last live one of its bucket. */
  lemma LemmaPageReturned(a: Pool, d: int, obj: int)
    requires Inv(a) && LiveIn(a, d, obj)
    ensures var b := Give(a, d, obj);
      && |b.pages| == |a.pages| && 0 < a.info[d].page < |a.pages|
      && (forall p :: 0 <= p < |a.pages| && p != a.info[d].page ==> b.pages[p] == a.pages[p])
      && (b.pages[a.info[d].page] <==> exists g :: g != obj && LiveIn(a, d, g))
      && (d in b.info <==> exists g :: g != obj && LiveIn(a, d, g))
  {
    assert GoodBucket(a, a.info[d]);
    LemmaLast(a, a.info[d], obj);
    if |a.info[d].free| + 1 < Count(a.info[d].dir) {
      var g :| InBucket(a.info[d], g) && g != obj;
      assert LiveIn(a, d, g);
    }
  }

  /** A size hint that the object was or could have been asked for by finds the bucket that hint 0
      finds; a larger one does not find any, and nor does an address no bucket has. */
  lemma LemmaHint(a: Pool, obj: int, size: int)
    requires Inv(a)
    ensures forall d :: d in a.info && a.info[d].page == obj / PER_PAGE ==>
      && Free(a, obj, 0) == Some(Give(a, d, obj))
      && Free(a, obj, size) == if size <= SIZES[a.info[d].dir] then Free(a, obj, 0) else None
    ensures (forall d :: d in a.info ==> a.info[d].page != obj / PER_PAGE) ==> Free(a, obj, size).None?
  {
    hide GoodBucket, DescsListed, Give;
    forall d | d in a.info && a.info[d].page == obj / PER_PAGE
      ensures Holder(a, obj / PER_PAGE, 0, 0) == Some(d)
      ensures Holder(a, obj / PER_PAGE, size, 0) == if size <= SIZES[a.info[d].dir] then Some(d) else None
    {
      LemmaDirs(a, d);
      LemmaHolder(a, d, 0, 0);
      LemmaHolder(a, d, size, 0);
    }
    if forall d :: d in a.info ==> a.info[d].page != obj / PER_PAGE {
      LemmaNoHolder(a, obj / PER_PAGE, size, 0);
    }
  }

  lemma LemmaDirs(a: Pool, d: int)
    requires Structure(a) && d in a.info
    ensures 0 <= a.info[d].dir < 9 && GoodBucket(a, a.info[d])
  {
  }

  /** Two live objects do not overlap, and each is inside its page. */
  lemma LemmaDisjoint(a: Pool, d: int, g: int, e: int, h: int)
    requires Inv(a) && LiveIn(a, d, g) && LiveIn(a, e, h) && g < h
    ensures g + Step(a.info[d].dir) <= h
    ensures g / PER_PAGE == (g + Step(a.info[d].dir) - 1) / PER_PAGE
  {
    LemmaInPage(g, a.info[d].dir);
    if a.info[d].page == a.info[e].page {
      LemmaApart(g, h, a.info[d].page, a.info[d].dir);
    }
  }

  lemma LemmaInPage(g: int, i: int)
    requires 0 <= i < 9 && g % PER_PAGE % Step(i) == 0
    ensures g / PER_PAGE == (g + Step(i) - 1) / PER_PAGE
  {
    LemmaStep(i);
    LemmaPlace(g, g / PER_PAGE, i);
    LemmaSlot(g / PER_PAGE, i, g % PER_PAGE / Step(i));
    if
    case i == 0 =>
    case i == 1 =>
    case i == 2 =>
    case i == 3 =>
    case i == 4 =>
    case i == 5 =>
    case i == 6 =>
    case i == 7 =>
    case i == 8 =>
  }

  lemma LemmaApart(g: int, h: int, p: int, i: int)
    requires 0 <= i < 9 && IsSlot(g, p, i) && IsSlot(h, p, i) && g < h
    ensures g + Step(i) <= h
  {
    LemmaPlace(g, p, i);
    LemmaPlace(h, p, i);
    hide Step, IsSlot;
    LemmaNextMultiple(g % PER_PAGE / Step(i), h % PER_PAGE / Step(i), Step(i));
  }

  lemma LemmaNextMultiple(j: int, k: int, m: int)
    requires 0 <= j && 0 <= k && 0 < m
    ensures j < k ==> (j + 1) * m <= k * m
    ensures j >= k ==> j * m >= k * m
    ensures (j + 1) * m == j * m + m
  {
  }

  // ---------------------------------------------------------------- runs

  // What can happen: a call, or others taking and returning pages of their own.
  datatype Call = Alloc(len: nat) | Release(obj: int, size: nat) | Elsewhere(pages: seq<bool>)

  // The allocator together with what its callers hold: the requested length by object.
  datatype World = World(pool: Pool, held: map<int, nat>)

  function Start(pages: seq<bool>): World { World(Pool(pages, seq(9, _ => []), map[], [], {}), map[]) }

  ghost predicate Next(w: World, c: Call, w': World)
    requires Inv(w.pool)
  {
    match c
    case Alloc(len) =>
      var r := Malloc(w.pool, len);
      r.Some? && w' == World(r.value.0, w.held[r.value.1 := len])
    case Release(obj, size) =>
      && obj in w.held && size <= w.held[obj]
      && Free(w.pool, obj, size) == Some(w'.pool) && w'.held == w.held - {obj}
    case Elsewhere(pages) =>
      && |pages| == |w.pool.pages| && w' == w.(pool := w.pool.(pages := pages))
      && (forall q :: q in w.pool.descPages ==> pages[q])
      && (forall d :: d in w.pool.info ==> pages[w.pool.info[d].page])
  }

  /** Between calls the live objects are the ones handed out and not released, and each of them is
      large enough. */
  ghost predicate Holds(w: World) {
    && Inv(w.pool) && (forall g :: g in w.held <==> Live(w.pool, g))
    && (forall d, g :: LiveIn(w.pool, d, g) ==> w.held[g] <= SIZES[w.pool.info[d].dir])
  }

  // Releasing an object with the length it was asked for, or less, is never a bad address.
  lemma LemmaReleasable(w: World, obj: int, size: nat) returns (d: int)
    requires Holds(w) && obj in w.held && size <= w.held[obj]
    ensures LiveIn(w.pool, d, obj) && Free(w.pool, obj, size) == Some(Give(w.pool, d, obj))
  {
    d :| LiveIn(w.pool, d, obj);
    LemmaHint(w.pool, obj, size);
  }

  lemma LemmaNext(w: World, c: Call, w': World)
    requires Holds(w) && Next(w, c, w')
    ensures Holds(w')
  {
    hide Inv, Holds, Malloc, Give, LiveIn;
    LemmaHolds(w);
    match c
    case Alloc(len) =>
      var d := LemmaMalloc(w.pool, len);
      LemmaHeldMore(w, w', d, Malloc(w.pool, len).value.1, len);
    case Release(obj, size) =>
      var d := LemmaReleasable(w, obj, size);
      LemmaGive(w.pool, d, obj);
      LemmaHeldLess(w, w', d, obj);
    case Elsewhere(pages) =>
      LemmaHeldSame(w, w');
  }

  lemma LemmaHeldMore(w: World, w': World, d: int, obj: int, len: nat)
    requires Holds(w) && Inv(w'.pool) && w'.held == w.held[obj := len] && LiveIn(w'.pool, d, obj)
    requires forall e, g :: LiveIn(w'.pool, e, g) <==> LiveIn(w.pool, e, g) || (e == d && g == obj)
    requires forall e :: e in w.pool.info ==> Kept(w.pool, w'.pool, e)
    requires len <= SIZES[w'.pool.info[d].dir]
    ensures Holds(w')
  {
    forall e, g | LiveIn(w'.pool, e, g)
      ensures g in w'.held && w'.held[g] <= SIZES[w'.pool.info[e].dir]
    {
      if g == obj {
        assert w'.pool.info[e].page == w'.pool.info[d].page;
      } else {
        assert Kept(w.pool, w'.pool, e);
      }
    }
    forall g | g in w'.held ensures Live(w'.pool, g) {
      if g != obj {
        var e :| LiveIn(w.pool, e, g);
        assert LiveIn(w'.pool, e, g);
      }
    }
  }

  lemma LemmaHeldLess(w: World, w': World, d: int, obj: int)
    requires Holds(w) && Inv(w'.pool) && w'.held == w.held - {obj} && LiveIn(w.pool, d, obj)
    requires forall e, g :: LiveIn(w'.pool, e, g) <==> LiveIn(w.pool, e, g) && (e, g) != (d, obj)
    requires forall e :: e in w.pool.info && e != d ==> Kept(w.pool, w'.pool, e)
    requires d in w'.pool.info ==> w'.pool.info[d].dir == w.pool.info[d].dir
    ensures Holds(w')
  {
    assert forall e :: LiveIn(w.pool, e, obj) ==> e == d;
    forall e, g | LiveIn(w'.pool, e, g)
      ensures g in w'.held && w'.held[g] <= SIZES[w'.pool.info[e].dir]
    {
      assert LiveIn(w.pool, e, g) && (e != d ==> Kept(w.pool, w'.pool, e));
    }
    forall g | g in w'.held ensures Live(w'.pool, g) {
      var e :| LiveIn(w.pool, e, g);
      assert LiveIn(w'.pool, e, g);
    }
  }

  lemma LemmaHolds(w: World)
    requires Holds(w)
    ensures Inv(w.pool)
  {
  }

  lemma LemmaHeldSame(w: World, w': World)
    requires Holds(w) && w' == w.(pool := w.pool.(pages := w'.pool.pages)) && |w'.pool.pages| == |w.pool.pages|
    requires forall q :: q in w.pool.descPages ==> w'.pool.pages[q]
    requires forall d :: d in w.pool.info ==> w'.pool.pages[w.pool.info[d].page]
    ensures Holds(w')
  {
    LemmaElsewhere(w.pool, w'.pool);
    assert forall d, g :: LiveIn(w'.pool, d, g) <==> LiveIn(w.pool, d, g);
  }

  // The structure does not depend on the pages of others.
  lemma LemmaElsewhere(a: Pool, b: Pool)
    requires Structure(a) && b == a.(pages := b.pages) && |b.pages| == |a.pages|
    requires forall q :: q in a.descPages && 0 <= q < |b.pages| ==> b.pages[q]
    requires forall d :: d in a.info && 0 <= a.info[d].page < |b.pages| ==> b.pages[a.info[d].page]
    ensures Structure(b)
  {
    forall d | d in b.info ensures GoodBucket(b, b.info[d]) {
      assert GoodBucket(a, a.info[d]);
    }
  }

  ghost predicate Run(trace: seq<World>, calls: seq<Call>) {
    && |trace| == |calls| + 1
    && forall k :: 0 <= k < |calls| ==> Inv(trace[k].pool) ==> Next(trace[k], calls[k], trace[k + 1])
  }

  /** After any run of calls from the empty allocator, the live objects are exactly those handed out
      and not yet released, all of them large enough, and every page and descriptor is accounted for. */
  lemma {:induction false} LemmaRun(pages: seq<bool>, trace: seq<World>, calls: seq<Call>)
    requires Run(trace, calls) && trace[0] == Start(pages)
    ensures Holds(trace[|calls|])
  {
    if calls == [] {
      assert Holds(Start(pages));
    } else {
      var k := |calls| - 1;
      LemmaRun(pages, trace[..k + 1], calls[..k]);
      assert Next(trace[k], calls[k], trace[k + 1]);
      LemmaNext(trace[k], calls[k], trace[k + 1]);
    }
  }

  // ---------------------------------------------------------------- interrupts during the search

  /** A live object stays in its bucket, and every descriptor stays a descriptor, in one chain or
      spare, whatever other calls run: what the search of free_s found is still good afterwards. */
  lemma LemmaInterrupted(w: World, c: Call, w': World, d: int, obj: int, prev: int)
    requires Holds(w) && Next(w, c, w') && LiveIn(w.pool, d, obj) && (c.Release? ==> c.obj != obj)
    requires prev in w.pool.info || prev in w.pool.spare
    ensures LiveIn(w'.pool, d, obj) && d in w.pool.info && w'.pool.info[d].dir == w.pool.info[d].dir
    ensures prev in w'.pool.info || prev in w'.pool.spare
  {
    LemmaNext(w, c, w');
    hide Inv, Holds, Malloc, Give, LiveIn;
    LemmaHolds(w);
    LemmaHolds(w');
    LemmaLiveIn(w.pool, d, obj);
    match c
    case Alloc(len) =>
      var e := LemmaMalloc(w.pool, len);
      LemmaMoreDescs(w.pool, w'.pool, prev) by { LemmaDescPages(w.pool, len); }
      assert Kept(w.pool, w'.pool, d);
    case Release(o, size) =>
      var e := LemmaReleasable(w, o, size);
      LemmaGive(w.pool, e, o);
      LemmaMoreDescs(w.pool, w'.pool, prev);
      LemmaLiveIn(w'.pool, d, obj);
      assert e != d ==> Kept(w.pool, w'.pool, d);
    case Elsewhere(pages) =>
      LemmaMoreDescs(w.pool, w'.pool, prev);
      LemmaStillLive(w.pool, w'.pool, d, obj);
  }

  lemma LemmaLiveIn(a: Pool, d: int, obj: int)
    requires LiveIn(a, d, obj)
    ensures d in a.info
  {
  }

  lemma LemmaStillLive(a: Pool, b: Pool, d: int, obj: int)
    requires LiveIn(a, d, obj) && b.info == a.info
    ensures LiveIn(b, d, obj)
  {
  }

  lemma LemmaDescPages(a: Pool, len: nat)
    requires Inv(a) && Malloc(a, len).Some?
    ensures a.descPages <= Malloc(a, len).value.0.descPages
  {
    hide Structure, GoodBucket;
  }

  lemma LemmaMoreDescs(a: Pool, b: Pool, prev: int)
    requires Inv(a) && Inv(b) && a.descPages <= b.descPages && (prev in a.info || prev in a.spare)
    ensures prev in b.info || prev in b.spare
  {
  }

  // ---------------------------------------------------------------- interrupts during the walk

  // The list from x on.
  function From(s: seq<int>, x: int): seq<int> {
    if s == [] || s[0] == x then s else From(s[1..], x)
  }

  // The descriptors that next leads to from x on: along its chain, or along the spare ones.
  function Rest(a: Pool, x: int): seq<int> {
    if x in a.info && 0 <= a.info[x].dir < |a.chains| then From(a.chains[a.info[x].dir], x) else From(a.spare, x)
  }

  // The search of free_s, at descriptor x in entry i of bucket_dir, still comes to d.
  predicate Meets(a: Pool, i: int, x: int, d: int) {
    d in Rest(a, x) || (d in a.info && i < a.info[d].dir)
  }

  lemma {:induction false} LemmaFromWithout(s: seq<int>, e: int, x: int, d: int)
    requires x != e && d != e && d in From(s, x)
    ensures d in From(Without(s, e), x)
  {
    if s != [] && s[0] != x {
      LemmaFromWithout(s[1..], e, x, d);
      assert s[0] != e ==> ([s[0]] + Without(s[1..], e))[1..] == Without(s[1..], e);
    }
  }

  // malloc puts at most one new descriptor in front of a chain.
  lemma LemmaMallocChains(a: Pool, len: nat)
    requires Inv(a) && Malloc(a, len).Some?
    ensures var b := Malloc(a, len).value.0;
      && |b.chains| == |a.chains| == 9 && (forall e :: e in a.info ==> e in b.info && b.info[e].dir == a.info[e].dir)
      && forall i :: 0 <= i < 9 ==> b.chains[i] == a.chains[i] || Longer(a, b.chains[i], a.chains[i])
  {
    hide GoodBucket, DescsListed, Distinct, NewSlots;
    var i := Dir(len, 0);
    if WithRoom(a.info, a.chains[i], 0) == |a.chains[i]| {
      var a1 := if a.spare == [] then InitBucketDesc(a).value else a;
      LemmaSpareHead(a1);
      assert a1.chains == a.chains && a1.info == a.info;
    }
  }

  predicate Longer(a: Pool, s: seq<int>, r: seq<int>) { |s| == |r| + 1 && s[1..] == r && s[0] !in a.info }

  lemma LemmaSpareHead(a: Pool)
    requires DescsListed(a) && a.spare != []
    ensures a.spare[0] !in a.info
  {
    assert a.spare[0] in a.spare;
  }

  // free_s takes at most one descriptor out of a chain, the one whose last object it gets.
  lemma LemmaGiveChains(a: Pool, e: int, obj: int)
    requires Inv(a) && LiveIn(a, e, obj)
    ensures |a.chains| == 9 && 0 <= a.info[e].dir < 9 && 0 <= a.info[e].page < |a.pages|
    ensures var b := Give(a, e, obj);
      && (forall x :: x in a.info && x != e ==> x in b.info && b.info[x].dir == a.info[x].dir)
      && (e in b.info ==> b.chains == a.chains && b.info[e].dir == a.info[e].dir)
      && (e !in b.info ==>
            && b.chains == a.chains[a.info[e].dir := Without(a.chains[a.info[e].dir], e)] && b.spare == [e] + a.spare)
  {
    hide DescsListed, Distinct, InBucket;
    LemmaDirs(a, e);
  }

  /** Interrupts while free_s walks: when another call has run, the walk from where it is still comes to
      the object's bucket, exactly unless the descriptor it is at has been taken out of the chain that
      the bucket is on.  Then it goes on along the free descriptors. */
  lemma LemmaWalkInterrupted(w: World, c: Call, w': World, d: int, obj: int, x: int)
    requires Holds(w) && Next(w, c, w') && LiveIn(w.pool, d, obj) && (c.Release? ==> c.obj != obj)
    requires x in w.pool.info && Meets(w.pool, w.pool.info[x].dir, x, d)
    ensures d in w.pool.info
    ensures Meets(w'.pool, w.pool.info[x].dir, x, d) <==> x in w'.pool.info || w.pool.info[x].dir < w.pool.info[d].dir
  {
    LemmaInterrupted(w, c, w', d, obj, x);
    LemmaNext(w, c, w');
    hide Inv, Holds, Malloc, Give, LiveIn, Meets, Shaped;
    LemmaHolds(w);
    LemmaHolds(w');
    LemmaLiveIn(w.pool, d, obj);
    LemmaLiveIn(w'.pool, d, obj);
    match c
    case Alloc(len) =>
      LemmaMallocChains(w.pool, len);
      LemmaMeetsLonger(w.pool, w'.pool, x, d);
    case Release(o, size) =>
      var e := LemmaReleasable(w, o, size);
      LemmaGiveChains(w.pool, e, o);
      LemmaMeetsShorter(w.pool, w'.pool, e, x, d);
    case Elsewhere(pages) =>
      LemmaMeetsSame(w.pool, w'.pool, x, d);
  }

  lemma LemmaMeetsSame(a: Pool, b: Pool, x: int, d: int)
    requires b == a.(pages := b.pages) && x in a.info && Meets(a, a.info[x].dir, x, d)
    ensures Meets(b, a.info[x].dir, x, d)
  {
  }

  lemma LemmaMeetsLonger(a: Pool, b: Pool, x: int, d: int)
    requires Inv(a) && x in a.info && d in a.info && Meets(a, a.info[x].dir, x, d)
    requires |b.chains| == |a.chains| == 9 && (forall e :: e in a.info ==> e in b.info && b.info[e].dir == a.info[e].dir)
    requires forall i :: 0 <= i < 9 ==> b.chains[i] == a.chains[i] || Longer(a, b.chains[i], a.chains[i])
    ensures x in b.info && Meets(b, a.info[x].dir, x, d)
  {
    hide DescsListed, Distinct, Shaped;
    LemmaDirs(a, x);
  }

  lemma LemmaMeetsShorter(a: Pool, b: Pool, e: int, x: int, d: int)
    requires Inv(a) && Inv(b) && e in a.info && x in a.info && d in a.info && d in b.info && Meets(a, a.info[x].dir, x, d)
    requires |a.chains| == 9 && 0 <= a.info[e].dir < 9
    requires forall y :: y in a.info && y != e ==> y in b.info && b.info[y].dir == a.info[y].dir
    requires e in b.info ==> b.chains == a.chains && b.info[e].dir == a.info[e].dir
    requires e !in b.info ==> b.chains == a.chains[a.info[e].dir := Without(a.chains[a.info[e].dir], e)] && b.spare == [e] + a.spare
    ensures Meets(b, a.info[x].dir, x, d) <==> x in b.info || a.info[x].dir < a.info[d].dir
  {
    hide Distinct, Shaped, GoodBucket;
    LemmaDirs(a, x);
    LemmaNotSpare(b, d);
    if e !in b.info && x != e && d in Rest(a, x) {
      LemmaFromWithout(a.chains[a.info[x].dir], e, x, d);
    }
  }

  lemma LemmaNotSpare(a: Pool, d: int)
    requires Inv(a) && d in a.info
    ensures d !in a.spare
  {
  }

  // Four pages, the last of them for descriptors, and a bucket for objects of a page; then two.
  function OneBucket(): Pool {
    Pool([true, false, true, true], [[], [], [], [], [], [], [], [], [768]], map[768 := Bucket(8, 2, [])], NewDescs(3)[1..], {3})
  }

  function TwoBuckets(): Pool {
    Pool([true, true, true, true], [[], [], [], [], [], [], [], [], [769, 768]], map[768 := Bucket(8, 2, []), 769 := Bucket(8, 1, [])], NewDescs(3)[2..], {3})
  }

  lemma LemmaFirstPage(a: Pool)
    requires a == Start([true, false, false, false]).pool && Inv(a)
    ensures Malloc(a, 4096) == Some((OneBucket(), 512))
  {
    hide Structure, FreePage, Dir, WithRoom, Count, Step, NewSlots, NewDescs, Linked;
    LemmaDirOfPage();
    var a1 := a.(pages := [true, false, false, true], spare := NewDescs(3), descPages := {3});
    LemmaFirstDescs(a, a1);
    LemmaFirstLinked(a1);
  }

  lemma LemmaDirOfPage()
    ensures Dir(4096, 0) == 8
  {
  }

  lemma LemmaFirstDescs(a: Pool, a1: Pool)
    requires a == Start([true, false, false, false]).pool && Inv(a)
    requires a1 == a.(pages := [true, false, false, true], spare := NewDescs(3), descPages := {3})
    ensures a.spare == [] && a.chains[8] == [] && WithRoom(a.info, a.chains[8], 0) == 0 && InitBucketDesc(a) == Some(a1)
    ensures a1.chains == [[], [], [], [], [], [], [], [], []] && a1.info == map[] && FreePage(a1.pages) == 2
  {
    hide Structure, Count, Step, FreePage;
    LemmaLastPage(a.pages, 3);
    assert a.pages[3 := true] == a1.pages && NewDescs(3) + [] == NewDescs(3) && {} + {3} == {3};
    LemmaLastPage(a1.pages, 2);
  }

  lemma LemmaFirstLinked(a1: Pool)
    requires a1 == Pool([true, false, false, true], [[], [], [], [], [], [], [], [], []], map[], NewDescs(3), {3})
    ensures |NewDescs(3)| == PER_PAGE && NewDescs(3)[0] == 768
    ensures var b := Linked(a1, 768, 2, 8);
      && b.chains == OneBucket().chains && 768 in b.info && b.info[768].free == [512] && Pop(b, 768) == OneBucket()
  {
    hide Count, Step;
    assert a1.pages[2 := true] == [true, false, true, true];
    LemmaOneSlot(2);
    var b := Linked(a1, 768, 2, 8);
    assert [768] + a1.chains[8] == [768];
    assert b.chains == OneBucket().chains;
    assert b.info == map[768 := Bucket(8, 2, [512])] && [512][1..] == [];
    assert Pop(b, 768).info == OneBucket().info;
  }

  lemma LemmaSecondPage(a: Pool)
    requires a == OneBucket() && Inv(a)
    ensures Malloc(a, 4096) == Some((TwoBuckets(), 256))
  {
    hide Structure, FreePage, Dir, Count, Step, NewSlots, NewDescs, Linked;
    LemmaDirOfPage();
    assert a.chains[8] == [768] && a.info[768].free == [];
    assert WithRoom(a.info, a.chains[8], 0) == 1;
    LemmaSecondLinked(a);
  }

  lemma LemmaSecondLinked(a: Pool)
    requires a == OneBucket()
    ensures |NewDescs(3)| == PER_PAGE && a.spare[0] == 769 && FreePage(a.pages) == 1
    ensures Shaped(a)
    ensures var b := Linked(a, 769, 1, 8);
      && b.chains == TwoBuckets().chains && 769 in b.info && b.info[769].free == [256] && Pop(b, 769) == TwoBuckets()
  {
    hide Count, Step, FreePage;
    LemmaLastPage(a.pages, 1);
    assert a.spare[0] == 769 && a.spare[1..] == NewDescs(3)[2..];
    assert a.pages[1 := true] == [true, true, true, true];
    LemmaOneSlot(1);
    var b := Linked(a, 769, 1, 8);
    assert [769] + a.chains[8] == [769, 768];
    assert b.chains == TwoBuckets().chains;
    assert b.info == map[768 := Bucket(8, 2, []), 769 := Bucket(8, 1, [256])] && [256][1..] == [];
    assert Pop(b, 769).info == TwoBuckets().info;
  }

  lemma LemmaLastPage(pages: seq<bool>, p: int)
    requires |pages| == 4 && 0 < p < 4 && !pages[p] && forall q :: p < q < 4 ==> pages[q]
    ensures FreePage(pages) == p
  {
    assert LastFree(pages, p + 1) == p;
    assert p < 3 ==> LastFree(pages, p + 2) == p;
    assert p < 2 ==> LastFree(pages, p + 3) == p;
  }

  lemma LemmaOneSlot(p: int)
    ensures NewSlots(p, 8) == [PER_PAGE * p]
  {
  }

  /** Two objects of a page each: free_s of the first walks past the second's bucket, which is in front;
      freeing the second just then takes the walk off the chain. */
  lemma LemmaWalkLost() returns (w1: World, w: World, w': World)
    ensures Inv(Start([true, false, false, false]).pool) && Next(Start([true, false, false, false]), Alloc(4096), w1)
    ensures Holds(w1) && Next(w1, Alloc(4096), w) && Holds(w) && w.held == map[512 := 4096, 256 := 4096]
    ensures LiveIn(w.pool, 768, 512) && 769 in w.pool.info && Meets(w.pool, 8, 769, 768)
    ensures Next(w, Release(256, 0), w') && LiveIn(w'.pool, 768, 512) && !Meets(w'.pool, 8, 769, 768)
  {
    hide Malloc, Inv, Give, Free;
    var w0 := Start([true, false, false, false]);
    LemmaRun(w0.pool.pages, [w0], []);
    LemmaHolds(w0);
    LemmaFirstPage(w0.pool);
    w1 := World(OneBucket(), w0.held[512 := 4096]);
    LemmaNext(w0, Alloc(4096), w1);
    LemmaHolds(w1);
    LemmaSecondPage(w1.pool);
    w := World(TwoBuckets(), w1.held[256 := 4096]);
    LemmaNext(w1, Alloc(4096), w);
    LemmaHolds(w);
    assert w.held == map[512 := 4096, 256 := 4096];
    var d := LemmaReleasable(w, 256, 0);
    var e := LemmaReleasable(w, 512, 0);
    assert d == 769 && e == 768;
    w' := World(Give(w.pool, 769, 256), w.held - {256});
    LemmaGone(w.pool);
    LemmaNext(w, Release(256, 0), w');
    LemmaWalkInterrupted(w, Release(256, 0), w', 768, 512, 769);
    LemmaInterrupted(w, Release(256, 0), w', 768, 512, 768);
  }

  lemma LemmaGone(a: Pool)
    requires a == TwoBuckets()
    ensures 769 !in Give(a, 769, 256).info && Meets(a, 8, 769, 768)
  {
    assert a.chains[8] == [769, 768];
  }
}

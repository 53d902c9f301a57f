/** The buffer heads of fs/buffer.c and the index over them: hash table and free list. */
module BufferIndex {
  import opened Basics
  import opened Wrappers
  import opened Queues

  type Dev = d: int | 0 <= d < 0x1_0000        // b_dev, an unsigned short; 0 is no device
  type Block = b: int | 0 <= b < 0x1_0000_0000
  type Data = seq<int>                         // the bytes of a block

  // Whether a locked buffer is queued for the driver, and if so whether the transfer is done.
  datatype Request = NoRequest | Reading | Writing | Moved

  datatype Buf = Buf(dev: Dev, block: Block, uptodate: bool, dirt: bool, count: nat, lock: bool, data: Data, io: Request)

  datatype Cache = Cache(bufs: seq<Buf>, links: seq<Links>, hash: seq<int>, free: int)

  // _hashfn for a table of n buckets.
  function Bucket(dev: Dev, block: Block, n: int): (h: int)
    requires n > 0
    ensures 0 <= h < n
  {
    ((dev as bv32) ^ (block as bv32)) as int % n
  }

  predicate Sized(c: Cache) {
    |c.bufs| == |c.links| > 0 && |c.hash| > 0
  }

  function BucketOf(c: Cache, i: int): (h: int)
    requires Sized(c) && 0 <= i < |c.bufs|
    ensures 0 <= h < |c.hash|
  {
    Bucket(c.bufs[i].dev, c.bufs[i].block, |c.hash|)
  }

  predicate InRange(c: Cache, i: int) { -1 <= i < |c.links| }

  predicate Pointers(c: Cache) {
    && AllGood(c.links) && 0 <= c.free < |c.links|
    && forall h :: 0 <= h < |c.hash| ==> InRange(c, c.hash[h])
  }

  // remove_from_queues; None is the panic on a corrupted free list.
  function Remove(c: Cache, i: int): (r: Option<Cache>)
    requires Sized(c) && Pointers(c) && 0 <= i < |c.bufs|
    ensures r.Some? ==> r.value == c.(links := r.value.links, hash := r.value.hash, free := r.value.free) &&
                        Sized(r.value) && Pointers(r.value)
  {
    var h := BucketOf(c, i);
    var (l1, head) := UnlinkHash(c.links, c.hash[h], i);
    if l1[i].prevFree == NIL || l1[i].nextFree == NIL then None
    else
      Some(c.(links := UnlinkFree(l1, i), hash := c.hash[h := head], free := if c.free == i then l1[i].nextFree else c.free))
  }

  // insert_into_queues, with the null test its last line lacks.
  function Insert(c: Cache, i: int): (r: Cache)
    requires Sized(c) && Pointers(c) && 0 <= i < |c.bufs|
    ensures r == c.(links := r.links, hash := r.hash)
    ensures Sized(r)
  {
    var l1 := LinkFree(c.links, i, c.free);
    var l2 := l1[i := l1[i].(prev := NIL, next := NIL)];
    if c.bufs[i].dev == 0 then c.(links := l2)
    else
      var h := BucketOf(c, i);
      c.(links := LinkHash(l2, c.hash[h], i), hash := c.hash[h := i])
  }

  // insert_into_queues as it is written, with the word of low memory that line 163 may write.
  function InsertAsWritten(c: Cache, i: int, low: int): (Cache, int)
    requires Sized(c) && Pointers(c) && 0 <= i < |c.bufs|
  {
    var l1 := LinkFree(c.links, i, c.free);
    var l2 := l1[i := l1[i].(prev := NIL, next := NIL)];
    if c.bufs[i].dev == 0 then (c.(links := l2), low)
    else
      var h := BucketOf(c, i);
      var (l3, low') := LinkHashAsWritten(l2, c.hash[h], i, low);
      (c.(links := l3, hash := c.hash[h := i]), low')
  }

  // find_buffer: the walk along a hash chain, for at most n steps.
  function Walk(c: Cache, i: int, dev: Dev, block: Block, n: nat): (r: int)
    requires Sized(c) && Pointers(c) && InRange(c, i)
    ensures InRange(c, r)
    ensures r != NIL ==> c.bufs[r].dev == dev && c.bufs[r].block == block
    decreases n
  {
    if i == NIL || n == 0 then NIL
    else if c.bufs[i].dev == dev && c.bufs[i].block == block then i
    else Walk(c, c.links[i].next, dev, block, n - 1)
  }

  function Find(c: Cache, dev: Dev, block: Block): (r: int)
    requires Sized(c) && Pointers(c)
    ensures InRange(c, r)
    ensures r != NIL ==> c.bufs[r].dev == dev && c.bufs[r].block == block
  {
    Walk(c, c.hash[Bucket(dev, block, |c.hash|)], dev, block, |c.bufs|)
  }

  // ---------------------------------------------------------------- the shape of the index

  // The hash chains: chain h lists the buffers that have a device and hash to h.
  ghost predicate Chains(c: Cache, chains: seq<seq<int>>) {
    && |chains| == |c.hash|
    && (forall h :: 0 <= h < |chains| ==> Chain(c.links, c.hash[h], chains[h]))
    && (forall h, k :: 0 <= h < |chains| && 0 <= k < |chains[h]| ==> OnChain(c, chains[h][k], h))
  }

  predicate OnChain(c: Cache, i: int, h: int) {
    0 <= i < |c.bufs| && c.bufs[i].dev != 0 && |c.hash| > 0 && Bucket(c.bufs[i].dev, c.bufs[i].block, |c.hash|) == h
  }

  // Every buffer but one (NIL: every buffer) is where it belongs.
  ghost predicate Listed(c: Cache, chains: seq<seq<int>>, but: int)
    requires Sized(c) && |chains| == |c.hash|
  {
    forall i :: 0 <= i < |c.bufs| && i != but ==>
      if c.bufs[i].dev != 0 then i in chains[BucketOf(c, i)] else c.links[i].prev == NIL && c.links[i].next == NIL
  }

  ghost predicate FreeList(c: Cache, ring: seq<int>) {
    && Ring(c.links, ring) && |ring| > 0 && c.free == ring[0]
    && forall i :: 0 <= i < |c.bufs| ==> i in ring
  }

  ghost predicate Shape(c: Cache, ring: seq<int>, chains: seq<seq<int>>) {
    Sized(c) && FreeList(c, ring) && Chains(c, chains) && Listed(c, chains, NIL)
  }

  lemma LemmaPointers(c: Cache, ring: seq<int>, chains: seq<seq<int>>)
    requires Shape(c, ring, chains)
    ensures Pointers(c)
  {
    forall i | 0 <= i < |c.links|
      ensures Good(c.links[i], |c.links|)
    {
      assert i in ring;
      var p :| 0 <= p < |ring| && ring[p] == i;
      LemmaNeighbours(c.links, ring, p);
      if c.bufs[i].dev != 0 {
        var chain := chains[BucketOf(c, i)];
        var k :| 0 <= k < |chain| && chain[k] == i;
        assert Linked(c.links, chain, k);
      }
    }
  }

  // ---------------------------------------------------------------- find_buffer

  lemma {:induction false} LemmaWalk(c: Cache, head: int, chain: seq<int>, k: int, dev: Dev, block: Block, n: nat)
    requires Sized(c) && Pointers(c) && Chain(c.links, head, chain) && 0 <= k <= |chain| && |chain| - k <= n
    ensures InRange(c, At(chain, k))
    ensures var r := Walk(c, At(chain, k), dev, block, n);
      r == NIL ==> forall j :: k <= j < |chain| ==> c.bufs[chain[j]].dev != dev || c.bufs[chain[j]].block != block
    decreases n
  {
    if k < |chain| {
      assert Linked(c.links, chain, k);
      LemmaWalk(c, head, chain, k + 1, dev, block, n - 1);
    }
  }

  function Upto(n: nat): set<int> { if n == 0 then {} else Upto(n - 1) + {n - 1} }

  lemma {:induction false} LemmaUpto(n: nat)
    ensures |Upto(n)| == n && forall i :: i in Upto(n) <==> 0 <= i < n
  {
    if n > 0 {
      LemmaUpto(n - 1);
    }
  }

  // Distinct numbers below n are at most n.
  lemma LemmaDistinctShort(s: seq<int>, n: nat)
    requires Distinct(s) && Below(s, n)
    ensures |s| <= n
  {
    LemmaUpto(n);
    LemmaSeqSet(s);
    var used := set i | i in s;
    assert Upto(n) == used + (Upto(n) - used);
  }

  lemma {:induction false} LemmaSeqSet(s: seq<int>)
    requires Distinct(s)
    ensures |set i | i in s| == |s|
  {
    if s != [] {
      var r := s[..|s| - 1];
      LemmaSeqSet(r);
      assert (set i | i in s) == (set i | i in r) + {s[|s| - 1]};
    }
  }

  /** find_buffer agrees with a scan of all the buffers. */
  lemma LemmaFind(c: Cache, ring: seq<int>, chains: seq<seq<int>>, dev: Dev, block: Block)
    requires Shape(c, ring, chains) && Pointers(c) && dev != 0
    ensures var r := Find(c, dev, block);
      r == NIL <==> forall i :: 0 <= i < |c.bufs| ==> c.bufs[i].dev != dev || c.bufs[i].block != block
  {
    var h := Bucket(dev, block, |c.hash|);
    LemmaDistinctShort(chains[h], |c.bufs|);
    LemmaWalk(c, c.hash[h], chains[h], 0, dev, block, |c.bufs|);
    if Find(c, dev, block) == NIL {
      forall i | 0 <= i < |c.bufs|
        ensures c.bufs[i].dev != dev || c.bufs[i].block != block
      {
        if c.bufs[i].dev != 0 {
          assert i in chains[BucketOf(c, i)];
        }
      }
    }
  }

  // ---------------------------------------------------------------- moving a buffer to another block

  // What getblk does with the buffer it has found: out of the queues, a new name, into the queues.
  function Rename(c: Cache, i: int, dev: Dev, block: Block): (r: Option<Cache>)
    requires Sized(c) && Pointers(c) && 0 <= i < |c.bufs|
    ensures r.Some? ==> Sized(r.value) && |r.value.bufs| == |c.bufs| && |r.value.hash| == |c.hash|
  {
    var b := c.bufs[i].(count := 1, dirt := false, uptodate := false);
    var c1 :- Remove(c.(bufs := c.bufs[i := b]), i);
    Some(Insert(c1.(bufs := c1.bufs[i := b.(dev := dev, block := block)]), i))
  }

  // The shape of everything but buffer i, which is in no queue.
  ghost predicate ShapeBut(c: Cache, ring: seq<int>, chains: seq<seq<int>>, i: int) {
    && Sized(c) && 0 <= i < |c.bufs| && 0 <= c.free < |c.bufs|
    && (if ring == [] then |c.bufs| == 1 && c.free == i && Ring(c.links, [i]) else Ring(c.links, ring) && c.free == ring[0])
    && i !in ring && (forall j :: 0 <= j < |c.bufs| && j != i ==> j in ring)
    && Chains(c, chains) && (forall h :: 0 <= h < |chains| ==> i !in chains[h])
    && Listed(c, chains, i)
  }

  // Where i is on a list without repetitions.
  function Position(s: seq<int>, i: int): (p: int)
    requires i in s
    ensures 0 <= p < |s| && s[p] == i
  {
    if s[0] == i then 0 else 1 + Position(s[1..], i)
  }

  function RingWithout(ring: seq<int>, i: int): seq<int> {
    if i in ring then WithoutAt(ring, Position(ring, i)) else ring
  }

  lemma LemmaWithoutMembers(s: seq<int>, i: int)
    requires Distinct(s) && i in s
    ensures forall j :: j in RingWithout(s, i) <==> j in s && j != i
  {
    var p := Position(s, i);
    forall j | j in s && j != i
      ensures j in RingWithout(s, i)
    {
      var k := Position(s, j);
      assert RingWithout(s, i)[if k < p then k else k - 1] == j;
    }
  }

  function ChainsWithout(c: Cache, chains: seq<seq<int>>, i: int): seq<seq<int>>
    requires Sized(c) && |chains| == |c.hash| && 0 <= i < |c.bufs|
  {
    var h := BucketOf(c, i);
    if c.bufs[i].dev != 0 then chains[h := RingWithout(chains[h], i)] else chains
  }

  lemma LemmaChainCount(c: Cache, chains: seq<seq<int>>)
    requires Chains(c, chains)
    ensures |chains| == |c.hash|
  {
  }

  // The hash half of remove_from_queues.
  lemma LemmaRemoveHash(c: Cache, ring: seq<int>, chains: seq<seq<int>>, i: int)
    requires Shape(c, ring, chains) && Pointers(c) && 0 <= i < |c.bufs|
    ensures var h := BucketOf(c, i);
      var (l1, head) := UnlinkHash(c.links, c.hash[h], i);
      var c1 := c.(links := l1, hash := c.hash[h := head]);
      && Chains(c1, ChainsWithout(c, chains, i)) && Listed(c1, ChainsWithout(c, chains, i), i)
      && (forall g :: 0 <= g < |chains| ==> i !in ChainsWithout(c, chains, i)[g])
      && (forall j :: 0 <= j < |l1| ==> l1[j].nextFree == c.links[j].nextFree && l1[j].prevFree == c.links[j].prevFree)
  {
    var h := BucketOf(c, i);
    var (l1, head) := UnlinkHash(c.links, c.hash[h], i);
    if c.bufs[i].dev == 0 {
      assert c.links[i].prev == NIL && c.links[i].next == NIL;
      LemmaNotOnChains(c, chains, i);
      assert c.hash[h] != i by { assert Chain(c.links, c.hash[h], chains[h]); }
      assert l1 == c.links && c.hash[h := head] == c.hash;
    } else {
      LemmaRemoveChain(c, ring, chains, i);
    }
  }

  lemma LemmaNotOnChains(c: Cache, chains: seq<seq<int>>, i: int)
    requires Sized(c) && Chains(c, chains) && 0 <= i < |c.bufs|
    ensures forall g :: 0 <= g < |chains| && (c.bufs[i].dev == 0 || g != BucketOf(c, i)) ==> i !in chains[g]
  {
    forall g | 0 <= g < |chains| && i in chains[g]
      ensures c.bufs[i].dev != 0 && g == BucketOf(c, i)
    {
      var k := Position(chains[g], i);
      assert OnChain(c, chains[g][k], g);
    }
  }

  lemma LemmaRemoveChain(c: Cache, ring: seq<int>, chains: seq<seq<int>>, i: int)
    requires Shape(c, ring, chains) && Pointers(c) && 0 <= i < |c.bufs| && c.bufs[i].dev != 0
    ensures var h := BucketOf(c, i);
      var (l1, head) := UnlinkHash(c.links, c.hash[h], i);
      var c1 := c.(links := l1, hash := c.hash[h := head]);
      && Chains(c1, ChainsWithout(c, chains, i)) && Listed(c1, ChainsWithout(c, chains, i), i)
      && (forall g :: 0 <= g < |chains| ==> i !in ChainsWithout(c, chains, i)[g])
      && (forall j :: 0 <= j < |l1| ==> l1[j].nextFree == c.links[j].nextFree && l1[j].prevFree == c.links[j].prevFree)
  {
    hide Bucket, FreeList, Chains, Listed, Good, UnlinkHash, Distinct, Below, Linked, Chain, ChainsWithout;
    var h := BucketOf(c, i);
    var p := LemmaInChain(c, ring, chains, i);
    LemmaUnlinkTouches(c.links, c.hash[h], chains[h], p);
    var (l1, head) := UnlinkHash(c.links, c.hash[h], i);
    var c1 := c.(links := l1, hash := c.hash[h := head]);
    LemmaRemovedChains(c, ring, chains, i, p);
    LemmaRemovedListed(c, chains, i, c1);
  }

  lemma LemmaInChain(c: Cache, ring: seq<int>, chains: seq<seq<int>>, i: int) returns (p: int)
    requires Shape(c, ring, chains) && Pointers(c) && 0 <= i < |c.bufs| && c.bufs[i].dev != 0
    ensures var h := BucketOf(c, i);
      && |chains| == |c.hash| && Chain(c.links, c.hash[h], chains[h]) && i in chains[h]
      && p == Position(chains[h], i) && 0 <= p < |chains[h]| && chains[h][p] == i
  {
    hide Bucket, FreeList, Good, UnlinkHash;
    var h := BucketOf(c, i);
    assert i in chains[h];
    p := Position(chains[h], i);
  }

  lemma LemmaRemovedChains(c: Cache, ring: seq<int>, chains: seq<seq<int>>, i: int, p: int)
    requires Shape(c, ring, chains) && Pointers(c) && 0 <= i < |c.bufs| && c.bufs[i].dev != 0
    requires var h := BucketOf(c, i);
      |chains| == |c.hash| && p == Position(chains[h], i) && 0 <= p < |chains[h]| && chains[h][p] == i && Chain(c.links, c.hash[h], chains[h])
    ensures var h := BucketOf(c, i);
      var (l1, head) := UnlinkHash(c.links, c.hash[h], i);
      var c1 := c.(links := l1, hash := c.hash[h := head]);
      && Chains(c1, ChainsWithout(c, chains, i))
      && (forall g :: 0 <= g < |chains| ==> i !in ChainsWithout(c, chains, i)[g])
  {
    hide Bucket, FreeList, Listed, Good, UnlinkHash, Position, OnChain, Linked;
    var h := BucketOf(c, i);
    LemmaUnlinkHash(c.links, c.hash[h], chains[h], p);
    LemmaUnlinkTouches(c.links, c.hash[h], chains[h], p);
    LemmaWithoutMembers(chains[h], i);
    var (l1, head) := UnlinkHash(c.links, c.hash[h], i);
    var c1 := c.(links := l1, hash := c.hash[h := head]);
    LemmaNotOnChains(c, chains, i);
    forall g | 0 <= g < |chains|
      ensures Chain(l1, c1.hash[g], ChainsWithout(c, chains, i)[g])
    {
      if g != h {
        LemmaApart(c, chains, g, h);
        LemmaChainFrame(c.links, l1, c.hash[g], chains[g]);
      }
    }
    LemmaStillOnChains(c, chains, i, c1);
  }

  lemma LemmaStillOnChains(c: Cache, chains: seq<seq<int>>, i: int, c1: Cache)
    requires Sized(c) && Chains(c, chains) && 0 <= i < |c.bufs| && c.bufs[i].dev != 0
    requires c1 == c.(links := c1.links, hash := c1.hash) && |c1.hash| == |c.hash|
    ensures forall g, k :: 0 <= g < |chains| && 0 <= k < |ChainsWithout(c, chains, i)[g]| ==>
      OnChain(c1, ChainsWithout(c, chains, i)[g][k], g)
  {
    var chains1 := ChainsWithout(c, chains, i);
    forall g, k | 0 <= g < |chains| && 0 <= k < |chains1[g]|
      ensures OnChain(c1, chains1[g][k], g)
    {
      if g == BucketOf(c, i) && i in chains[g] {
        assert Chain(c.links, c.hash[g], chains[g]);
        LemmaWithoutMembers(chains[g], i);
        assert chains1[g][k] in chains[g];
        var j := Position(chains[g], chains1[g][k]);
        assert OnChain(c, chains[g][j], g);
      } else {
        assert OnChain(c, chains[g][k], g);
      }
    }
  }

  // Elements of different chains are different.
  lemma LemmaApart(c: Cache, chains: seq<seq<int>>, g: int, h: int)
    requires Sized(c) && Chains(c, chains) && 0 <= g < |chains| && 0 <= h < |chains| && g != h
    ensures forall k :: 0 <= k < |chains[g]| ==> chains[g][k] !in chains[h]
  {
    forall k | 0 <= k < |chains[g]|
      ensures chains[g][k] !in chains[h]
    {
      assert OnChain(c, chains[g][k], g);
      LemmaNotOnChains(c, chains, chains[g][k]);
    }
  }

  // Unlinking from a chain changes hash links of its members only, and no free-list links.
  lemma LemmaUnlinkTouches(l: seq<Links>, head: int, chain: seq<int>, p: int)
    requires Chain(l, head, chain) && 0 <= p < |chain|
    ensures l[chain[p]].next == NIL || 0 <= l[chain[p]].next < |l|
    ensures l[chain[p]].prev == NIL || 0 <= l[chain[p]].prev < |l|
    ensures var l1 := UnlinkHash(l, head, chain[p]).0;
      && (forall j :: 0 <= j < |l| ==> l1[j].nextFree == l[j].nextFree && l1[j].prevFree == l[j].prevFree)
      && (forall j :: 0 <= j < |l| && j !in chain ==> l1[j] == l[j])
  {
    assert Linked(l, chain, p);
    assert p + 1 < |chain| ==> chain[p + 1] in chain;
    assert p > 0 ==> chain[p - 1] in chain;
  }

  lemma LemmaRemovedListed(c: Cache, chains: seq<seq<int>>, i: int, c1: Cache)
    requires Sized(c) && Chains(c, chains) && Listed(c, chains, NIL) && 0 <= i < |c.bufs| && c.bufs[i].dev != 0
    requires c1 == c.(links := c1.links, hash := c1.hash) && |c1.links| == |c.links| && |c1.hash| == |c.hash|
    requires forall j :: 0 <= j < |c.links| && j !in chains[BucketOf(c, i)] ==> c1.links[j] == c.links[j]
    ensures Listed(c1, ChainsWithout(c, chains, i), i)
  {
    var h := BucketOf(c, i);
    assert i in chains[h];
    assert Chain(c.links, c.hash[h], chains[h]);
    LemmaWithoutMembers(chains[h], i);
    forall j | 0 <= j < |c.bufs| && j != i
      ensures if c1.bufs[j].dev != 0 then j in ChainsWithout(c, chains, i)[BucketOf(c1, j)] else c1.links[j].prev == NIL && c1.links[j].next == NIL
    {
      if c.bufs[j].dev == 0 {
        LemmaNotOnChains(c, chains, j);
      } else {
        assert j in chains[BucketOf(c, j)];
      }
    }
  }

  // remove_from_queues never panics and leaves everybody else where they were.
  lemma LemmaRemove(c: Cache, ring: seq<int>, chains: seq<seq<int>>, i: int)
    requires Shape(c, ring, chains) && Pointers(c) && 0 <= i < |c.bufs|
    ensures Remove(c, i).Some?
    ensures ShapeBut(Remove(c, i).value, RingWithout(ring, i), ChainsWithout(c, chains, i), i)
  {
    hide Bucket, Ring, Chain, UnlinkFree, UnlinkHash, OnChain;
    LemmaRemoveHash(c, ring, chains, i);
    var h := BucketOf(c, i);
    var (l1, head) := UnlinkHash(c.links, c.hash[h], i);
    var c1 := c.(links := l1, hash := c.hash[h := head]);
    var chains1 := ChainsWithout(c, chains, i);
    LemmaRingFrame(c.links, l1, ring);
    LemmaRemoveFree(c1, ring, i);
    var l2 := UnlinkFree(l1, i);
    LemmaChainsFrame(c1, chains1, i, c1.(links := l2, free := if c.free == i then l1[i].nextFree else c.free));
  }

  // The free-list half of remove_from_queues.
  lemma LemmaRemoveFree(c: Cache, ring: seq<int>, i: int)
    requires Sized(c) && FreeList(c, ring) && 0 <= i < |c.bufs|
    ensures 0 <= c.links[i].prevFree < |c.links| && 0 <= c.links[i].nextFree < |c.links|
    ensures var l := UnlinkFree(c.links, i);
      var free := if c.free == i then c.links[i].nextFree else c.free;
      var rest := RingWithout(ring, i);
      && i !in rest && (forall j :: 0 <= j < |c.bufs| && j != i ==> j in rest) && 0 <= free < |c.links|
      && (if rest == [] then |c.bufs| == 1 && free == i && Ring(l, [i]) else Ring(l, rest) && free == rest[0])
      && (forall j :: 0 <= j < |l| ==> l[j].next == c.links[j].next && l[j].prev == c.links[j].prev)
  {
    assert i in ring;
    var p := Position(ring, i);
    LemmaNeighbours(c.links, ring, p);
    LemmaWithoutMembers(ring, i);
    LemmaUnlinkFreeTouches(c.links, i);
    if |ring| == 1 {
      assert ring == [i];
      LemmaRelinkOnly(c.links, i);
      assert 0 in ring && |c.bufs| - 1 in ring;
    } else {
      hide UnlinkFree;
      LemmaUnlinkFree(c.links, ring, p);
      var rest := WithoutAt(ring, p);
      assert RingWithout(ring, i) == rest;
      assert rest[0] == if p == 0 then ring[1] else ring[0];
    }
  }

  lemma LemmaUnlinkFreeTouches(l: seq<Links>, i: int)
    requires 0 <= i < |l| && 0 <= l[i].prevFree < |l| && 0 <= l[i].nextFree < |l|
    ensures forall j :: 0 <= j < |l| ==> UnlinkFree(l, i)[j].next == l[j].next && UnlinkFree(l, i)[j].prev == l[j].prev
  {
  }

  // Free-list links do not matter to the chains.
  lemma LemmaChainsFrame(c: Cache, chains: seq<seq<int>>, but: int, d: Cache)
    requires Sized(c) && Sized(d) && Chains(c, chains) && Listed(c, chains, but)
    requires d.bufs == c.bufs && d.hash == c.hash && |d.links| == |c.links|
    requires forall j :: 0 <= j < |c.links| ==> d.links[j].next == c.links[j].next && d.links[j].prev == c.links[j].prev
    ensures Chains(d, chains) && Listed(d, chains, but)
  {
    hide Bucket;
    forall g | 0 <= g < |chains|
      ensures Chain(d.links, d.hash[g], chains[g])
    {
      LemmaChainFrame(c.links, d.links, c.hash[g], chains[g]);
    }
    forall g, k | 0 <= g < |chains| && 0 <= k < |chains[g]|
      ensures OnChain(d, chains[g][k], g)
    {
      assert OnChain(c, chains[g][k], g);
    }
  }

  function ChainsWith(c: Cache, chains: seq<seq<int>>, i: int): seq<seq<int>>
    requires Sized(c) && |chains| == |c.hash| && 0 <= i < |c.bufs|
  {
    var h := BucketOf(c, i);
    if c.bufs[i].dev != 0 then chains[h := [i] + chains[h]] else chains
  }

  // insert_into_queues: last on the free list, first on its hash chain.
  lemma LemmaInsert(c: Cache, ring: seq<int>, chains: seq<seq<int>>, i: int)
    requires ShapeBut(c, ring, chains, i) && Pointers(c)
    ensures Shape(Insert(c, i), ring + [i], ChainsWith(c, chains, i))
  {
    hide Bucket, Good, LinkHash;
    LemmaInsertFree(c, ring, i);
    var l1 := LinkFree(c.links, i, c.free);
    var c1 := c.(links := l1);
    LemmaChainsFrame(c, chains, i, c1);
    var l2 := l1[i := l1[i].(prev := NIL, next := NIL)];
    var c2 := c.(links := l2);
    LemmaRingFrame(l1, l2, ring + [i]);
    LemmaUnlistedFrame(c1, chains, i, c2);
    if c.bufs[i].dev != 0 {
      LemmaInsertHash(c2, chains, i);
      LemmaLinkHashFrame(l2, c.hash[BucketOf(c, i)], i);
      LemmaRingFrame(l2, LinkHash(l2, c.hash[BucketOf(c, i)], i), ring + [i]);
    }
  }

  lemma LemmaInsertFree(c: Cache, ring: seq<int>, i: int)
    requires Sized(c) && 0 <= i < |c.bufs| && 0 <= c.free < |c.bufs|
    requires if ring == [] then |c.bufs| == 1 && c.free == i && Ring(c.links, [i]) else Ring(c.links, ring) && c.free == ring[0]
    requires i !in ring && (forall j :: 0 <= j < |c.bufs| && j != i ==> j in ring)
    ensures Ring(LinkFree(c.links, i, c.free), ring + [i]) && c.free == (ring + [i])[0]
    ensures forall j :: 0 <= j < |c.bufs| ==> j in ring + [i]
    ensures forall j :: 0 <= j < |c.links| ==> LinkFree(c.links, i, c.free)[j].next == c.links[j].next
    ensures forall j :: 0 <= j < |c.links| ==> LinkFree(c.links, i, c.free)[j].prev == c.links[j].prev
  {
    if ring == [] {
      LemmaRelinkOnly(c.links, i);
      assert ring + [i] == [i];
    } else {
      LemmaLinkFree(c.links, ring, i);
    }
  }

  // The links of a buffer that is on no chain do not matter.
  lemma LemmaUnlistedFrame(c: Cache, chains: seq<seq<int>>, i: int, d: Cache)
    requires Sized(c) && Sized(d) && Chains(c, chains) && Listed(c, chains, i) && 0 <= i < |c.bufs|
    requires forall h :: 0 <= h < |chains| ==> i !in chains[h]
    requires d.bufs == c.bufs && d.hash == c.hash && |d.links| == |c.links|
    requires forall j :: 0 <= j < |c.links| && j != i ==> d.links[j] == c.links[j]
    requires d.links[i].prev == NIL && d.links[i].next == NIL
    ensures Chains(d, chains) && Listed(d, chains, i)
    ensures d.bufs[i].dev == 0 ==> Listed(d, chains, NIL)
  {
    hide Bucket;
    forall g | 0 <= g < |chains|
      ensures Chain(d.links, d.hash[g], chains[g])
    {
      LemmaChainFrame(c.links, d.links, c.hash[g], chains[g]);
    }
    forall g, k | 0 <= g < |chains| && 0 <= k < |chains[g]|
      ensures OnChain(d, chains[g][k], g)
    {
      assert OnChain(c, chains[g][k], g);
    }
  }

  /** As written, insert_into_queues leaves the same lists, and writes the word of low memory exactly if
      the buffer has a device and no other buffer with a device hashes to its bucket. */
  lemma LemmaInsertAsWritten(c: Cache, ring: seq<int>, chains: seq<seq<int>>, i: int, low: int)
    requires ShapeBut(c, ring, chains, i) && Pointers(c)
    ensures var alone := c.bufs[i].dev != 0 &&
        forall j :: 0 <= j < |c.bufs| && j != i && c.bufs[j].dev != 0 ==> BucketOf(c, j) != BucketOf(c, i);
      InsertAsWritten(c, i, low) == (Insert(c, i), if alone then i else low)
  {
    hide Bucket, Ring;
    var h := BucketOf(c, i);
    var l1 := LinkFree(c.links, i, c.free);
    var l2 := l1[i := l1[i].(prev := NIL, next := NIL)];
    assert Chain(c.links, c.hash[h], chains[h]);
    assert c.hash[h] != i by {
      assert i !in chains[h];
    }
    LemmaLinkHashAsWritten(l2, c.hash[h], i, low);
    if c.hash[h] != NIL {
      assert OnChain(c, chains[h][0], h);
    } else {
      assert chains[h] == [];
    }
  }

  /** After buffer_init, the first buffer that getblk gives a device has its bucket for itself: the
      word of low memory is written. */
  lemma LemmaFirstInsertion(c: Cache, n: nat, i: int, dev: Dev, block: Block, low: int)
    requires n > 0 && |c.bufs| == n && c.links == InitLinks(n) && |c.hash| > 0 && c.free == 0
    requires forall h :: 0 <= h < |c.hash| ==> c.hash[h] == NIL
    requires forall j :: 0 <= j < n ==> c.bufs[j].dev == 0
    requires 0 <= i < n && dev != 0
    ensures Sized(c) && Pointers(c) && Remove(c, i).Some?
    ensures var c1 := Remove(c, i).value;
      var c2 := c1.(bufs := c1.bufs[i := c1.bufs[i].(dev := dev, block := block)]);
      InsertAsWritten(c2, i, low) == (Insert(c2, i), i)
  {
    LemmaInit(c, n);
    var ring, chains: seq<seq<int>> := seq(n, k => k), seq(|c.hash|, _ => []);
    LemmaPointers(c, ring, chains);
    LemmaRemove(c, ring, chains, i);
    var c1 := Remove(c, i).value;
    var c2 := c1.(bufs := c1.bufs[i := c1.bufs[i].(dev := dev, block := block)]);
    LemmaNewName(c1, RingWithout(ring, i), ChainsWithout(c, chains, i), i, c2);
    LemmaInsertAsWritten(c2, RingWithout(ring, i), ChainsWithout(c, chains, i), i, low);
  }

  lemma LemmaLinkHashFrame(l: seq<Links>, head: int, i: int)
    requires 0 <= i < |l| && (head == NIL || 0 <= head < |l|)
    ensures forall j :: 0 <= j < |l| ==> LinkHash(l, head, i)[j].nextFree == l[j].nextFree && LinkHash(l, head, i)[j].prevFree == l[j].prevFree
  {
  }

  lemma LemmaInsertHash(c: Cache, chains: seq<seq<int>>, i: int)
    requires Sized(c) && Chains(c, chains) && Listed(c, chains, i) && 0 <= i < |c.bufs| && c.bufs[i].dev != 0
    requires forall h :: 0 <= h < |chains| ==> i !in chains[h]
    requires forall h :: 0 <= h < |c.hash| ==> InRange(c, c.hash[h])
    ensures var h := BucketOf(c, i);
      var d := c.(links := LinkHash(c.links, c.hash[h], i), hash := c.hash[h := i]);
      Chains(d, ChainsWith(c, chains, i)) && Listed(d, ChainsWith(c, chains, i), NIL)
  {
    hide Bucket;
    var h := BucketOf(c, i);
    var d := c.(links := LinkHash(c.links, c.hash[h], i), hash := c.hash[h := i]);
    var chains1 := ChainsWith(c, chains, i);
    forall g | 0 <= g < |chains|
      ensures Chain(d.links, d.hash[g], chains1[g])
    {
      assert Chain(c.links, c.hash[g], chains[g]);
      if g == h {
        LemmaLinkHash(c.links, c.hash[h], chains[h], i);
      } else {
        LemmaApart(c, chains, g, h);
        LemmaLinkTouches(c.links, c.hash[h], chains[h], i);
        LemmaChainFrame(c.links, d.links, c.hash[g], chains[g]);
      }
    }
    forall g, k | 0 <= g < |chains| && 0 <= k < |chains1[g]|
      ensures OnChain(d, chains1[g][k], g)
    {
      if g == h && k > 0 {
        assert chains1[g][k] == chains[g][k - 1];
        assert OnChain(c, chains[g][k - 1], g);
      } else if g != h {
        assert OnChain(c, chains[g][k], g);
      }
    }
    LemmaInsertListed(c, chains, i, d);
  }

  lemma LemmaLinkTouches(l: seq<Links>, head: int, chain: seq<int>, i: int)
    requires Chain(l, head, chain) && 0 <= i < |l| && (head == NIL || 0 <= head < |l|)
    ensures forall j :: 0 <= j < |l| && j !in chain && j != i ==> LinkHash(l, head, i)[j] == l[j]
  {
  }

  lemma LemmaInsertListed(c: Cache, chains: seq<seq<int>>, i: int, d: Cache)
    requires Sized(c) && Sized(d) && Chains(c, chains) && Listed(c, chains, i) && 0 <= i < |c.bufs| && c.bufs[i].dev != 0
    requires d.bufs == c.bufs && |d.links| == |c.links| && |d.hash| == |c.hash| && InRange(c, c.hash[BucketOf(c, i)])
    requires d.links == LinkHash(c.links, c.hash[BucketOf(c, i)], i)
    ensures Listed(d, ChainsWith(c, chains, i), NIL)
  {
    hide Bucket, LinkHash;
    var h := BucketOf(c, i);
    assert Chain(c.links, c.hash[h], chains[h]);
    LemmaLinkTouches(c.links, c.hash[h], chains[h], i);
    forall j | 0 <= j < |c.bufs|
      ensures if d.bufs[j].dev != 0 then j in ChainsWith(c, chains, i)[BucketOf(d, j)] else d.links[j].prev == NIL && d.links[j].next == NIL
    {
      if c.bufs[j].dev == 0 {
        LemmaNotOnChains(c, chains, j);
      } else if j != i {
        assert j in chains[BucketOf(c, j)];
      }
    }
  }

  /** getblk's reuse of buffer i keeps the index: i moves to the end of the free list and to the
      front of its new chain; everybody else keeps their order. */
  lemma LemmaRename(c: Cache, ring: seq<int>, chains: seq<seq<int>>, i: int, dev: Dev, block: Block)
    requires Shape(c, ring, chains) && Pointers(c) && 0 <= i < |c.bufs|
    ensures Rename(c, i, dev, block).Some?
    ensures var c' := Rename(c, i, dev, block).value;
      && (exists chains' :: Shape(c', RingWithout(ring, i) + [i], chains'))
      && c'.bufs == c.bufs[i := c.bufs[i].(count := 1, dirt := false, uptodate := false, dev := dev, block := block)]
  {
    hide Bucket, Good, Ring, Chains, Listed, RingWithout, ChainsWithout, ChainsWith, Remove, Insert;
    LemmaChainCount(c, chains);
    var b := c.bufs[i].(count := 1, dirt := false, uptodate := false);
    var c0 := c.(bufs := c.bufs[i := b]);
    LemmaSameNames(c, ring, chains, c0);
    LemmaRemove(c0, ring, chains, i);
    var c1 := Remove(c0, i).value;
    var chains1 := ChainsWithout(c0, chains, i);
    var c2 := c1.(bufs := c1.bufs[i := b.(dev := dev, block := block)]);
    LemmaNewName(c1, RingWithout(ring, i), chains1, i, c2);
    LemmaInsert(c2, RingWithout(ring, i), chains1, i);
  }

  // The index depends on the names of the buffers only.
  lemma LemmaSameNames(c: Cache, ring: seq<int>, chains: seq<seq<int>>, d: Cache)
    requires Shape(c, ring, chains) && d == c.(bufs := d.bufs) && |d.bufs| == |c.bufs|
    requires forall i :: 0 <= i < |c.bufs| ==> d.bufs[i].dev == c.bufs[i].dev && d.bufs[i].block == c.bufs[i].block
    ensures Shape(d, ring, chains)
  {
    hide Bucket;
    forall g, k | 0 <= g < |chains| && 0 <= k < |chains[g]|
      ensures OnChain(d, chains[g][k], g)
    {
      assert OnChain(c, chains[g][k], g);
    }
    forall i | 0 <= i < |c.bufs|
      ensures BucketOf(d, i) == BucketOf(c, i)
    {
    }
  }

  lemma LemmaNewName(c: Cache, ring: seq<int>, chains: seq<seq<int>>, i: int, d: Cache)
    requires ShapeBut(c, ring, chains, i) && d == c.(bufs := d.bufs) && |d.bufs| == |c.bufs|
    requires forall j :: 0 <= j < |c.bufs| && j != i ==> d.bufs[j] == c.bufs[j]
    ensures ShapeBut(d, ring, chains, i)
  {
    hide Bucket;
    forall g, k | 0 <= g < |chains| && 0 <= k < |chains[g]|
      ensures OnChain(d, chains[g][k], g)
    {
      assert OnChain(c, chains[g][k], g);
      assert chains[g][k] in chains[g];
    }
    forall j | 0 <= j < |c.bufs| && j != i
      ensures BucketOf(d, j) == BucketOf(c, j)
    {
    }
  }

  ghost predicate Indexed(c: Cache) {
    exists ring, chains :: Shape(c, ring, chains)
  }

  // ---------------------------------------------------------------- the choice of getblk

  function Badness(b: Buf): int { (if b.dirt then 2 else 0) + (if b.lock then 1 else 0) }

  // getblk's do-while loop from the buffer tmp on, with bh the best so far, for at most n rounds.
  function Scan(c: Cache, tmp: int, bh: int, n: nat): (r: int)
    requires Sized(c) && Pointers(c) && 0 <= tmp < |c.bufs| && InRange(c, bh)
    ensures InRange(c, r)
    decreases n
  {
    var better := c.bufs[tmp].count == 0 && (bh == NIL || Badness(c.bufs[tmp]) < Badness(c.bufs[bh]));
    var bh' := if better then tmp else bh;
    var next := c.links[tmp].nextFree;
    if (better && Badness(c.bufs[tmp]) == 0) || next == c.free || n == 0 || next == NIL then bh'
    else Scan(c, next, bh', n - 1)
  }

  function Choose(c: Cache): (r: int)
    requires Sized(c) && Pointers(c)
    ensures InRange(c, r)
  {
    Scan(c, c.free, NIL, |c.bufs|)
  }

  // No worse buffer comes before p, and no better one among the first k of the ring.
  predicate BestAt(c: Cache, ring: seq<int>, k: int, p: int)
    requires Below(ring, |c.bufs|) && 0 <= k <= |ring|
  {
    && 0 <= p < k && c.bufs[ring[p]].count == 0
    && (forall q :: 0 <= q < p && c.bufs[ring[q]].count == 0 ==> Badness(c.bufs[ring[p]]) < Badness(c.bufs[ring[q]]))
    && (forall q :: p <= q < k && c.bufs[ring[q]].count == 0 ==> Badness(c.bufs[ring[p]]) <= Badness(c.bufs[ring[q]]))
  }

  // r is the first of the least bad unused buffers among the first k of the ring; NIL: all are used.
  ghost predicate Best(c: Cache, ring: seq<int>, k: int, r: int)
    requires Below(ring, |c.bufs|) && 0 <= k <= |ring|
  {
    if r == NIL then forall q :: 0 <= q < k ==> c.bufs[ring[q]].count > 0
    else exists p :: BestAt(c, ring, k, p) && ring[p] == r
  }

  lemma LemmaBestStep(c: Cache, ring: seq<int>, k: int, bh: int)
    requires Below(ring, |c.bufs|) && 0 <= k < |ring| && -1 <= bh < |c.bufs| && Best(c, ring, k, bh)
    ensures var tmp := ring[k];
      var better := c.bufs[tmp].count == 0 && (bh == NIL || Badness(c.bufs[tmp]) < Badness(c.bufs[bh]));
      Best(c, ring, k + 1, if better then tmp else bh)
  {
    var tmp := ring[k];
    var better := c.bufs[tmp].count == 0 && (bh == NIL || Badness(c.bufs[tmp]) < Badness(c.bufs[bh]));
    if bh != NIL {
      var p :| BestAt(c, ring, k, p) && ring[p] == bh;
      if !better {
        assert BestAt(c, ring, k + 1, p);
      }
    }
    if better {
      assert BestAt(c, ring, k + 1, k);
    }
  }

  lemma LemmaBestOfAll(c: Cache, ring: seq<int>, k: int, r: int)
    requires Below(ring, |c.bufs|) && 0 <= k <= |ring| && 0 <= r < |c.bufs|
    requires Best(c, ring, k, r) && Badness(c.bufs[r]) == 0
    ensures Best(c, ring, |ring|, r)
  {
    var p :| BestAt(c, ring, k, p) && ring[p] == r;
    assert BestAt(c, ring, |ring|, p);
  }

  lemma {:induction false} LemmaScan(c: Cache, ring: seq<int>, k: int, bh: int, n: nat)
    requires Sized(c) && Pointers(c) && FreeList(c, ring) && |c.bufs| == |c.links| && 0 <= k < |ring| && InRange(c, bh)
    requires Best(c, ring, k, bh) && |ring| - k <= n + 1
    ensures Best(c, ring, |ring|, Scan(c, ring[k], bh, n))
    decreases n
  {
    hide Best, Badness, Joined, Good;
    var tmp := ring[k];
    var better := c.bufs[tmp].count == 0 && (bh == NIL || Badness(c.bufs[tmp]) < Badness(c.bufs[bh]));
    var bh' := if better then tmp else bh;
    LemmaBestStep(c, ring, k, bh);
    LemmaNeighbours(c.links, ring, k);
    if better && Badness(c.bufs[tmp]) == 0 {
      LemmaBestOfAll(c, ring, k + 1, tmp);
    } else if k + 1 < |ring| {
      assert ring[k + 1] != ring[0];
      LemmaScan(c, ring, k + 1, bh', n - 1);
    }
  }

  /** getblk chooses the first unused buffer of least BADNESS in free-list order. */
  lemma LemmaChoose(c: Cache, ring: seq<int>, chains: seq<seq<int>>)
    requires Shape(c, ring, chains) && Pointers(c)
    ensures Best(c, ring, |ring|, Choose(c))
  {
    LemmaDistinctShort(ring, |c.bufs|);
    LemmaScan(c, ring, 0, NIL, |c.bufs|);
  }

  // a is no worse a choice than b: clean before dirty, and among those alike unlocked before locked.
  predicate NoWorse(a: Buf, b: Buf) {
    (a.dirt ==> b.dirt) && (a.dirt == b.dirt && a.lock ==> b.lock)
  }

  /** No unused buffer is a better choice than the one getblk takes, and there is a choice if one is unused. */
  lemma LemmaChoosesBest(c: Cache, ring: seq<int>, chains: seq<seq<int>>, i: int)
    requires Shape(c, ring, chains) && Pointers(c) && 0 <= i < |c.bufs| && c.bufs[i].count == 0
    ensures 0 <= Choose(c) < |c.bufs| && c.bufs[Choose(c)].count == 0 && NoWorse(c.bufs[Choose(c)], c.bufs[i])
  {
    hide Scan, Choose, Bucket, Chains, Listed, Ring;
    LemmaChoose(c, ring, chains);
    assert i in ring;
  }

  // ---------------------------------------------------------------- buffer_init

  function InitLinks(n: nat): seq<Links> {
    seq(n, i requires 0 <= i < n => Links(NIL, NIL, if i == 0 then n - 1 else i - 1, if i == n - 1 then 0 else i + 1))
  }

  // buffer_init leaves n free buffers in address order and empty hash chains.
  lemma LemmaInit(c: Cache, n: nat)
    requires n > 0 && |c.bufs| == n && c.links == InitLinks(n) && |c.hash| > 0 && c.free == 0
    requires forall h :: 0 <= h < |c.hash| ==> c.hash[h] == NIL
    requires forall i :: 0 <= i < n ==> c.bufs[i].dev == 0
    ensures Shape(c, seq(n, i => i), seq(|c.hash|, _ => []))
  {
    var ring := seq(n, i => i);
    forall k | 0 <= k < n
      ensures Joined(c.links, ring, k)
    {
    }
    forall i | 0 <= i < n
      ensures i in ring
    {
      assert ring[i] == i;
    }
  }
}

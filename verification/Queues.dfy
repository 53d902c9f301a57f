/** The two kinds of list fs/buffer.c threads through its buffer heads: the circular doubly
    linked free list and the null-ended doubly linked hash chains. */
module Queues {
  import opened Basics

  const NIL: int := -1

  // The four links of a buffer head.
  datatype Links = Links(prev: int, next: int, prevFree: int, nextFree: int)

  // Links that point into n buffer heads, or nowhere.
  predicate Good(l: Links, n: int) {
    -1 <= l.prev < n && -1 <= l.next < n && -1 <= l.prevFree < n && -1 <= l.nextFree < n
  }

  predicate AllGood(l: seq<Links>) {
    forall i :: 0 <= i < |l| ==> Good(l[i], |l|)
  }

  predicate Below(s: seq<int>, n: int) {
    forall k :: 0 <= k < |s| ==> 0 <= s[k] < n
  }

  function WithoutAt(s: seq<int>, p: int): seq<int>
    requires 0 <= p < |s|
  {
    s[..p] + s[p + 1..]
  }

  // ---------------------------------------------------------------- the free list

  function Succ(k: int, n: int): int { if k + 1 == n then 0 else k + 1 }

  // The k-th buffer of the ring and its successor point at each other.
  predicate Joined(l: seq<Links>, ring: seq<int>, k: int)
    requires 0 <= k < |ring| && Below(ring, |l|)
  {
    var n := ring[Succ(k, |ring|)];
    l[ring[k]].nextFree == n && l[n].prevFree == ring[k]
  }

  // ring is the free list, in order, starting anywhere.
  predicate Ring(l: seq<Links>, ring: seq<int>) {
    && Distinct(ring) && Below(ring, |l|)
    && (forall k :: 0 <= k < |ring| ==> Joined(l, ring, k))
  }

  // remove_from_queues, free-list part.
  function UnlinkFree(l: seq<Links>, i: int): (r: seq<Links>)
    requires 0 <= i < |l| && 0 <= l[i].prevFree < |l| && 0 <= l[i].nextFree < |l|
    ensures |r| == |l| && (AllGood(l) ==> AllGood(r))
  {
    var l1 := l[l[i].prevFree := l[l[i].prevFree].(nextFree := l[i].nextFree)];
    var n := l1[i].nextFree;
    if 0 <= n < |l1| then l1[n := l1[n].(prevFree := l1[i].prevFree)] else l1
  }

  function Pred(k: int, n: int): int { if k == 0 then n - 1 else k - 1 }

  lemma LemmaNeighbours(l: seq<Links>, ring: seq<int>, p: int)
    requires Ring(l, ring) && 0 <= p < |ring|
    ensures l[ring[p]].nextFree == ring[Succ(p, |ring|)]
    ensures l[ring[p]].prevFree == ring[Pred(p, |ring|)]
  {
    assert Joined(l, ring, p);
    assert Joined(l, ring, Pred(p, |ring|));
  }

  lemma LemmaUnlinkFree(l: seq<Links>, ring: seq<int>, p: int)
    requires Ring(l, ring) && 0 <= p < |ring| && |ring| >= 2
    ensures 0 <= l[ring[p]].prevFree < |l| && 0 <= l[ring[p]].nextFree < |l|
    ensures Ring(UnlinkFree(l, ring[p]), WithoutAt(ring, p))
  {
    LemmaNeighbours(l, ring, p);
    var rest := WithoutAt(ring, p);
    forall k | 0 <= k < |rest|
      ensures Joined(UnlinkFree(l, ring[p]), rest, k)
    {
      LemmaStillJoined(l, ring, p, k);
    }
  }

  lemma LemmaUnlinkEffect(l: seq<Links>, i: int)
    requires 0 <= i < |l| && 0 <= l[i].prevFree < |l| && 0 <= l[i].nextFree < |l|
    ensures var r := UnlinkFree(l, i);
      && (forall x :: 0 <= x < |l| ==> r[x].nextFree == if x == l[i].prevFree then l[i].nextFree else l[x].nextFree)
      && (forall x :: 0 <= x < |l| && x != i ==> r[x].prevFree == if x == l[i].nextFree then l[i].prevFree else l[x].prevFree)
  {
  }

  // Number k of the rest of the ring and its successor there.
  lemma LemmaStillJoined(l: seq<Links>, ring: seq<int>, p: int, k: int)
    requires Ring(l, ring) && 0 <= p < |ring| && 0 <= k < |ring| - 1
    requires l[ring[p]].nextFree == ring[Succ(p, |ring|)] && l[ring[p]].prevFree == ring[Pred(p, |ring|)]
    ensures Below(WithoutAt(ring, p), |l|) && Joined(UnlinkFree(l, ring[p]), WithoutAt(ring, p), k)
  {
    hide UnlinkFree;
    LemmaUnlinkEffect(l, ring[p]);
    var n := |ring|;
    var k0 := if k < p then k else k + 1;
    assert Joined(l, ring, k0);
    assert WithoutAt(ring, p)[k] == ring[k0];
    if k0 == Pred(p, n) {
      assert WithoutAt(ring, p)[Succ(k, n - 1)] == ring[Succ(p, n)];
    } else {
      assert WithoutAt(ring, p)[Succ(k, n - 1)] == ring[Succ(k0, n)];
      assert ring[k0] != ring[Pred(p, n)] && ring[Succ(k0, n)] != ring[Succ(p, n)];
    }
  }

  // insert_into_queues, free-list part: i goes before the buffer free.
  function LinkFree(l: seq<Links>, i: int, free: int): (r: seq<Links>)
    requires 0 <= i < |l| && 0 <= free < |l|
    ensures |r| == |l| && (AllGood(l) ==> AllGood(r))
  {
    var l1 := l[i := l[i].(nextFree := free)];
    var l2 := l1[i := l1[i].(prevFree := l1[free].prevFree)];
    var p := l2[free].prevFree;
    var l3 := if 0 <= p < |l2| then l2[p := l2[p].(nextFree := i)] else l2;
    l3[free := l3[free].(prevFree := i)]
  }

  lemma LemmaLinkFree(l: seq<Links>, ring: seq<int>, i: int)
    requires Ring(l, ring) && |ring| >= 1 && 0 <= i < |l| && i !in ring
    ensures Ring(LinkFree(l, i, ring[0]), ring + [i])
  {
    var n := |ring|;
    LemmaNeighbours(l, ring, 0);
    var l' := LinkFree(l, i, ring[0]);
    var r := ring + [i];
    forall k | 0 <= k < |r|
      ensures Joined(l', r, k)
    {
      if k < n - 1 {
        assert Joined(l, ring, k);
        assert r[k] == ring[k] && r[k + 1] == ring[k + 1];
        assert ring[k] != ring[n - 1] && ring[k + 1] != ring[0];
      }
    }
  }

  // Removing the only buffer changes nothing, and putting it back makes the same ring.
  lemma LemmaRelinkOnly(l: seq<Links>, i: int)
    requires Ring(l, [i])
    ensures 0 <= i < |l| && l[i].nextFree == i && l[i].prevFree == i
    ensures UnlinkFree(l, i) == l && Ring(LinkFree(l, i, i), [i])
  {
    assert [i][0] == i;
    assert Joined(l, [i], 0);
    assert LinkFree(l, i, i) == l;
  }

  // ---------------------------------------------------------------- hash chains

  function At(chain: seq<int>, k: int): int { if 0 <= k < |chain| then chain[k] else NIL }

  predicate Linked(l: seq<Links>, chain: seq<int>, k: int)
    requires 0 <= k < |chain| && Below(chain, |l|)
  {
    l[chain[k]].next == At(chain, k + 1) && l[chain[k]].prev == At(chain, k - 1)
  }

  // chain lists a null-ended doubly linked list that starts at head.
  predicate Chain(l: seq<Links>, head: int, chain: seq<int>) {
    && Distinct(chain) && Below(chain, |l|) && head == At(chain, 0)
    && (forall k :: 0 <= k < |chain| ==> Linked(l, chain, k))
  }

  // remove_from_queues, hash part: the links, and the new value of the bucket.
  function UnlinkHash(l: seq<Links>, head: int, i: int): (r: (seq<Links>, int))
    requires 0 <= i < |l|
    requires l[i].next == NIL || 0 <= l[i].next < |l|
    requires l[i].prev == NIL || 0 <= l[i].prev < |l|
    ensures |r.0| == |l| && (AllGood(l) && -1 <= head < |l| ==> AllGood(r.0) && -1 <= r.1 < |l|)
  {
    var l1 := if l[i].next != NIL then l[l[i].next := l[l[i].next].(prev := l[i].prev)] else l;
    var p := l1[i].prev;
    var l2 := if 0 <= p < |l1| then l1[p := l1[p].(next := l1[i].next)] else l1;
    (l2, if head == i then l2[i].next else head)
  }

  lemma LemmaUnlinkHash(l: seq<Links>, head: int, chain: seq<int>, p: int)
    requires Chain(l, head, chain) && 0 <= p < |chain|
    ensures l[chain[p]].next == At(chain, p + 1) && l[chain[p]].prev == At(chain, p - 1)
    ensures var (l', head') := UnlinkHash(l, head, chain[p]); Chain(l', head', WithoutAt(chain, p))
  {
    hide UnlinkHash;
    assert Linked(l, chain, p);
    LemmaUnlinkHashEffect(l, head, chain[p]);
    var rest := WithoutAt(chain, p);
    forall k | 0 <= k < |rest|
      ensures Linked(UnlinkHash(l, head, chain[p]).0, rest, k)
    {
      LemmaStillLinked(l, head, chain, p, k);
    }
  }

  lemma LemmaUnlinkHashEffect(l: seq<Links>, head: int, i: int)
    requires 0 <= i < |l| && (l[i].next == NIL || 0 <= l[i].next < |l|) && (l[i].prev == NIL || 0 <= l[i].prev < |l|)
    requires l[i].next != i && l[i].prev != i
    ensures var (r, head') := UnlinkHash(l, head, i);
      && (forall x :: 0 <= x < |l| ==> r[x].next == if x == l[i].prev then l[i].next else l[x].next)
      && (forall x :: 0 <= x < |l| ==> r[x].prev == if x == l[i].next then l[i].prev else l[x].prev)
      && head' == if head == i then l[i].next else head
  {
  }

  lemma LemmaAtOnly(chain: seq<int>, k: int, j: int)
    requires Distinct(chain) && 0 <= k < |chain| && -1 <= j <= |chain| && chain[k] != NIL
    ensures chain[k] == At(chain, j) <==> k == j
  {
  }

  lemma LemmaStillLinked(l: seq<Links>, head: int, chain: seq<int>, p: int, k: int)
    requires Chain(l, head, chain) && 0 <= p < |chain| && 0 <= k < |chain| - 1
    requires l[chain[p]].next == At(chain, p + 1) && l[chain[p]].prev == At(chain, p - 1)
    ensures Below(WithoutAt(chain, p), |l|) && Linked(UnlinkHash(l, head, chain[p]).0, WithoutAt(chain, p), k)
  {
    hide UnlinkHash, Distinct;
    LemmaAtOnly(chain, p, p - 1);
    LemmaAtOnly(chain, p, p + 1);
    LemmaUnlinkHashEffect(l, head, chain[p]);
    var rest := WithoutAt(chain, p);
    var k0 := if k < p then k else k + 1;
    assert forall j :: 0 <= j < |rest| ==> rest[j] == chain[if j < p then j else j + 1];
    assert Linked(l, chain, k0);
    LemmaAtOnly(chain, k0, p - 1);
    LemmaAtOnly(chain, k0, p + 1);
    assert At(rest, k + 1) == At(chain, if k + 1 < p then k + 1 else k + 2);
    assert At(rest, k - 1) == At(chain, if k - 1 < p then k - 1 else k);
  }

  // insert_into_queues, hash part, with the null test its last line lacks.
  function LinkHash(l: seq<Links>, head: int, i: int): (r: seq<Links>)
    requires 0 <= i < |l| && (head == NIL || 0 <= head < |l|)
    ensures |r| == |l| && (AllGood(l) ==> AllGood(r))
  {
    var l1 := l[i := l[i].(prev := NIL, next := head)];
    if head != NIL then l1[head := l1[head].(prev := i)] else l1
  }

  // The same as line 163 has it, with the word of low memory at the place of b_prev in a buffer at
  // address 0.
  function LinkHashAsWritten(l: seq<Links>, head: int, i: int, low: int): (seq<Links>, int)
    requires 0 <= i < |l| && (head == NIL || 0 <= head < |l|)
  {
    var l1 := l[i := l[i].(prev := NIL)];
    var l2 := l1[i := l1[i].(next := head)];
    if l2[i].next == NIL then (l2, i) else (l2[l2[i].next := l2[l2[i].next].(prev := i)], low)
  }

  lemma LemmaLinkHashAsWritten(l: seq<Links>, head: int, i: int, low: int)
    requires 0 <= i < |l| && (head == NIL || 0 <= head < |l|) && head != i
    ensures LinkHashAsWritten(l, head, i, low) == (LinkHash(l, head, i), if head == NIL then i else low)
  {
    var both := l[i := l[i].(prev := NIL, next := head)];
    assert l[i := l[i].(prev := NIL)][i := l[i].(prev := NIL, next := head)] == both;
  }

  lemma LemmaLinkHash(l: seq<Links>, head: int, chain: seq<int>, i: int)
    requires Chain(l, head, chain) && 0 <= i < |l| && i !in chain
    ensures Chain(LinkHash(l, head, i), i, [i] + chain)
  {
    var c := [i] + chain;
    var l' := LinkHash(l, head, i);
    forall k | 0 <= k < |c|
      ensures Linked(l', c, k)
    {
      if k > 0 {
        assert Linked(l, chain, k - 1);
        assert c[k] == chain[k - 1];
      }
    }
  }

  // Changing the links of others leaves a chain or a ring alone.
  lemma LemmaChainFrame(l: seq<Links>, m: seq<Links>, head: int, chain: seq<int>)
    requires Chain(l, head, chain) && |l| == |m|
    requires forall k :: 0 <= k < |chain| ==> m[chain[k]].next == l[chain[k]].next && m[chain[k]].prev == l[chain[k]].prev
    ensures Chain(m, head, chain)
  {
    forall k | 0 <= k < |chain|
      ensures Linked(m, chain, k)
    {
      assert Linked(l, chain, k);
    }
  }

  lemma LemmaRingFrame(l: seq<Links>, m: seq<Links>, ring: seq<int>)
    requires Ring(l, ring) && |l| == |m|
    requires forall i :: 0 <= i < |l| ==> m[i].nextFree == l[i].nextFree && m[i].prevFree == l[i].prevFree
    ensures Ring(m, ring)
  {
    forall k | 0 <= k < |ring|
      ensures Joined(m, ring, k)
    {
      assert Joined(l, ring, k);
    }
  }
}

/** The order of the request queue: IN_ORDER of blk.h and the insertion of add_request. */
module Elevator {
  const READ: int := 0
  const WRITE: int := 1

  datatype Key = Key(cmd: int, dev: int, sector: int)

  // IN_ORDER
  predicate InOrder(a: Key, b: Key) {
    a.cmd < b.cmd || (a.cmd == b.cmd && (a.dev < b.dev || (a.dev == b.dev && a.sector < b.sector)))
  }

  // IN_ORDER is a strict total order on requests for different sectors.
  lemma LemmaTotal(a: Key, b: Key, c: Key)
    ensures !InOrder(a, a)
    ensures InOrder(a, b) && InOrder(b, c) ==> InOrder(a, c)
    ensures a != b ==> InOrder(a, b) != InOrder(b, a)
  {
  }

  // Reads come before writes, then devices ascend, and sectors on one device.
  lemma LemmaOrder(a: Key, b: Key)
    ensures a.cmd == READ && b.cmd == WRITE ==> InOrder(a, b) && !InOrder(b, a)
    ensures a.cmd == b.cmd && a.dev < b.dev ==> InOrder(a, b) && !InOrder(b, a)
    ensures a.cmd == b.cmd && a.dev == b.dev ==> (InOrder(a, b) <==> a.sector < b.sector)
  {
  }

  // The request add_request puts r after, searching from k on.
  function After(ks: seq<Key>, r: Key, k: int): (p: int)
    requires 0 <= k < |ks|
    ensures k <= p < |ks|
    decreases |ks| - k
  {
    if k + 1 == |ks| then k
    else if (InOrder(ks[k], r) || !InOrder(ks[k], ks[k + 1])) && InOrder(r, ks[k + 1]) then k
    else After(ks, r, k + 1)
  }

  function Inserted<T>(s: seq<T>, p: int, x: T): seq<T>
    requires 0 <= p < |s|
  {
    s[..p + 1] + [x] + s[p + 1..]
  }

  // The queue goes down between k and k + 1.
  predicate Descent(ks: seq<Key>, k: int) {
    0 <= k < |ks| - 1 && !InOrder(ks[k], ks[k + 1])
  }

  // One ascending sweep, and at most one wrap to a second one.
  ghost predicate TwoSweeps(ks: seq<Key>) {
    forall i, j :: Descent(ks, i) && Descent(ks, j) ==> i == j
  }

  predicate Fresh(ks: seq<Key>, r: Key) {
    forall i :: 0 <= i < |ks| ==> ks[i] != r
  }

  // Why the search passed every place before p.
  lemma {:induction false} LemmaPassed(ks: seq<Key>, r: Key, k: int, j: int)
    requires 0 <= k < |ks| && k <= j < After(ks, r, k)
    ensures !((InOrder(ks[j], r) || !InOrder(ks[j], ks[j + 1])) && InOrder(r, ks[j + 1]))
    decreases |ks| - k
  {
    if k < j {
      LemmaPassed(ks, r, k + 1, j);
    }
  }

  lemma {:induction false} LemmaStopped(ks: seq<Key>, r: Key, k: int)
    requires 0 <= k < |ks|
    ensures var p := After(ks, r, k);
      p + 1 == |ks| || ((InOrder(ks[p], r) || !InOrder(ks[p], ks[p + 1])) && InOrder(r, ks[p + 1]))
    decreases |ks| - k
  {
    if k + 1 < |ks| && After(ks, r, k) != k {
      LemmaStopped(ks, r, k + 1);
    }
  }

  // r is in front of everything before the end only if the queue never goes down.
  lemma {:induction false} LemmaInFront(ks: seq<Key>, r: Key, i: int, j: int)
    requires Fresh(ks, r) && 0 <= i <= j < |ks| && After(ks, r, 0) == |ks| - 1
    requires InOrder(r, ks[j])
    ensures InOrder(r, ks[i]) && forall k :: i <= k < j ==> !Descent(ks, k)
    decreases j - i
  {
    if i < j {
      LemmaPassed(ks, r, 0, j - 1);
      LemmaTotal(ks[j - 1], r, r);
      LemmaInFront(ks, r, i, j - 1);
    }
  }

  /** add_request keeps the queue one ascending sweep and at most one wrap. */
  lemma LemmaTwoSweeps(ks: seq<Key>, r: Key)
    requires |ks| > 0 && TwoSweeps(ks) && Fresh(ks, r)
    ensures TwoSweeps(Inserted(ks, After(ks, r, 0), r))
  {
    var p := After(ks, r, 0);
    var n := Inserted(ks, p, r);
    LemmaStopped(ks, r, 0);
    LemmaTotal(ks[p], r, r);
    // the descents of the new queue, in the old one
    forall i | Descent(n, i)
      ensures i != p + 1
      ensures i < p ==> Descent(ks, i)
      ensures i > p + 1 ==> Descent(ks, i - 1)
    {
      if i < p {
        assert n[i] == ks[i] && n[i + 1] == ks[i + 1];
      } else if i > p + 1 {
        assert n[i] == ks[i - 1] && n[i + 1] == ks[i];
      }
    }
    assert n[p] == ks[p] && n[p + 1] == r;
    if Descent(n, p) && p + 1 < |ks| {
      assert Descent(ks, p);
    }
    if Descent(n, p) && p + 1 == |ks| {
      LemmaInFront(ks, r, 0, p);
    }
    forall i, j | Descent(n, i) && Descent(n, j)
      ensures i == j
    {
      assert if i < p then Descent(ks, i) else i == p || Descent(ks, i - 1);
      assert if j < p then Descent(ks, j) else j == p || Descent(ks, j - 1);
    }
  }

  // end_request takes the first request away; the rest still is in order.
  lemma LemmaPop(ks: seq<Key>)
    requires |ks| > 0 && TwoSweeps(ks)
    ensures TwoSweeps(ks[1..])
  {
    forall i, j | Descent(ks[1..], i) && Descent(ks[1..], j)
      ensures i == j
    {
      assert Descent(ks, i + 1) && Descent(ks, j + 1);
    }
  }

  // Without a descent in between, requests are in ascending order.
  lemma {:induction false} LemmaAscends(ks: seq<Key>, i: int, j: int)
    requires 0 <= i < j < |ks| && forall k :: i <= k < j ==> !Descent(ks, k)
    ensures InOrder(ks[i], ks[j])
    decreases j - i
  {
    assert !Descent(ks, j - 1);
    if i < j - 1 {
      LemmaAscends(ks, i, j - 1);
    }
  }

  /** Within one sweep the arm does not turn: no read comes after a write, no lower device after a
      higher one, and the sectors of a device ascend. */
  lemma LemmaSweep(ks: seq<Key>, i: int, j: int)
    requires 0 <= i < j < |ks| && forall k :: i <= k < j ==> !Descent(ks, k)
    ensures !(ks[i].cmd == WRITE && ks[j].cmd == READ)
    ensures ks[i].cmd == ks[j].cmd ==> ks[i].dev <= ks[j].dev
    ensures ks[i].cmd == ks[j].cmd && ks[i].dev == ks[j].dev ==> ks[i].sector < ks[j].sector
  {
    LemmaAscends(ks, i, j);
    LemmaOrder(ks[i], ks[j]);
    LemmaOrder(ks[j], ks[i]);
  }

  /** No request waits for more than two sweeps: of three requests in queue order, two neighbours
      in that order are in ascending order. */
  lemma LemmaThreeRequests(ks: seq<Key>, i: int, j: int, k: int)
    requires TwoSweeps(ks) && 0 <= i < j < k < |ks|
    ensures InOrder(ks[i], ks[j]) || InOrder(ks[j], ks[k])
  {
    if forall d :: i <= d < j ==> !Descent(ks, d) {
      LemmaAscends(ks, i, j);
    } else {
      LemmaAscends(ks, j, k);
    }
  }
}

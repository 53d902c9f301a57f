/** The request table of kernel/blk_drv/ll_rw_blk.c and the queues blk.h threads through it. */
module RequestQueue {
  import opened Basics
  import opened Elevator
  import opened Queues
  import opened BufferIndex

  // An entry of request[]; dev < 0 marks a free one.
  datatype Entry = Entry(dev: int, cmd: int, errors: int, sector: int, bh: int, next: int)

  const FreeEntry: Entry := Entry(-1, 0, 0, 0, NIL, NIL)

  function KeyOf(e: Entry): Key { Key(e.cmd, e.dev, e.sector) }

  function Major(dev: int): int { dev / 256 }

  /** The buffers, the table, and the first request of each device driver. */
  datatype Board = Board(bufs: seq<Buf>, table: seq<Entry>, current: seq<int>)

  function KeysOf(table: seq<Entry>, queue: seq<int>): (ks: seq<Key>)
    requires Below(queue, |table|)
    ensures |ks| == |queue|
  {
    seq(|queue|, k requires 0 <= k < |queue| => KeyOf(table[queue[k]]))
  }

  // queue lists a null-ended list through the next fields, starting at head.
  predicate ListOf(table: seq<Entry>, head: int, queue: seq<int>) {
    && Distinct(queue) && Below(queue, |table|) && head == At(queue, 0)
    && forall k :: 0 <= k < |queue| ==> NextIs(table, queue, k)
  }

  predicate NextIs(table: seq<Entry>, queue: seq<int>, k: int)
    requires 0 <= k < |queue| && Below(queue, |table|)
  {
    table[queue[k]].next == At(queue, k + 1)
  }

  // The first free entry below n, seen from above.
  function LastFreeEntry(table: seq<Entry>, n: int): (r: int)
    requires 0 <= n <= |table|
    ensures -1 <= r < n && (r >= 0 ==> table[r].dev < 0)
    ensures forall i :: r < i < n ==> table[i].dev >= 0
  {
    if n == 0 then -1 else if table[n - 1].dev < 0 then n - 1 else LastFreeEntry(table, n - 1)
  }

  // Where make_request starts to look: the last third of the table is for reads only.
  function Limit(cmd: int, n: nat): (m: nat)
    ensures m <= n && (cmd == READ ==> m == n) && (cmd != READ ==> 3 * m <= 2 * n < 3 * m + 3)
  {
    if cmd == READ then n else n * 2 / 3
  }

  function Transfer(cmd: int): Request { if cmd == READ then Reading else Writing }

  // A busy entry serves one locked buffer, for the transfer it asks for.
  predicate Serves(b: Board, i: int)
    requires 0 <= i < |b.table|
  {
    var e := b.table[i];
    && (e.cmd == READ || e.cmd == WRITE) && i < Limit(e.cmd, |b.table|)
    && 0 <= e.bh < |b.bufs| && b.bufs[e.bh].lock && b.bufs[e.bh].io == Transfer(e.cmd)
    && e.dev == b.bufs[e.bh].dev && e.sector == 2 * b.bufs[e.bh].block && 0 <= Major(e.dev) < |b.current|
  }

  predicate UniqueNames(bufs: seq<Buf>) {
    forall i, j :: 0 <= i < j < |bufs| && bufs[i].dev != 0 ==> (bufs[i].dev, bufs[i].block) != (bufs[j].dev, bufs[j].block)
  }

  predicate Busy(b: Board, i: int) { 0 <= i < |b.table| && b.table[i].dev >= 0 }

  ghost predicate Inv(b: Board, queues: seq<seq<int>>) {
    && |queues| == |b.current| && UniqueNames(b.bufs)
    && (forall m :: 0 <= m < |queues| ==> ListOf(b.table, b.current[m], queues[m]))
    && (forall m, k :: 0 <= m < |queues| && 0 <= k < |queues[m]| ==> Busy(b, queues[m][k]) && Major(b.table[queues[m][k]].dev) == m)
    && (forall i :: Busy(b, i) ==> Serves(b, i) && b.table[i].dev > 0 && i in queues[Major(b.table[i].dev)])
    && (forall i, j :: Busy(b, i) && Busy(b, j) && i != j ==> b.table[i].bh != b.table[j].bh)
    && (forall m :: 0 <= m < |queues| ==> TwoSweeps(KeysOf(b.table, queues[m])))
  }

  // ---------------------------------------------------------------- add_request

  // The search and insertion of add_request for a filled entry req.
  function Add(b: Board, m: int, queue: seq<int>, req: int): Board
    requires 0 <= m < |b.current| && 0 <= req < |b.table| && ListOf(b.table, b.current[m], queue) && req !in queue
    requires 0 <= b.table[req].bh < |b.bufs|
  {
    var bh := b.table[req].bh;
    var bufs := b.bufs[bh := b.bufs[bh].(dirt := false)];
    if queue == [] then Board(bufs, b.table[req := b.table[req].(next := NIL)], b.current[m := req])
    else
      var p := queue[After(KeysOf(b.table, queue), KeyOf(b.table[req]), 0)];
      var t1 := b.table[req := b.table[req].(next := b.table[p].next)];
      Board(bufs, t1[p := t1[p].(next := req)], b.current)
  }

  function QueueWith(table: seq<Entry>, queue: seq<int>, req: int): seq<int>
    requires Below(queue, |table|) && 0 <= req < |table|
  {
    if queue == [] then [req]
    else Inserted(queue, After(KeysOf(table, queue), KeyOf(table[req]), 0), req)
  }

  // add_request never displaces the request the driver works on and keeps the order of the others.
  lemma LemmaAddOrder(table: seq<Entry>, queue: seq<int>, req: int)
    requires Below(queue, |table|) && 0 <= req < |table| && queue != []
    ensures var q := QueueWith(table, queue, req);
      q[0] == queue[0] && exists p :: 0 < p < |q| && q[p] == req && WithoutAt(q, p) == queue
  {
    var p := After(KeysOf(table, queue), KeyOf(table[req]), 0);
    var q := QueueWith(table, queue, req);
    assert q[p + 1] == req && WithoutAt(q, p + 1) == queue;
  }

  lemma LemmaAddList(b: Board, m: int, queue: seq<int>, req: int)
    requires 0 <= m < |b.current| && 0 <= req < |b.table| && ListOf(b.table, b.current[m], queue) && req !in queue
    requires 0 <= b.table[req].bh < |b.bufs|
    ensures var c := Add(b, m, queue, req);
      ListOf(c.table, c.current[m], QueueWith(b.table, queue, req))
  {
    if queue != [] {
      var p := After(KeysOf(b.table, queue), KeyOf(b.table[req]), 0);
      LemmaInserted(b.table, queue, req, p);
    }
  }

  // Linking req in after entry p of a queue.
  lemma LemmaInserted(table: seq<Entry>, queue: seq<int>, req: int, p: int)
    requires Below(queue, |table|) && Distinct(queue) && (forall k :: 0 <= k < |queue| ==> NextIs(table, queue, k))
    requires 0 <= p < |queue| && 0 <= req < |table| && req !in queue
    ensures var t := table[req := table[req].(next := table[queue[p]].next)];
      var u := t[queue[p] := t[queue[p]].(next := req)];
      var q := Inserted(queue, p, req);
      Below(q, |u|) && Distinct(q) && forall k :: 0 <= k < |q| ==> NextIs(u, q, k)
  {
    var t := table[req := table[req].(next := table[queue[p]].next)];
    var u := t[queue[p] := t[queue[p]].(next := req)];
    var q := Inserted(queue, p, req);
    LemmaInsertedAt(queue, p, req);
    assert Below(q, |u|) && Distinct(q);
    assert NextIs(table, queue, p);
    forall k | 0 <= k < |q|
      ensures NextIs(u, q, k)
    {
      if k < p {
        assert NextIs(table, queue, k);
      } else if k > p + 1 {
        assert NextIs(table, queue, k - 1);
      }
    }
  }

  lemma LemmaInsertedAt(queue: seq<int>, p: int, req: int)
    requires 0 <= p < |queue|
    ensures var q := Inserted(queue, p, req);
      |q| == |queue| + 1 && forall k :: 0 <= k < |q| ==> q[k] == if k <= p then queue[k] else if k == p + 1 then req else queue[k - 1]
  {
  }

  lemma LemmaListFrame(table: seq<Entry>, t: seq<Entry>, head: int, queue: seq<int>)
    requires ListOf(table, head, queue) && |t| == |table|
    requires forall k :: 0 <= k < |queue| ==> t[queue[k]] == table[queue[k]]
    ensures ListOf(t, head, queue) && KeysOf(t, queue) == KeysOf(table, queue)
  {
    forall k | 0 <= k < |queue|
      ensures NextIs(t, queue, k)
    {
      assert NextIs(table, queue, k);
    }
  }

  // ---------------------------------------------------------------- make_request, end_request

  // The end of make_request with the free entry req: the entry is filled and queued.
  function Filled(b: Board, req: int, cmd: int, bh: int): Board
    requires 0 <= req < |b.table| && 0 <= bh < |b.bufs|
  {
    var e := Entry(b.bufs[bh].dev, cmd, 0, 2 * b.bufs[bh].block, bh, NIL);
    Board(b.bufs[bh := b.bufs[bh].(io := if cmd == READ then Reading else Writing)], b.table[req := e], b.current)
  }

  ghost predicate CanQueue(b: Board, queues: seq<seq<int>>, req: int, cmd: int, bh: int) {
    && Inv(b, queues) && 0 <= req < |b.table| && b.table[req].dev < 0 && 0 <= bh < |b.bufs|
    && (cmd == READ || cmd == WRITE) && req < Limit(cmd, |b.table|)
    && b.bufs[bh].lock && b.bufs[bh].io == NoRequest && b.bufs[bh].dev > 0 && 0 <= Major(b.bufs[bh].dev) < |b.current|
  }

  // The queue of another driver, or the old part of this one, is not touched by filling req.
  lemma LemmaFilledLists(b: Board, queues: seq<seq<int>>, req: int, cmd: int, bh: int)
    requires CanQueue(b, queues, req, cmd, bh)
    ensures var f := Filled(b, req, cmd, bh);
      && (forall m :: 0 <= m < |queues| ==> req !in queues[m] && ListOf(f.table, f.current[m], queues[m]))
      && (forall m :: 0 <= m < |queues| ==> KeysOf(f.table, queues[m]) == KeysOf(b.table, queues[m]))
  {
    var f := Filled(b, req, cmd, bh);
    forall m | 0 <= m < |queues|
      ensures req !in queues[m] && ListOf(f.table, f.current[m], queues[m])
      ensures KeysOf(f.table, queues[m]) == KeysOf(b.table, queues[m])
    {
      forall k | 0 <= k < |queues[m]|
        ensures queues[m][k] != req
      {
        assert Busy(b, queues[m][k]);
      }
      LemmaListFrame(b.table, f.table, b.current[m], queues[m]);
    }
  }

  // Its buffer being locked and in no request, the new key is new.
  lemma LemmaFreshKey(b: Board, queues: seq<seq<int>>, req: int, cmd: int, bh: int)
    requires CanQueue(b, queues, req, cmd, bh)
    ensures var m := Major(b.bufs[bh].dev);
      Fresh(KeysOf(b.table, queues[m]), Key(cmd, b.bufs[bh].dev, 2 * b.bufs[bh].block))
  {
    var m := Major(b.bufs[bh].dev);
    forall k | 0 <= k < |queues[m]|
      ensures KeyOf(b.table[queues[m][k]]) != Key(cmd, b.bufs[bh].dev, 2 * b.bufs[bh].block)
    {
      var i := queues[m][k];
      assert Busy(b, i) && Serves(b, i);
    }
  }

  function Queued(b: Board, queues: seq<seq<int>>, req: int, cmd: int, bh: int): Board
    requires CanQueue(b, queues, req, cmd, bh)
  {
    LemmaFilledLists(b, queues, req, cmd, bh);
    var m := Major(b.bufs[bh].dev);
    Add(Filled(b, req, cmd, bh), m, queues[m], req)
  }

  function QueuesWith(b: Board, queues: seq<seq<int>>, req: int, cmd: int, bh: int): seq<seq<int>>
    requires CanQueue(b, queues, req, cmd, bh)
  {
    var m := Major(b.bufs[bh].dev);
    queues[m := QueueWith(Filled(b, req, cmd, bh).table, queues[m], req)]
  }

  lemma LemmaQueueMembers(table: seq<Entry>, queue: seq<int>, req: int)
    requires Below(queue, |table|) && 0 <= req < |table|
    ensures forall i :: i in QueueWith(table, queue, req) <==> i in queue || i == req
  {
  }

  // Add changes next fields only, besides clearing b_dirt.
  lemma LemmaAddTouches(b: Board, m: int, queue: seq<int>, req: int)
    requires 0 <= m < |b.current| && 0 <= req < |b.table| && ListOf(b.table, b.current[m], queue) && req !in queue
    requires 0 <= b.table[req].bh < |b.bufs|
    ensures var c := Add(b, m, queue, req);
      && |c.table| == |b.table| && |c.current| == |b.current| && |c.bufs| == |b.bufs|
      && (forall i :: 0 <= i < |b.table| ==> c.table[i] == b.table[i].(next := c.table[i].next))
      && (forall i :: 0 <= i < |b.table| && i !in queue && i != req ==> c.table[i] == b.table[i])
      && (forall i :: 0 <= i < |b.bufs| ==> c.bufs[i] == b.bufs[i].(dirt := c.bufs[i].dirt))
      && (forall k :: 0 <= k < |b.current| && k != m ==> c.current[k] == b.current[k])
  {
  }

  /** Queueing keeps every list, one request per locked buffer, the last third for reads, and the
      two sweeps of every queue. */
  lemma LemmaQueued(b: Board, queues: seq<seq<int>>, req: int, cmd: int, bh: int)
    requires CanQueue(b, queues, req, cmd, bh)
    ensures Inv(Queued(b, queues, req, cmd, bh), QueuesWith(b, queues, req, cmd, bh))
  {
    hide Add, ListOf, TwoSweeps, KeysOf, QueueWith, Serves, Filled, UniqueNames, Queued, QueuesWith;
    LemmaQueuedLists(b, queues, req, cmd, bh);
    LemmaQueuedSweeps(b, queues, req, cmd, bh);
    LemmaQueuedBusy(b, queues, req, cmd, bh);
    LemmaQueuedMembers(b, queues, req, cmd, bh);
  }

  // The entries in use after queueing, and their buffers.
  lemma LemmaQueuedBusy(b: Board, queues: seq<seq<int>>, req: int, cmd: int, bh: int)
    requires CanQueue(b, queues, req, cmd, bh)
    ensures var c, queues' := Queued(b, queues, req, cmd, bh), QueuesWith(b, queues, req, cmd, bh);
      && UniqueNames(c.bufs) && |queues'| == |c.current|
      && (forall i :: Busy(c, i) ==>
            Serves(c, i) && c.table[i].dev > 0 && 0 <= Major(c.table[i].dev) < |queues'| && i in queues'[Major(c.table[i].dev)])
      && (forall i, j :: Busy(c, i) && Busy(c, j) && i != j ==> c.table[i].bh != c.table[j].bh)
  {
    hide Add, ListOf, TwoSweeps, KeysOf, QueueWith;
    var m := Major(b.bufs[bh].dev);
    var f := Filled(b, req, cmd, bh);
    var c, queues' := Queued(b, queues, req, cmd, bh), QueuesWith(b, queues, req, cmd, bh);
    LemmaFilledLists(b, queues, req, cmd, bh);
    LemmaAddTouches(f, m, queues[m], req);
    LemmaQueueMembers(f.table, queues[m], req);
    LemmaQueuedApart(b, queues, req, c);
    assert Serves(c, req);
    forall i | Busy(c, i) && i != req
      ensures Busy(b, i) && Serves(b, i) && Serves(c, i) && i in queues'[Major(c.table[i].dev)]
    {
    }
  }

  // The new entry's buffer was in no request.
  lemma LemmaQueuedApart(b: Board, queues: seq<seq<int>>, req: int, c: Board)
    requires Inv(b, queues) && 0 <= req < |b.table| && |c.table| == |b.table|
    requires forall i :: 0 <= i < |b.table| && i != req ==> c.table[i].dev == b.table[i].dev && c.table[i].bh == b.table[i].bh
    requires forall i :: Busy(b, i) ==> b.table[i].bh != c.table[req].bh
    ensures forall i, j :: Busy(c, i) && Busy(c, j) && i != j ==> c.table[i].bh != c.table[j].bh
  {
    hide ListOf, TwoSweeps, KeysOf, Serves, UniqueNames;
    forall i, j | Busy(c, i) && Busy(c, j) && i != j
      ensures c.table[i].bh != c.table[j].bh
    {
      assert i != req ==> Busy(b, i);
      assert j != req ==> Busy(b, j);
    }
  }

  lemma LemmaQueuedMembers(b: Board, queues: seq<seq<int>>, req: int, cmd: int, bh: int)
    requires CanQueue(b, queues, req, cmd, bh)
    ensures var c, queues' := Queued(b, queues, req, cmd, bh), QueuesWith(b, queues, req, cmd, bh);
      forall g, k :: 0 <= g < |queues'| && 0 <= k < |queues'[g]| ==> Busy(c, queues'[g][k]) && Major(c.table[queues'[g][k]].dev) == g
  {
    var m := Major(b.bufs[bh].dev);
    var f := Filled(b, req, cmd, bh);
    var c, queues' := Queued(b, queues, req, cmd, bh), QueuesWith(b, queues, req, cmd, bh);
    LemmaFilledLists(b, queues, req, cmd, bh);
    LemmaAddTouches(f, m, queues[m], req);
    LemmaQueueMembers(f.table, queues[m], req);
    hide Add, ListOf, TwoSweeps, KeysOf, QueueWith, Serves;
    forall g, k | 0 <= g < |queues'| && 0 <= k < |queues'[g]|
      ensures Busy(c, queues'[g][k]) && Major(c.table[queues'[g][k]].dev) == g
    {
      var i := queues'[g][k];
      assert i in queues'[g];
      if i != req || g != m {
        assert i in queues[g];
        var j :| 0 <= j < |queues[g]| && queues[g][j] == i;
        assert Busy(b, queues[g][j]);
      }
    }
  }

  lemma LemmaQueuedLists(b: Board, queues: seq<seq<int>>, req: int, cmd: int, bh: int)
    requires CanQueue(b, queues, req, cmd, bh)
    ensures var c, queues' := Queued(b, queues, req, cmd, bh), QueuesWith(b, queues, req, cmd, bh);
      && |queues'| == |c.current| == |queues|
      && (forall g :: 0 <= g < |queues| ==> ListOf(c.table, c.current[g], queues'[g]))
      && (forall g :: 0 <= g < |queues| ==> Below(queues'[g], |c.table|))
  {
    var m := Major(b.bufs[bh].dev);
    var f := Filled(b, req, cmd, bh);
    var c := Queued(b, queues, req, cmd, bh);
    LemmaFilledLists(b, queues, req, cmd, bh);
    LemmaAddTouches(f, m, queues[m], req);
    LemmaAddList(f, m, queues[m], req);
    hide Add, Filled, TwoSweeps, KeysOf, Serves;
    forall g | 0 <= g < |queues| && g != m
      ensures ListOf(c.table, c.current[g], queues[g])
    {
      forall k | 0 <= k < |queues[g]|
        ensures queues[g][k] !in queues[m] && queues[g][k] != req
      {
        assert Major(b.table[queues[g][k]].dev) == g;
      }
      LemmaListFrame(f.table, c.table, f.current[g], queues[g]);
    }
  }

  lemma LemmaQueuedSweeps(b: Board, queues: seq<seq<int>>, req: int, cmd: int, bh: int)
    requires CanQueue(b, queues, req, cmd, bh)
    requires forall g :: 0 <= g < |queues| ==> Below(QueuesWith(b, queues, req, cmd, bh)[g], |Queued(b, queues, req, cmd, bh).table|)
    ensures forall g :: 0 <= g < |queues| ==> TwoSweeps(KeysOf(Queued(b, queues, req, cmd, bh).table, QueuesWith(b, queues, req, cmd, bh)[g]))
  {
    hide Serves, TwoSweeps, KeysOf, Fresh, Distinct;
    var m := Major(b.bufs[bh].dev);
    var f := Filled(b, req, cmd, bh);
    var c := Queued(b, queues, req, cmd, bh);
    LemmaFilledLists(b, queues, req, cmd, bh);
    LemmaAddTouches(f, m, queues[m], req);
    LemmaFreshKey(b, queues, req, cmd, bh);
    assert Below(QueuesWith(b, queues, req, cmd, bh)[m], |c.table|);
    hide Add, Filled, ListOf;
    forall g | 0 <= g < |queues|
      ensures TwoSweeps(KeysOf(c.table, QueuesWith(b, queues, req, cmd, bh)[g]))
    {
      if g == m {
        LemmaSweepsWith(f.table, c.table, queues[m], req);
      } else {
        LemmaSameKeys(f.table, c.table, queues[g]);
      }
    }
  }

  lemma LemmaSameKeys(t: seq<Entry>, u: seq<Entry>, queue: seq<int>)
    requires Below(queue, |t|) && |u| == |t|
    requires forall i :: 0 <= i < |t| ==> u[i] == t[i].(next := u[i].next)
    ensures KeysOf(u, queue) == KeysOf(t, queue)
  {
    assert forall k :: 0 <= k < |queue| ==> KeyOf(u[queue[k]]) == KeyOf(t[queue[k]]);
  }

  lemma LemmaSweepsWith(t: seq<Entry>, u: seq<Entry>, queue: seq<int>, req: int)
    requires Below(queue, |t|) && |u| == |t| && 0 <= req < |t|
    requires forall i :: 0 <= i < |t| ==> u[i] == t[i].(next := u[i].next)
    requires TwoSweeps(KeysOf(t, queue)) && Fresh(KeysOf(t, queue), KeyOf(t[req]))
    requires Below(QueueWith(t, queue, req), |t|)
    ensures TwoSweeps(KeysOf(u, QueueWith(t, queue, req)))
  {
    hide TwoSweeps, Fresh, After, KeysOf, InOrder, Inserted;
    LemmaSameKeys(t, u, QueueWith(t, queue, req));
    if queue == [] {
      LemmaOneKey(t, req);
    } else {
      var ks, r := KeysOf(t, queue), KeyOf(t[req]);
      LemmaKeysInserted(t, queue, After(ks, r, 0), req);
      LemmaTwoSweeps(ks, r);
    }
  }

  lemma LemmaOneKey(t: seq<Entry>, req: int)
    requires 0 <= req < |t|
    ensures TwoSweeps(KeysOf(t, [req]))
  {
  }

  lemma LemmaKeysInserted(t: seq<Entry>, queue: seq<int>, p: int, req: int)
    requires Below(queue, |t|) && 0 <= p < |queue| && 0 <= req < |t|
    ensures Below(Inserted(queue, p, req), |t|) && |KeysOf(t, queue)| == |queue|
    ensures KeysOf(t, Inserted(queue, p, req)) == Inserted(KeysOf(t, queue), p, KeyOf(t[req]))
  {
    assert forall k :: 0 <= k < |queue| + 1 ==> Inserted(queue, p, req)[k] == if k <= p then queue[k] else if k == p + 1 then req else queue[k - 1];
  }

  // end_request for the driver m: the buffer is released and the entry is free again.
  function Ended(b: Board, m: int, uptodate: bool): (r: Board)
    requires 0 <= m < |b.current| && 0 <= b.current[m] < |b.table| && 0 <= b.table[b.current[m]].bh < |b.bufs|
    ensures |r.table| == |b.table|
  {
    var i := b.current[m];
    var bh := b.table[i].bh;
    Board(b.bufs[bh := b.bufs[bh].(uptodate := uptodate, lock := false, io := NoRequest)],
          b.table[i := b.table[i].(dev := -1)], b.current[m := b.table[i].next])
  }

  // From b to c the request i was completed: its buffer is unlocked, up to date as told and otherwise
  // as it was, the entry is free, and nothing else changed in buffers and entries.
  predicate Completed(b: Board, i: int, uptodate: bool, c: Board)
    requires 0 <= i < |b.table| && 0 <= b.table[i].bh < |b.bufs|
  {
    && |c.bufs| == |b.bufs| && |c.table| == |b.table| && !Busy(c, i)
    && var x, y := b.bufs[b.table[i].bh], c.bufs[b.table[i].bh];
    && !y.lock && y.io == NoRequest && y.uptodate == uptodate
    && y.dev == x.dev && y.block == x.block && y.count == x.count && y.dirt == x.dirt && y.data == x.data
    && (forall k :: 0 <= k < |b.bufs| && k != b.table[i].bh ==> c.bufs[k] == b.bufs[k])
    && (forall j :: 0 <= j < |b.table| && j != i ==> c.table[j] == b.table[j])
  }

  /** end_request ends the first request of the queue and keeps the invariant. */
  lemma LemmaEnded(b: Board, queues: seq<seq<int>>, m: int, uptodate: bool)
    requires Inv(b, queues) && 0 <= m < |queues| && b.current[m] != NIL
    ensures queues[m] != [] && b.current[m] == queues[m][0] && 0 <= b.current[m] < |b.table|
    ensures 0 <= b.table[b.current[m]].bh < |b.bufs| && b.bufs[b.table[b.current[m]].bh].lock
    ensures Inv(Ended(b, m, uptodate), queues[m := queues[m][1..]])
    ensures Completed(b, b.current[m], uptodate, Ended(b, m, uptodate))
  {
    var i := queues[m][0];
    assert Busy(b, i) && Serves(b, i);
    var c := Ended(b, m, uptodate);
    var queues' := queues[m := queues[m][1..]];
    LemmaEndedLists(b, queues, m, uptodate);
    hide ListOf, TwoSweeps, KeysOf;
    forall j | Busy(c, j)
      ensures Serves(c, j) && c.table[j].dev > 0 && j in queues'[Major(c.table[j].dev)]
    {
      assert Busy(b, j) && j != i && Serves(b, j);
    }
    forall j, k | Busy(c, j) && Busy(c, k) && j != k
      ensures c.table[j].bh != c.table[k].bh
    {
      assert Busy(b, j) && Busy(b, k);
    }
    assert UniqueNames(c.bufs);
  }

  lemma LemmaEndedLists(b: Board, queues: seq<seq<int>>, m: int, uptodate: bool)
    requires Inv(b, queues) && 0 <= m < |queues| && b.current[m] != NIL
    requires 0 <= b.current[m] < |b.table| && 0 <= b.table[b.current[m]].bh < |b.bufs|
    ensures var c := Ended(b, m, uptodate);
      var queues' := queues[m := queues[m][1..]];
      && (forall g :: 0 <= g < |queues'| ==> ListOf(c.table, c.current[g], queues'[g]) && TwoSweeps(KeysOf(c.table, queues'[g])))
      && (forall g, k :: 0 <= g < |queues'| && 0 <= k < |queues'[g]| ==> Busy(c, queues'[g][k]) && Major(c.table[queues'[g][k]].dev) == g)
  {
    var c := Ended(b, m, uptodate);
    var i := queues[m][0];
    var queues' := queues[m := queues[m][1..]];
    forall g, k | 0 <= g < |queues'| && 0 <= k < |queues'[g]|
      ensures queues'[g][k] != i && Busy(c, queues'[g][k]) && Major(c.table[queues'[g][k]].dev) == g
    {
      var k0 := if g == m then k + 1 else k;
      assert queues'[g][k] == queues[g][k0];
      assert Busy(b, queues[g][k0]) && Major(b.table[queues[g][k0]].dev) == g;
      assert Major(b.table[queues[m][0]].dev) == m;
    }
    forall g | 0 <= g < |queues'|
      ensures ListOf(c.table, c.current[g], queues'[g]) && TwoSweeps(KeysOf(c.table, queues'[g]))
    {
      if g == m {
        LemmaTail(b.table, b.current[m], queues[m]);
        LemmaPop(KeysOf(b.table, queues[m]));
        assert KeysOf(b.table, queues[m])[1..] == KeysOf(b.table, queues'[m]);
        LemmaListFrame(b.table, c.table, c.current[m], queues'[m]);
      } else {
        LemmaListFrame(b.table, c.table, c.current[g], queues[g]);
      }
    }
  }

  lemma LemmaTail(table: seq<Entry>, head: int, queue: seq<int>)
    requires ListOf(table, head, queue) && queue != []
    ensures head == queue[0] && ListOf(table, table[queue[0]].next, queue[1..])
  {
    assert NextIs(table, queue, 0);
    forall k | 0 <= k < |queue| - 1
      ensures NextIs(table, queue[1..], k)
    {
      assert NextIs(table, queue, k + 1);
    }
  }

  // ---------------------------------------------------------------- the code

  // Every entry that a command may use is busy.
  predicate Full(b: Board, cmd: int) {
    forall i :: 0 <= i < Limit(cmd, |b.table|) ==> b.table[i].dev >= 0
  }

  // lock_buffer, of a buffer that nobody has locked.
  function Taken(b: Board, bh: int): Board
    requires 0 <= bh < |b.bufs|
  {
    b.(bufs := b.bufs[bh := b.bufs[bh].(lock := true)])
  }

  // From b to c, the last free entry that the command may use was filled for bh and queued.
  ghost predicate TakenLast(b: Board, queues: seq<seq<int>>, cmd: int, bh: int, c: Board, queues': seq<seq<int>>) {
    var req := LastFreeEntry(b.table, Limit(cmd, |b.table|));
    && CanQueue(b, queues, req, cmd, bh)
    && c == Queued(b, queues, req, cmd, bh) && queues' == QueuesWith(b, queues, req, cmd, bh)
  }

  // The entry i of c asks for the transfer of buffer bh of b.
  predicate AsksFor(b: Board, i: int, cmd: int, bh: int, c: Board)
    requires 0 <= i < |c.table| && 0 <= bh < |b.bufs|
  {
    var e := c.table[i];
    e.cmd == cmd && e.bh == bh && e.dev == b.bufs[bh].dev && e.sector == 2 * b.bufs[bh].block && e.errors == 0
  }

  /** From b to c one entry became busy, a request of the transfer of bh; the buffer waits for it and
      is not dirty any more; all other entries and buffers are as they were, up to the links. */
  ghost predicate Requested(b: Board, cmd: int, bh: int, c: Board) {
    && |c.bufs| == |b.bufs| && |c.table| == |b.table| && 0 <= bh < |b.bufs|
    && (exists i :: Busy(c, i) && !Busy(b, i) && AsksFor(b, i, cmd, bh, c) && OthersKept(b, i, c) && NoneAbove(b, i, cmd))
    && c.bufs[bh] == b.bufs[bh].(dirt := false, io := if cmd == READ then Reading else Writing)
    && forall k :: 0 <= k < |b.bufs| && k != bh ==> c.bufs[k] == b.bufs[k]
  }

  predicate OthersKept(b: Board, i: int, c: Board)
    requires |c.table| == |b.table|
  {
    forall j :: 0 <= j < |b.table| && j != i ==> c.table[j] == b.table[j].(next := c.table[j].next)
  }

  // i is the last entry that the command may use and that is free.
  predicate NoneAbove(b: Board, i: int, cmd: int) {
    i < Limit(cmd, |b.table|) && forall j :: i < j < Limit(cmd, |b.table|) ==> Busy(b, j)
  }

  /** What make_request asks the driver for. */
  lemma LemmaRequested(b: Board, queues: seq<seq<int>>, cmd: int, bh: int, c: Board, queues': seq<seq<int>>)
    requires TakenLast(b, queues, cmd, bh, c, queues')
    ensures Requested(b, cmd, bh, c)
  {
    hide TwoSweeps, Serves, UniqueNames, Inv, Add, ListOf, After, KeysOf;
    var req := LastFreeEntry(b.table, Limit(cmd, |b.table|));
    var m := Major(b.bufs[bh].dev);
    LemmaQueuedIs(b, queues, req, cmd, bh);
    var f := Filled(b, req, cmd, bh);
    LemmaAddTouches(f, m, queues[m], req);
    LemmaFillsBuffer(b, queues, cmd, bh);
    assert Busy(c, req) && !Busy(b, req) && AsksFor(b, req, cmd, bh, c) && OthersKept(b, req, c) && NoneAbove(b, req, cmd);
  }

  // Where it is put: in the queue of its driver behind the first, and the others keep their order.
  lemma LemmaPlaced(b: Board, queues: seq<seq<int>>, cmd: int, bh: int, c: Board, queues': seq<seq<int>>)
    requires TakenLast(b, queues, cmd, bh, c, queues')
    ensures var m := Major(b.bufs[bh].dev);
      && 0 <= m < |queues| == |queues'| && (forall g :: 0 <= g < |queues| && g != m ==> queues'[g] == queues[g])
      && if queues[m] == [] then |queues'[m]| == 1
         else queues'[m][0] == queues[m][0] && exists p :: 0 < p < |queues'[m]| && WithoutAt(queues'[m], p) == queues[m]
  {
    hide TwoSweeps, Serves, UniqueNames, Queued, After;
    var req := LastFreeEntry(b.table, Limit(cmd, |b.table|));
    var m := Major(b.bufs[bh].dev);
    LemmaFilledLists(b, queues, req, cmd, bh);
    if queues[m] != [] {
      LemmaAddOrder(Filled(b, req, cmd, bh).table, queues[m], req);
    }
  }

  lemma LemmaFillsBuffer(b: Board, queues: seq<seq<int>>, cmd: int, bh: int)
    requires CanQueue(b, queues, LastFreeEntry(b.table, Limit(cmd, |b.table|)), cmd, bh)
    ensures var c := Queued(b, queues, LastFreeEntry(b.table, Limit(cmd, |b.table|)), cmd, bh);
      && |c.bufs| == |b.bufs| && c.bufs[bh] == b.bufs[bh].(dirt := false, io := if cmd == READ then Reading else Writing)
      && forall k :: 0 <= k < |b.bufs| && k != bh ==> c.bufs[k] == b.bufs[k]
  {
    hide TwoSweeps, Serves, UniqueNames, ListOf;
  }

  // What became of a request: served without the driver, queued, or the task has to sleep first.
  datatype Outcome = Nothing | InQueue | MustSleep

  class Requests {
    const bufs: array<Buf>
    const table: array<Entry>
    const current: array<int>
    ghost var queues: seq<seq<int>>

    ghost function View(): Board
      reads bufs, table, current
    {
      Board(bufs[..], table[..], current[..])
    }

    ghost predicate Valid()
      reads this, bufs, table, current
    {
      Inv(View(), queues)
    }

    // blk_dev_init for n entries and the given number of drivers, with nothing locked.
    constructor (buffers: array<Buf>, n: nat, drivers: nat)
      requires UniqueNames(buffers[..])
      ensures Valid() && bufs == buffers && table.Length == n && current.Length == drivers
      ensures forall i :: 0 <= i < n ==> table[i].dev < 0
    {
      bufs := buffers;
      table := new Entry[n](_ => FreeEntry.(dev := 0));
      current := new int[drivers](_ => NIL);
      queues := seq(drivers, _ => []);
      new;
      var i := 0;
      while i < n
        invariant 0 <= i <= n && current[..] == seq(drivers, _ => NIL) && queues == seq(drivers, _ => []) && bufs[..] == old(buffers[..])
        invariant forall k :: 0 <= k < i ==> table[k].dev < 0
      {
        table[i] := FreeEntry;
        i := i + 1;
      }
    }

    // add_request for an entry that make_request has filled.
    method AddRequest(major: int, req: int)
      requires 0 <= major < current.Length && 0 <= req < table.Length
      requires 0 <= major < |queues| && ListOf(table[..], current[major], queues[major]) && req !in queues[major]
      requires 0 <= table[req].bh < bufs.Length
      modifies bufs, table, current
      ensures View() == Add(old(View()), major, queues[major], req)
    {
      ghost var b := View();
      ghost var queue := queues[major];
      table[req] := table[req].(next := NIL);
      var bh := table[req].bh;
      bufs[bh] := bufs[bh].(dirt := false);
      var tmp := current[major];
      if tmp == NIL {
        current[major] := req;
        assert View() == Add(b, major, queue, req);
        return;
      }
      ghost var k := 0;
      ghost var ks := KeysOf(b.table, queue);
      LemmaListFrame(b.table, table[..], current[major], queue);
      assert NextIs(table[..], queue, 0);
      while table[tmp].next != NIL
        invariant 0 <= k < |queue| && tmp == queue[k] && table[tmp].next == At(queue, k + 1)
        invariant After(ks, KeyOf(table[req]), k) == After(ks, KeyOf(table[req]), 0)
        decreases |queue| - k
      {
        var next := table[tmp].next;
        assert ks[k] == KeyOf(table[tmp]) && ks[k + 1] == KeyOf(table[next]);
        if (InOrder(KeyOf(table[tmp]), KeyOf(table[req])) || !InOrder(KeyOf(table[tmp]), KeyOf(table[next]))) &&
           InOrder(KeyOf(table[req]), KeyOf(table[next])) {
          break;
        }
        tmp := next;
        k := k + 1;
        assert NextIs(table[..], queue, k);
      }
      assert k == After(ks, KeyOf(b.table[req]), 0);
      table[req] := table[req].(next := table[tmp].next);
      table[tmp] := table[tmp].(next := req);
      assert View() == Add(b, major, queue, req);
    }

    // The search of make_request for a free entry; NIL if the task has to sleep.
    method FindEntry(cmd: int) returns (req: int)
      ensures req == LastFreeEntry(table[..], Limit(cmd, table.Length))
    {
      req := if cmd == READ then table.Length else table.Length * 2 / 3;
      req := req - 1;
      while req >= 0
        invariant -1 <= req < table.Length
        invariant LastFreeEntry(table[..], req + 1) == LastFreeEntry(table[..], Limit(cmd, table.Length))
      {
        if table[req].dev < 0 {
          return;
        }
        req := req - 1;
      }
    }

    // make_request from its label repeat on: the task has locked bh and needs the transfer.
    method QueueRequest(cmd: int, bh: int) returns (r: Outcome)
      requires Valid() && (cmd == READ || cmd == WRITE) && 0 <= bh < bufs.Length
      requires bufs[bh].lock && bufs[bh].io == NoRequest && bufs[bh].dev > 0 && Major(bufs[bh].dev) < current.Length
      modifies this, bufs, table, current
      ensures Valid()
      ensures r == if Full(old(View()), cmd) then MustSleep else InQueue
      ensures r == MustSleep ==> View() == old(View()) && queues == old(queues)
      ensures r == InQueue ==> TakenLast(old(View()), old(queues), cmd, bh, View(), queues)
    {
      hide Add, ListOf, TwoSweeps, KeysOf, QueueWith, Serves, Queued, QueuesWith, UniqueNames;
      ghost var b := View();
      var req := FindEntry(cmd);
      if req < 0 {
        return MustSleep;
      }
      LemmaFilledLists(b, queues, req, cmd, bh);
      LemmaQueued(b, queues, req, cmd, bh);
      LemmaQueuedIs(b, queues, req, cmd, bh);
      var major := Major(bufs[bh].dev);
      table[req] := Entry(bufs[bh].dev, cmd, 0, 2 * bufs[bh].block, bh, NIL);
      bufs[bh] := bufs[bh].(io := if cmd == READ then Reading else Writing);
      assert View() == Filled(b, req, cmd, bh);
      AddRequest(major, req);
      queues := QueuesWith(b, queues, req, cmd, bh);
      return InQueue;
    }

    // make_request up to its label repeat, for a read or a write; MustSleep: bh is locked.
    method MakeRequest(cmd: int, ahead: bool, bh: int) returns (r: Outcome)
      requires Valid() && (cmd == READ || cmd == WRITE) && 0 <= bh < bufs.Length
      requires bufs[bh].dev > 0 && Major(bufs[bh].dev) < current.Length && (!bufs[bh].lock ==> bufs[bh].io == NoRequest)
      modifies this, bufs, table, current
      ensures Valid()
      ensures old(bufs[bh].lock) ==> View() == old(View()) && r == if ahead then Nothing else MustSleep
      ensures !old(bufs[bh].lock) ==>
        var idle := if cmd == WRITE then !old(bufs[bh].dirt) else old(bufs[bh].uptodate);
        var full := Full(old(View()), cmd);
        && r == (if idle || (full && ahead) then Nothing else if full then MustSleep else InQueue)
        && (r == Nothing ==> View() == old(View()) && queues == old(queues))
        && (r == MustSleep ==> View() == Taken(old(View()), bh) && queues == old(queues))
        && (r == InQueue ==> TakenLast(Taken(old(View()), bh), old(queues), cmd, bh, View(), queues) && Requested(Taken(old(View()), bh), cmd, bh, View()))
    {
      if bufs[bh].lock {
        return if ahead then Nothing else MustSleep;
      }
      ghost var b := View();
      bufs[bh] := bufs[bh].(lock := true);
      LemmaLocked(b, queues, bh, View());
      if (cmd == WRITE && !bufs[bh].dirt) || (cmd == READ && bufs[bh].uptodate) {
        bufs[bh] := bufs[bh].(lock := false);
        assert View() == b;
        return Nothing;
      }
      ghost var b1 := View();
      r := QueueRequest(cmd, bh);
      if r == MustSleep && ahead {
        bufs[bh] := bufs[bh].(lock := false);
        assert View() == b;
        return Nothing;
      }
      if r == InQueue {
        LemmaRequested(b1, old(queues), cmd, bh, View(), queues);
      }
    }

    // end_request of driver major, which is at work on the first request of its queue.
    method EndRequest(major: int, uptodate: bool)
      requires Valid() && 0 <= major < current.Length && current[major] != NIL
      modifies this, bufs, table, current
      ensures Valid() && old(queues[major]) != [] && queues == old(queues)[major := old(queues[major])[1..]]
      ensures View() == Ended(old(View()), major, uptodate)
    {
      ghost var b := View();
      LemmaEnded(b, queues, major, uptodate);
      hide ListOf, TwoSweeps, KeysOf, Serves;
      var req := current[major];
      var bh := table[req].bh;
      bufs[bh] := bufs[bh].(uptodate := uptodate, lock := false, io := NoRequest);
      table[req] := table[req].(dev := -1);
      current[major] := table[req].next;
      assert View() == Ended(b, major, uptodate);
      queues := queues[major := queues[major][1..]];
    }
  }

  lemma LemmaQueuedIs(b: Board, queues: seq<seq<int>>, req: int, cmd: int, bh: int)
    requires CanQueue(b, queues, req, cmd, bh)
    ensures var m := Major(b.bufs[bh].dev);
      var f := Filled(b, req, cmd, bh);
      && 0 <= m < |queues| && m < |f.current| && req < |f.table| && ListOf(f.table, f.current[m], queues[m]) && req !in queues[m]
      && 0 <= f.table[req].bh < |f.bufs| && Queued(b, queues, req, cmd, bh) == Add(f, m, queues[m], req)
  {
    LemmaFilledLists(b, queues, req, cmd, bh);
  }

  // Locking a buffer that no request serves disturbs nothing.
  lemma LemmaLocked(b: Board, queues: seq<seq<int>>, bh: int, c: Board)
    requires Inv(b, queues) && 0 <= bh < |b.bufs| && c == b.(bufs := b.bufs[bh := b.bufs[bh].(lock := true)])
    ensures Inv(c, queues)
  {
    hide ListOf, TwoSweeps, KeysOf, Serves;
    LemmaLockedServes(b, queues, bh, c);
    assert UniqueNames(c.bufs);
    forall m, k | 0 <= m < |queues| && 0 <= k < |queues[m]|
      ensures Busy(c, queues[m][k]) && Major(c.table[queues[m][k]].dev) == m
    {
      assert Busy(b, queues[m][k]);
    }
  }

  lemma LemmaLockedServes(b: Board, queues: seq<seq<int>>, bh: int, c: Board)
    requires Inv(b, queues) && 0 <= bh < |b.bufs| && c == b.(bufs := b.bufs[bh := b.bufs[bh].(lock := true)])
    ensures forall i :: Busy(c, i) ==> Busy(b, i) && Serves(c, i) && c.table[i].dev > 0 && i in queues[Major(c.table[i].dev)]
    ensures forall i, j :: Busy(c, i) && Busy(c, j) && i != j ==> c.table[i].bh != c.table[j].bh
  {
    hide ListOf, TwoSweeps, KeysOf, UniqueNames;
    forall i | Busy(c, i)
      ensures Busy(b, i) && Serves(c, i)
    {
      assert Busy(b, i) && Serves(b, i);
    }
  }
}

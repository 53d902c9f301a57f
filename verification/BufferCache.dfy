/** fs/buffer.c as it runs, with other tasks and the driver acting at every sleep.
    `others` is anything they may do: it is only known to keep the cache consistent and to
    respect the buffers this task holds.  `patience` is how often the task is woken again; a
    method that returns awake == false is still asleep. */
module BufferCache {
  import opened Queues
  import opened BufferIndex
  import opened FlatDisk

  datatype Kernel = Kernel(cache: Cache, disk: Disk)

  function StoreOf(k: Kernel): Store { Store(k.cache.bufs, k.disk) }

  ghost predicate Inv(k: Kernel) {
    Indexed(k.cache) && Coherent(StoreOf(k))
  }

  predicate SameSize(k: Kernel, k': Kernel) {
    && |k'.cache.bufs| == |k.cache.bufs| && |k'.cache.links| == |k.cache.links|
    && |k'.cache.hash| == |k.cache.hash|
  }

  // What a task has of a buffer: how many times it holds it, and whether it locked it for a request
  // that it has not queued yet.
  datatype Stake = Stake(refs: nat, lock: bool)

  type Holds = seq<Stake>

  predicate Backed(b: Buf, mine: Stake) {
    mine.refs <= b.count && (mine.lock ==> b.lock && b.io == NoRequest && b.dev != 0)
  }

  predicate Holding(k: Kernel, mine: Holds) {
    |mine| == |k.cache.bufs| && forall i :: 0 <= i < |mine| ==> Backed(k.cache.bufs[i], mine[i])
  }

  // A buffer that a task holds or has locked keeps its name, and one that it holds stays up to date;
  // one that it has locked stays as it is, except that a holder may still change it.  No buffer
  // loses its device.
  predicate Respected(b: Buf, b': Buf, mine: Stake) {
    && (mine.refs > 0 || mine.lock ==> NameOf(b') == NameOf(b))
    && (mine.refs > 0 && b.uptodate ==> b'.uptodate)
    && (mine.lock ==> b'.uptodate == b.uptodate && (b.dirt ==> b'.dirt))
    && (b.dev != 0 ==> b'.dev != 0)
  }

  // What a task may count on while it sleeps.
  ghost predicate Rely(k: Kernel, k': Kernel, mine: Holds) {
    && Inv(k') && SameSize(k, k') && Holding(k', mine)
    && forall i :: 0 <= i < |mine| && i < |k.cache.bufs| ==> Respected(k.cache.bufs[i], k'.cache.bufs[i], mine[i])
  }

  predicate Accounted(b: Buf, b': Buf, mine: Stake, mine': Stake) {
    && b'.count + mine.refs == b.count + mine'.refs
    && (b.count > mine.refs ==> NameOf(b') == NameOf(b) && (b.uptodate ==> b'.uptodate))
    && (b.dev != 0 ==> b'.dev != 0)
    && (b.lock && !mine.lock && b.io == NoRequest ==>
          && !mine'.lock && b'.lock && b'.io == NoRequest && NameOf(b') == NameOf(b)
          && b'.uptodate == b.uptodate && (b.dirt ==> b'.dirt))
  }

  // What a task does between two sleeps: it accounts for what it holds, renames no buffer that
  // somebody else holds, and leaves alone what somebody else has locked.
  ghost predicate Guarantee(k: Kernel, k': Kernel, mine: Holds, mine': Holds) {
    && Inv(k') && SameSize(k, k') && |mine| == |mine'| == |k.cache.bufs|
    && forall i :: 0 <= i < |mine| ==> Accounted(k.cache.bufs[i], k'.cache.bufs[i], mine[i], mine'[i])
  }

  // A step that keeps every block's content.
  ghost predicate Quiet(k: Kernel, k': Kernel) {
    forall n: Name :: n.0 != 0 ==> Logical(StoreOf(k'), n) == Logical(StoreOf(k), n)
  }

  // Two tasks do not hold more than there is, and do not both have a buffer locked.
  predicate Together(b: Buf, mine: Stake, theirs: Stake) {
    mine.refs + theirs.refs <= b.count && !(mine.lock && theirs.lock)
  }

  /** One task's guarantee is every other task's rely condition. */
  lemma LemmaGuaranteeIsRely(k: Kernel, k': Kernel, theirs: Holds, theirs': Holds, mine: Holds)
    requires Guarantee(k, k', theirs, theirs') && Holding(k, mine)
    requires forall i :: 0 <= i < |mine| ==> Together(k.cache.bufs[i], mine[i], theirs[i])
    ensures Rely(k, k', mine)
    ensures forall i :: 0 <= i < |mine| ==> Together(k'.cache.bufs[i], mine[i], theirs'[i])
  {
    hide Inv;
    forall i | 0 <= i < |mine|
      ensures Together(k'.cache.bufs[i], mine[i], theirs'[i])
      ensures Respected(k.cache.bufs[i], k'.cache.bufs[i], mine[i]) && Backed(k'.cache.bufs[i], mine[i])
    {
      assert Backed(k.cache.bufs[i], mine[i]) && Together(k.cache.bufs[i], mine[i], theirs[i]);
      assert Accounted(k.cache.bufs[i], k'.cache.bufs[i], theirs[i], theirs'[i]);
    }
  }

  lemma LemmaRelyTwice(k: Kernel, k1: Kernel, k2: Kernel, mine: Holds)
    requires Rely(k, k1, mine) && Rely(k1, k2, mine)
    ensures Rely(k, k2, mine)
  {
    hide Inv;
  }

  lemma LemmaRelySame(k: Kernel, mine: Holds)
    requires Inv(k) && Holding(k, mine)
    ensures Rely(k, k, mine)
  {
    hide Inv;
  }

  // With a lock more, a task can count on more.
  lemma LemmaRelyLess(k: Kernel, k': Kernel, mine: Holds, i: int)
    requires 0 <= i < |mine| && Rely(k, k', Locked(mine, i))
    ensures Rely(k, k', mine)
  {
    hide Inv;
    forall j | 0 <= j < |mine| && j < |k.cache.bufs|
      ensures Respected(k.cache.bufs[j], k'.cache.bufs[j], mine[j])
    {
      assert Respected(k.cache.bufs[j], k'.cache.bufs[j], Locked(mine, i)[j]);
    }
    forall j | 0 <= j < |mine|
      ensures Backed(k'.cache.bufs[j], mine[j])
    {
      assert Backed(k'.cache.bufs[j], Locked(mine, i)[j]);
    }
  }

  function More(mine: Holds, i: int): Holds
    requires 0 <= i < |mine|
  {
    mine[i := mine[i].(refs := mine[i].refs + 1)]
  }

  function Less(mine: Holds, i: int): Holds
    requires 0 <= i < |mine| && mine[i].refs > 0
  {
    mine[i := mine[i].(refs := mine[i].refs - 1)]
  }

  function Locked(mine: Holds, i: int): Holds
    requires 0 <= i < |mine|
  {
    mine[i := mine[i].(lock := true)]
  }

  function Unlocked(mine: Holds, i: int): Holds
    requires 0 <= i < |mine|
  {
    mine[i := mine[i].(lock := false)]
  }

  lemma LemmaMore(mine: Holds, i: int)
    requires 0 <= i < |mine| && mine[i].refs > 0
    ensures More(Less(mine, i), i) == mine
  {
  }

  lemma LemmaUnlocked(mine: Holds, i: int)
    requires 0 <= i < |mine| && !mine[i].lock
    ensures Unlocked(Locked(mine, i), i) == mine
  {
  }

  // The steps getblk, bread, brelse and sync_dev take besides renaming, and the holds after them.
  predicate Small(s: Store, mine: Holds, e: Step) {
    && Enabled(s, e) && 0 <= e.i < |mine|
    && match e
       case Hold(_) => true
       case Drop(i) => mine[i].refs > 0
       case Lock(i) => s.bufs[i].dev != 0
       case Unlock(i) => mine[i].lock
       case Ask(i) => mine[i].lock
       case Put(i) => mine[i].lock
       case _ => false
  }

  function HoldsAfter(s: Store, mine: Holds, e: Step): Holds
    requires Small(s, mine, e)
  {
    if e.Hold? then More(mine, e.i)
    else if e.Drop? then Less(mine, e.i)
    else if e.Lock? then Locked(mine, e.i)
    else Unlocked(mine, e.i)
  }

  // What this task has done since it last woke up is in order.
  ghost predicate InOrder(last: Kernel, lastMine: Holds, k: Kernel, mine: Holds) {
    Inv(k) && Holding(k, mine) && Guarantee(last, k, lastMine, mine) && Quiet(last, k)
  }

  lemma LemmaSmallStep(last: Kernel, lastMine: Holds, k: Kernel, mine: Holds, e: Step, k': Kernel)
    requires InOrder(last, lastMine, k, mine) && Small(StoreOf(k), mine, e)
    requires k' == k.(cache := k.cache.(bufs := Next(StoreOf(k), e).bufs))
    ensures InOrder(last, lastMine, k', HoldsAfter(StoreOf(k), mine, e))
    ensures forall i :: 0 <= i < |k.cache.bufs| ==> NameOf(k'.cache.bufs[i]) == NameOf(k.cache.bufs[i])
  {
    hide Coherent, Logical, FreeList, Chains, Listed;
    LemmaCoherent(StoreOf(k), e);
    LemmaSane(k, e.i);
    var ring, chains :| Shape(k.cache, ring, chains);
    LemmaSameNames(k.cache, ring, chains, k'.cache);
    assert StoreOf(k') == Next(StoreOf(k), e);
    LemmaSmallQuiet(last, k, k', e);
    forall i | 0 <= i < |mine|
      ensures Accounted(last.cache.bufs[i], k'.cache.bufs[i], lastMine[i], HoldsAfter(StoreOf(k), mine, e)[i])
      ensures Backed(k'.cache.bufs[i], HoldsAfter(StoreOf(k), mine, e)[i])
    {
      assert Accounted(last.cache.bufs[i], k.cache.bufs[i], lastMine[i], mine[i]) && Backed(k.cache.bufs[i], mine[i]);
    }
  }

  lemma LemmaSmallQuiet(last: Kernel, k: Kernel, k': Kernel, e: Step)
    requires Coherent(StoreOf(k)) && Enabled(StoreOf(k), e) && StoreOf(k') == Next(StoreOf(k), e) && Quiet(last, k)
    requires !e.Change? && !e.Clear?
    ensures Quiet(last, k')
  {
    hide Coherent, Logical;
    forall n: Name | n.0 != 0
      ensures Logical(StoreOf(k'), n) == Logical(StoreOf(last), n)
    {
      LemmaShown(StoreOf(k), e, n);
    }
  }

  // The last lines of getblk, from a point where the buffer i is unused, unlocked, clean and no
  // other has its new name.
  lemma LemmaTakeStep(last: Kernel, lastMine: Holds, k: Kernel, mine: Holds, i: int, n: Name, k': Kernel)
    requires InOrder(last, lastMine, k, mine) && Enabled(StoreOf(k), Take(i, n)) && Pointers(k.cache)
    requires Rename(k.cache, i, n.0, n.1).Some? ==> k' == k.(cache := Rename(k.cache, i, n.0, n.1).value)
    ensures Rename(k.cache, i, n.0, n.1).Some?
    ensures InOrder(last, lastMine, k', More(mine, i))
    ensures k'.cache.bufs == Next(StoreOf(k), Take(i, n)).bufs
  {
    hide Coherent, Logical, FreeList, Chains, Listed, Rename;
    var ring, chains :| Shape(k.cache, ring, chains);
    LemmaRename(k.cache, ring, chains, i, n.0, n.1);
    LemmaCoherent(StoreOf(k), Take(i, n));
    assert StoreOf(k') == Next(StoreOf(k), Take(i, n));
    LemmaSmallQuiet(last, k, k', Take(i, n));
    forall j | 0 <= j < |mine|
      ensures Accounted(last.cache.bufs[j], k'.cache.bufs[j], lastMine[j], More(mine, i)[j])
      ensures Backed(k'.cache.bufs[j], More(mine, i)[j])
    {
      assert Accounted(last.cache.bufs[j], k.cache.bufs[j], lastMine[j], mine[j]) && Backed(k.cache.bufs[j], mine[j]);
    }
  }

  ghost predicate Respects(others: (Kernel, Holds, nat) -> Kernel) {
    forall k, mine, t :: Inv(k) && Holding(k, mine) ==> Rely(k, others(k, mine, t), mine)
  }

  // The buffer is up to date, or it will be when the transfer under way is done.
  predicate Coming(b: Buf) { b.uptodate || b.io == Reading || b.io == Moved }

  predicate Delivered(k: Kernel, k': Kernel, mine: Holds) {
    forall i :: 0 <= i < |mine| && i < |k.cache.bufs| && i < |k'.cache.bufs| && mine[i].refs > 0 && Coming(k.cache.bufs[i]) ==>
      Coming(k'.cache.bufs[i])
  }

  // No transfer into a held buffer fails.
  ghost predicate Succeeds(others: (Kernel, Holds, nat) -> Kernel) {
    forall k, mine, t :: Inv(k) && Holding(k, mine) ==> Delivered(k, others(k, mine, t), mine)
  }

  // Indeed what tasks and the driver do to the store never fails a transfer.
  lemma LemmaDelivers(s: Store, e: Step, i: int)
    requires Coherent(s) && Enabled(s, e) && 0 <= i < |s.bufs| && s.bufs[i].count > 0
    ensures Coming(s.bufs[i]) ==> Coming(Next(s, e).bufs[i])
    ensures s.bufs[i].uptodate ==> Next(s, e).bufs[i].uptodate
    ensures Coming(s.bufs[i]) && !s.bufs[i].lock ==> s.bufs[i].uptodate
  {
    assert Sane(s.bufs[i], s.disk);
  }

  // No buffer of dev has become dirty.
  predicate Undirtied(k: Kernel, k': Kernel, dev: Dev) {
    forall i :: 0 <= i < |k.cache.bufs| && i < |k'.cache.bufs| && k'.cache.bufs[i].dev == dev && k'.cache.bufs[i].dirt ==>
      k.cache.bufs[i].dev == dev && k.cache.bufs[i].dirt
  }

  // Nobody makes a buffer of dev dirty any more, when there are no more than t sleeps to come.
  ghost predicate Calm(others: (Kernel, Holds, nat) -> Kernel, dev: Dev, t: nat) {
    forall k, mine, u: nat :: u <= t && Inv(k) && Holding(k, mine) ==> Undirtied(k, others(k, mine, u), dev)
  }

  // From k to k' only others, at sleeps from t on, can have made a buffer dirty.
  ghost predicate Undisturbed(others: (Kernel, Holds, nat) -> Kernel, t: nat, k: Kernel, k': Kernel) {
    SameSize(k, k') && forall dev :: Calm(others, dev, t) ==> Undirtied(k, k', dev)
  }

  lemma LemmaUndisturbedSame(others: (Kernel, Holds, nat) -> Kernel, t: nat, k: Kernel)
    ensures Undisturbed(others, t, k, k)
  {
  }

  lemma LemmaUndisturbedTwice(others: (Kernel, Holds, nat) -> Kernel, t: nat, k: Kernel, t': nat, k1: Kernel, k2: Kernel)
    requires Undisturbed(others, t, k, k1) && Undisturbed(others, t', k1, k2) && t' <= t
    ensures Undisturbed(others, t, k, k2)
  {
    forall dev | Calm(others, dev, t)
      ensures Undirtied(k, k2, dev)
    {
      assert Calm(others, dev, t');
    }
  }

  lemma LemmaDeliveredTwice(k: Kernel, k1: Kernel, k2: Kernel, mine: Holds)
    requires Delivered(k, k1, mine) && Delivered(k1, k2, mine) && |k1.cache.bufs| == |k.cache.bufs|
    ensures Delivered(k, k2, mine)
  {
  }

  // This task's own steps that clean a buffer or leave it.
  lemma LemmaUndisturbedOwn(others: (Kernel, Holds, nat) -> Kernel, t: nat, k: Kernel, k1: Kernel, k2: Kernel)
    requires Undisturbed(others, t, k, k1) && SameSize(k1, k2)
    requires forall i :: 0 <= i < |k1.cache.bufs| ==>
      k2.cache.bufs[i].dev == k1.cache.bufs[i].dev && (k2.cache.bufs[i].dirt ==> k1.cache.bufs[i].dirt)
    ensures Undisturbed(others, t, k, k2)
  {
    forall dev | Calm(others, dev, t)
      ensures Undirtied(k, k2, dev)
    {
      assert Undirtied(k, k1, dev);
    }
  }

  // No buffer of dev before i is dirty.
  predicate CleanBelow(k: Kernel, dev: Dev, i: int) {
    forall j :: 0 <= j < i && j < |k.cache.bufs| && k.cache.bufs[j].dev == dev ==> !k.cache.bufs[j].dirt
  }

  lemma LemmaStillClean(others: (Kernel, Holds, nat) -> Kernel, t: nat, k: Kernel, k': Kernel, dev: Dev, i: int)
    requires Undisturbed(others, t, k, k') && Calm(others, dev, t) && CleanBelow(k, dev, i)
    ensures CleanBelow(k', dev, i)
  {
    assert Undirtied(k, k', dev);
  }

  lemma LemmaOrderly(k: Kernel, mine: Holds)
    requires Inv(k) && Holding(k, mine)
    ensures InOrder(k, mine, k, mine)
  {
    hide Inv, Logical;
  }

  class Buffers {
    const heads: array<Buf>
    const links: array<Links>
    const hashTable: array<int>
    var freeList: int
    var disk: Disk
    const others: (Kernel, Holds, nat) -> Kernel
    const full: nat -> bool    // whether all requests are in use then
    var patience: nat
    var mine: Holds            // what this task holds
    ghost var last: Kernel     // the state and the holds when this task last woke up
    ghost var lastMine: Holds

    // buffer_init for n buffers; the addresses of their data are left out.
    constructor (n: nat, buckets: nat, disk: Disk, others: (Kernel, Holds, nat) -> Kernel, full: nat -> bool, patience: nat)
      requires n > 0 && buckets > 0 && Respects(others)
      ensures Valid() && heads.Length == n && this.disk == disk && mine == seq(n, _ => Stake(0, false))
      ensures forall i :: 0 <= i < n ==> heads[i].dev == 0
    {
      hide Coherent, Logical, FreeList, Chains, Listed, Respects, InOrder;
      heads := new Buf[n](_ => Buf(0, 0, false, false, 0, false, [], NoRequest));
      links := new Links[n](_ => Links(NIL, NIL, NIL, NIL));
      hashTable := new int[buckets](_ => 0);
      freeList := 0;
      this.disk, this.others, this.full, this.patience, mine := disk, others, full, patience, seq(n, _ => Stake(0, false));
      new;
      LinkAll();
      ClearTable();
      LemmaInit(View().cache, n);
      LemmaEmptyStore(StoreOf(View()));
      last, lastMine := View(), mine;
      LemmaOrderly(last, mine);
    }

    // The loop of buffer_init over the buffers, and the ends of the free list.
    method LinkAll()
      requires links.Length > 0 && freeList == 0
      modifies links
      ensures links[..] == InitLinks(links.Length)
    {
      var h, n := 0, links.Length;
      while h < n
        invariant 0 <= h <= n
        invariant forall i :: 0 <= i < h ==> links[i] == Links(NIL, NIL, i - 1, i + 1)
      {
        links[h] := Links(NIL, NIL, h - 1, h + 1);
        h := h + 1;
      }
      h := h - 1;
      links[freeList] := links[freeList].(prevFree := h);
      links[h] := links[h].(nextFree := freeList);
    }

    method ClearTable()
      modifies hashTable
      ensures forall k :: 0 <= k < hashTable.Length ==> hashTable[k] == NIL
    {
      for i := 0 to hashTable.Length
        invariant forall k :: 0 <= k < i ==> hashTable[k] == NIL
      {
        hashTable[i] := NIL;
      }
    }

    ghost function View(): Kernel
      reads this, heads, links, hashTable
    {
      Kernel(Cache(heads[..], links[..], hashTable[..], freeList), disk)
    }

    ghost predicate Valid()
      reads this, heads, links, hashTable
    {
      Respects(others) && InOrder(last, lastMine, View(), mine)
    }

    // Another task runs: everything this task did since it last woke up must be in order.
    method Sleep()
      requires Valid() && patience > 0
      modifies this, heads, links, hashTable
      ensures Valid() && patience == old(patience) - 1 && mine == old(mine)
      ensures Rely(old(View()), View(), mine) && last == View() && lastMine == mine
      ensures Undisturbed(others, old(patience), old(View()), View())
      ensures Succeeds(others) ==> Delivered(old(View()), View(), mine)
    {
      hide Inv, Logical, Undirtied, Delivered;
      var k := Kernel(Cache(heads[..], links[..], hashTable[..], freeList), disk);
      var k' := others(k, mine, patience);
      assert Rely(k, k', mine);
      forall i | 0 <= i < heads.Length { heads[i] := k'.cache.bufs[i]; }
      forall i | 0 <= i < links.Length { links[i] := k'.cache.links[i]; }
      forall i | 0 <= i < hashTable.Length { hashTable[i] := k'.cache.hash[i]; }
      freeList, disk, patience := k'.cache.free, k'.disk, patience - 1;
      assert heads[..] == k'.cache.bufs;
      assert links[..] == k'.cache.links;
      assert hashTable[..] == k'.cache.hash;
      assert View() == k';
      last, lastMine := k', mine;
      LemmaOrderly(k', mine);
    }

    // This task runs on: its changes since it last woke up still are in order.
    twostate predicate SameTime()
      reads this, heads, links, hashTable
    {
      patience == old(patience) && View() == old(View()) && last == old(last) && lastMine == old(lastMine)
    }

    method WaitOnBuffer(bh: int) returns (awake: bool)
      requires Valid() && 0 <= bh < heads.Length
      modifies this, heads, links, hashTable
      ensures Valid() && mine == old(mine) && patience <= old(patience)
      ensures if awake then !heads[bh].lock else patience == 0
      ensures !old(heads[bh].lock) ==> awake && patience == old(patience)
      ensures patience == old(patience) ==> SameTime()
      ensures Succeeds(others) ==> Delivered(old(View()), View(), mine)
      ensures Rely(old(View()), View(), mine) && Undisturbed(others, old(patience), old(View()), View())
    {
      ghost var k, t := View(), patience;
      LemmaUndisturbedSame(others, t, k);
      assert Rely(k, k, mine);
      assert Delivered(k, k, mine);
      hide Inv, InOrder, Respects, Rely, Undisturbed, Delivered, Succeeds;
      while heads[bh].lock
        invariant Valid() && mine == old(mine) && patience <= old(patience)
        invariant Succeeds(others) ==> Delivered(k, View(), mine)
        invariant !old(heads[bh].lock) ==> patience == old(patience)
        invariant patience == old(patience) ==> SameTime()
        invariant Rely(k, View(), mine) && Undisturbed(others, t, k, View())
        decreases patience
      {
        if patience == 0 {
          return false;
        }
        ghost var k1, t1 := View(), patience;
        Sleep();
        LemmaRelyTwice(k, k1, View(), mine);
        LemmaUndisturbedTwice(others, t, k, t1, k1, View());
        if Succeeds(others) {
          LemmaDeliveredTwice(k, k1, View(), mine);
        }
      }
      return true;
    }

    // find_buffer
    method FindBuffer(dev: Dev, block: Block) returns (bh: int)
      requires Inv(View())
      ensures Pointers(View().cache) && bh == Find(View().cache, dev, block)
    {
      hide Bucket, FreeList;
      ghost var c := View().cache;
      ghost var ring, chains :| Shape(c, ring, chains);
      LemmaPointers(c, ring, chains);
      var h := Bucket(dev, block, hashTable.Length);
      LemmaDistinctShort(chains[h], |c.bufs|);
      bh := hashTable[h];
      ghost var k, n := 0, |c.bufs|;
      while bh != NIL
        invariant InRange(c, bh) && 0 <= k <= |chains[h]| && bh == At(chains[h], k) && |chains[h]| - k <= n
        invariant Walk(c, bh, dev, block, n) == Find(c, dev, block)
        decreases n
      {
        if heads[bh].dev == dev && heads[bh].block == block {
          return;
        }
        assert Linked(c.links, chains[h], k);
        bh := links[bh].next;
        k, n := k + 1, n - 1;
      }
    }

    // The search of getblk along the free list.
    method FindUnused() returns (bh: int)
      requires Inv(View())
      ensures Pointers(View().cache) && bh == Choose(View().cache)
    {
      hide Bucket, Chains, Listed;
      ghost var c := View().cache;
      ghost var ring, chains :| Shape(c, ring, chains);
      LemmaPointers(c, ring, chains);
      LemmaDistinctShort(ring, |c.bufs|);
      bh := NIL;
      var tmp := freeList;
      ghost var k, n := 0, |c.bufs|;
      while true
        invariant InRange(c, bh) && 0 <= k < |ring| && tmp == ring[k] && |ring| - k <= n
        invariant Scan(c, tmp, bh, n) == Choose(c)
        decreases n
      {
        LemmaNeighbours(c.links, ring, k);
        if heads[tmp].count == 0 && (bh == NIL || Badness(heads[tmp]) < Badness(heads[bh])) {
          bh := tmp;
          if Badness(heads[tmp]) == 0 {
            break;
          }
        }
        tmp := links[tmp].nextFree;
        if tmp == freeList {
          break;
        }
        assert k + 1 < |ring|;
        k, n := k + 1, n - 1;
      }
    }

    // The hash-queue part of remove_from_queues.
    method RemoveFromHash(bh: int)
      requires Sized(View().cache) && Pointers(View().cache) && 0 <= bh < heads.Length
      modifies links, hashTable
      ensures var c := old(View().cache);
        var h := BucketOf(c, bh);
        var (l1, head) := UnlinkHash(c.links, c.hash[h], bh);
        View() == old(View()).(cache := c.(links := l1, hash := c.hash[h := head]))
    {
      hide Bucket;
      ghost var c := View().cache;
      var h := Bucket(heads[bh].dev, heads[bh].block, hashTable.Length);
      var next := links[bh].next;
      if next != NIL {
        links[next] := links[next].(prev := links[bh].prev);
      }
      var prev := links[bh].prev;
      if prev != NIL {
        links[prev] := links[prev].(next := links[bh].next);
      }
      if hashTable[h] == bh {
        hashTable[h] := links[bh].next;
      }
      assert links[..] == UnlinkHash(c.links, c.hash[h], bh).0;
      assert hashTable[..] == c.hash[h := UnlinkHash(c.links, c.hash[h], bh).1];
    }

    // remove_from_queues; false is the panic on a corrupted free list.
    method RemoveFromQueues(bh: int) returns (ok: bool)
      requires Sized(View().cache) && Pointers(View().cache) && 0 <= bh < heads.Length
      modifies this`freeList, links, hashTable
      ensures ok == Remove(old(View().cache), bh).Some?
      ensures ok ==> View() == old(View()).(cache := Remove(old(View().cache), bh).value)
    {
      hide Bucket, UnlinkHash;
      RemoveFromHash(bh);
      ghost var l1 := links[..];
      assert AllGood(l1);
      var p, n := links[bh].prevFree, links[bh].nextFree;
      if p == NIL || n == NIL {
        return false;
      }
      links[p] := links[p].(nextFree := n);
      links[links[bh].nextFree] := links[links[bh].nextFree].(prevFree := links[bh].prevFree);
      assert links[..] == UnlinkFree(l1, bh);
      if freeList == bh {
        freeList := n;
      }
      return true;
    }

    // insert_into_queues
    method InsertIntoQueues(bh: int)
      requires Sized(View().cache) && Pointers(View().cache) && 0 <= bh < heads.Length
      requires 0 <= links[freeList].prevFree
      modifies links, hashTable
      ensures View() == old(View()).(cache := Insert(old(View().cache), bh))
    {
      hide Bucket;
      ghost var c := View().cache;
      links[bh] := links[bh].(nextFree := freeList);
      links[bh] := links[bh].(prevFree := links[freeList].prevFree);
      var last := links[freeList].prevFree;
      links[last] := links[last].(nextFree := bh);
      links[freeList] := links[freeList].(prevFree := bh);
      assert links[..] == LinkFree(c.links, bh, c.free);
      links[bh] := links[bh].(prev := NIL, next := NIL);
      if heads[bh].dev == 0 {
        return;
      }
      ghost var l2 := links[..];
      var h := Bucket(heads[bh].dev, heads[bh].block, hashTable.Length);
      links[bh] := links[bh].(next := hashTable[h]);
      hashTable[h] := bh;
      var next := links[bh].next;
      if next != NIL {
        links[next] := links[next].(prev := bh);
      }
      assert links[..] == LinkHash(l2, c.hash[h], bh);
    }

    // The last lines of getblk.
    method TakeBuffer(bh: int, dev: Dev, block: Block)
      requires Valid() && 0 <= bh < heads.Length && dev != 0
      requires heads[bh].count == 0 && !heads[bh].lock && !heads[bh].dirt
      requires forall i :: 0 <= i < heads.Length ==> NameOf(heads[i]) != (dev, block)
      modifies this, heads, links, hashTable
      ensures Valid() && |old(mine)| == heads.Length && mine == More(old(mine), bh) && patience == old(patience)
      ensures heads[..] == old(heads[..])[bh := old(heads[bh]).(count := 1, dirt := false, uptodate := false, dev := dev, block := block)]
      ensures Rely(old(View()), View(), old(mine))
    {
      hide Coherent, Logical, FreeList, Chains, Listed, Bucket, Remove, Insert;
      ghost var k := View();
      ghost var ring, chains :| Shape(k.cache, ring, chains);
      LemmaPointers(k.cache, ring, chains);
      assert Enabled(StoreOf(k), Take(bh, (dev, block)));
      LemmaRename(k.cache, ring, chains, bh, dev, block);
      heads[bh] := heads[bh].(count := 1, dirt := false, uptodate := false);
      ghost var c0 := View().cache;
      assert c0 == k.cache.(bufs := k.cache.bufs[bh := heads[bh]]);
      LemmaFreeHasPrev(k.cache, ring, chains, bh, c0);
      var ok := RemoveFromQueues(bh);
      ghost var c1 := View().cache;
      heads[bh] := heads[bh].(dev := dev, block := block);
      ghost var c2 := View().cache;
      InsertIntoQueues(bh);
      mine := More(mine, bh);
      LemmaTakeStep(last, lastMine, k, old(mine), bh, (dev, block), View());
    }

    // A buffer that had the name is the one returned, without a wait if it was not locked, and
    // still up to date if it was.
    twostate predicate Served(bh: int, awake: bool, dev: Dev, block: Block)
      reads this, heads
    {
      forall i :: 0 <= i < heads.Length && NameOf(old(heads[i])) == (dev, block) ==>
        && (awake ==> bh == i && (old(heads[i].uptodate) ==> heads[i].uptodate))
        && (!old(heads[i].lock) ==> awake && patience == old(patience))
    }

    // b_count++ or b_count-- by this task.
    method Reference(bh: int, up: bool)
      requires Valid() && 0 <= bh < heads.Length && (up || (bh < |mine| && mine[bh].refs > 0))
      modifies this`mine, heads
      ensures Valid() && |old(mine)| == heads.Length && mine == if up then More(old(mine), bh) else Less(old(mine), bh)
      ensures heads[..] == old(heads[..])[bh := old(heads[bh]).(count := if up then old(heads[bh]).count + 1 else old(heads[bh]).count - 1)]
      ensures Rely(old(View()), View(), if up then old(mine) else mine)
    {
      hide Coherent, Logical, FreeList, Chains, Listed, Bucket, Respects;
      ghost var k := View();
      assert heads[bh].count >= mine[bh].refs;
      if up {
        heads[bh] := heads[bh].(count := heads[bh].count + 1);
        mine := More(mine, bh);
        LemmaSmallStep(last, lastMine, k, old(mine), Hold(bh), View());
      } else {
        heads[bh] := heads[bh].(count := heads[bh].count - 1);
        mine := Less(mine, bh);
        LemmaSmallStep(last, lastMine, k, old(mine), Drop(bh), View());
      }
    }

    // No wait is needed: the block's buffer is unlocked, or there is none and a spare one.
    predicate Ready(dev: Dev, block: Block)
      reads this, heads
    {
      if exists i :: 0 <= i < heads.Length && NameOf(heads[i]) == (dev, block)
      then forall i :: 0 <= i < heads.Length && NameOf(heads[i]) == (dev, block) ==> !heads[i].lock
      else exists i :: 0 <= i < heads.Length && Spare(heads[i])
    }

    // get_hash_table.  The test after the wait always succeeds: a held buffer keeps its name.
    method GetHashTable(dev: Dev, block: Block) returns (bh: int, awake: bool)
      requires Valid() && dev != 0
      modifies this, heads, links, hashTable
      ensures Valid() && -1 <= bh < heads.Length && patience <= old(patience)
      ensures bh == NIL ==> mine == old(mine) && SameTime() && forall i :: 0 <= i < heads.Length ==> NameOf(heads[i]) != (dev, block)
      ensures bh != NIL ==> bh < |old(mine)| && mine == More(old(mine), bh) && NameOf(heads[bh]) == (dev, block)
      ensures bh != NIL && awake ==> !heads[bh].lock
      ensures bh == NIL ==> awake
      ensures (!awake ==> patience == 0) && (bh != NIL ==> NameOf(old(heads[bh])) == (dev, block) && Served(bh, awake, dev, block))
      ensures Rely(old(View()), View(), old(mine))
    {
      hide Inv, InOrder, Respects, Rely, Undisturbed, Succeeds, Delivered, Bucket;
      LemmaValidParts();
      bh := FindBuffer(dev, block);
      ghost var k, was := View(), mine;
      LemmaFindNone(k.cache, dev, block);
      LemmaRelySame(k, was);
      if bh == NIL {
        return NIL, true;
      }
      Reference(bh, true);
      ghost var k1 := View();
      awake := WaitOnBuffer(bh);
      LemmaOnlyOne(k, bh, dev, block);
      LemmaHeldName(k1, View(), mine, bh);
      LemmaRelyFewer(k1, View(), was, bh);
      LemmaRelyTwice(k, k1, View(), was);
    }

    // lock_buffer
    method LockBuffer(bh: int) returns (awake: bool)
      requires Valid() && 0 <= bh < heads.Length && heads[bh].dev != 0
      modifies this, heads, links, hashTable
      ensures Valid() && patience <= old(patience) && |old(mine)| == heads.Length && heads[bh].dev != 0
      ensures Rely(old(View()), View(), old(mine)) && Undisturbed(others, old(patience), old(View()), View())
      ensures if awake then mine == Locked(old(mine), bh) && !old(mine)[bh].lock else mine == old(mine) && patience == 0
    {
      hide Coherent, Logical, FreeList, Chains, Listed, Bucket, Undisturbed;
      ghost var k0, t := View(), patience;
      awake := WaitOnBuffer(bh);
      assert Respected(k0.cache.bufs[bh], View().cache.bufs[bh], mine[bh]);
      if !awake {
        return;
      }
      ghost var k := View();
      assert Backed(k.cache.bufs[bh], mine[bh]);
      LemmaSane(k, bh);
      heads[bh] := heads[bh].(lock := true);
      mine := Locked(mine, bh);
      assert View() == k.(cache := k.cache.(bufs := Next(StoreOf(k), Lock(bh)).bufs));
      LemmaSmallStep(last, lastMine, k, old(mine), Lock(bh), View());
      LemmaOwnStep(k0, k, View(), old(mine), bh);
      LemmaUndisturbedOwn(others, t, k0, k, View());
    }

    // The loop of make_request that sleeps until a request is free, with the buffer locked.
    method AwaitRequest(bh: int) returns (awake: bool)
      requires Valid() && 0 <= bh < heads.Length && bh < |mine| && mine[bh].lock
      modifies this, heads, links, hashTable
      ensures Valid() && mine == old(mine) && patience <= old(patience) && (!awake ==> patience == 0)
      ensures Rely(old(View()), View(), mine) && Undisturbed(others, old(patience), old(View()), View())
    {
      ghost var k, t := View(), patience;
      LemmaUndisturbedSame(others, t, k);
      assert Rely(k, k, mine);
      hide Inv, InOrder, Respects, Rely, Undisturbed;
      while full(patience)
        invariant Valid() && mine == old(mine) && patience <= old(patience)
        invariant Rely(k, View(), mine) && Undisturbed(others, t, k, View())
        decreases patience
      {
        if patience == 0 {
          return false;
        }
        ghost var k1, t1 := View(), patience;
        Sleep();
        LemmaRelyTwice(k, k1, View(), mine);
        LemmaUndisturbedTwice(others, t, k, t1, k1, View());
      }
      return true;
    }

    // The end of make_request: the buffer that this task has locked goes into a request, or is
    // unlocked if there is nothing to do.
    method Submit(e: Step, bh: int)
      requires Valid() && 0 <= bh < heads.Length && e.i == bh && (e.Put? || e.Ask? || e.Unlock?)
      requires Small(StoreOf(View()), mine, e)
      modifies this`mine, heads
      ensures Valid() && patience == old(patience) && |old(mine)| == heads.Length && mine == Unlocked(old(mine), bh)
      ensures heads[bh].dirt == (old(heads[bh].dirt) && e.Unlock?) && heads[bh].dev == old(heads[bh].dev)
      ensures heads[bh].uptodate == old(heads[bh].uptodate)
      ensures e.Ask? ==> heads[bh].lock && heads[bh].io == Reading
      ensures Rely(old(View()), View(), mine) && SameSize(old(View()), View())
      ensures forall i :: 0 <= i < heads.Length ==> heads[i].dev == old(heads[i].dev) && (heads[i].dirt ==> old(heads[i].dirt))
    {
      hide Coherent, Logical, FreeList, Chains, Listed, Bucket;
      ghost var k := View();
      if e.Unlock? {
        heads[bh] := heads[bh].(lock := false);
      } else {
        heads[bh] := heads[bh].(dirt := false, io := if e.Put? then Writing else Reading);
      }
      mine := Unlocked(mine, bh);
      assert View() == k.(cache := k.cache.(bufs := Next(StoreOf(k), e).bufs));
      LemmaSmallStep(last, lastMine, k, old(mine), e, View());
      LemmaOwnStep(k, k, View(), mine, bh);
    }

    // The buffer is up to date, or locked while it is being read.
    predicate Arriving(bh: int)
      requires 0 <= bh < heads.Length
      reads this, heads
    {
      heads[bh].uptodate || (heads[bh].lock && heads[bh].io == Reading)
    }

    // make_request from the point where the buffer is locked.
    method MakeRequest(write: bool, bh: int, ghost held: Holds) returns (awake: bool)
      requires Valid() && 0 <= bh < heads.Length && bh < |held| && mine == Locked(held, bh) && !held[bh].lock
      modifies this, heads, links, hashTable
      ensures Valid() && patience <= old(patience)
      ensures if awake then mine == held && (if write then !heads[bh].dirt else Arriving(bh)) else patience == 0
      ensures Rely(old(View()), View(), held) && Undisturbed(others, old(patience), old(View()), View())
    {
      hide Inv, InOrder, Respects, Rely, Undisturbed, Holding, Backed, SameSize;
      ghost var k1, t1 := View(), patience;
      LemmaValidParts();
      LemmaRelySame(k1, mine);
      LemmaRelyLess(k1, k1, held, bh);
      LemmaUndisturbedSame(others, t1, k1);
      var idle := (write && !heads[bh].dirt) || (!write && heads[bh].uptodate);
      if !idle {
        awake := AwaitRequest(bh);
        LemmaLockKept(k1, View(), mine, bh);
        LemmaRelyLess(k1, View(), held, bh);
        if !awake {
          return;
        }
      }
      ghost var k2 := View();
      LemmaValidParts();
      LemmaLockIsMine(k2, mine, bh);
      Submit(if idle then Unlock(bh) else if write then Put(bh) else Ask(bh), bh);
      LemmaUnlocked(held, bh);
      LemmaRelyTwice(k1, k2, View(), held);
      LemmaUndisturbedOwn(others, t1, k1, k2, View());
      awake := true;
    }

    // ll_rw_block and make_request for WRITE and READ; the test of the device stands for that of
    // its request function.
    method LlRwBlock(write: bool, bh: int) returns (awake: bool)
      requires Valid() && 0 <= bh < heads.Length
      modifies this, heads, links, hashTable
      ensures Valid() && patience <= old(patience)
      ensures if awake then mine == old(mine) && (heads[bh].dev == 0 || if write then !heads[bh].dirt else Arriving(bh)) else patience == 0
      ensures Rely(old(View()), View(), old(mine)) && Undisturbed(others, old(patience), old(View()), View())
    {
      ghost var k0, t, held := View(), patience, mine;
      LemmaUndisturbedSame(others, t, k0);
      assert Rely(k0, k0, mine);
      hide Inv, InOrder, Respects, Rely, Undisturbed;
      if heads[bh].dev == 0 {
        return true;
      }
      awake := LockBuffer(bh);
      if !awake {
        return;
      }
      ghost var k1, t1 := View(), patience;
      awake := MakeRequest(write, bh, held);
      LemmaRelyTwice(k0, k1, View(), held);
      LemmaUndisturbedTwice(others, t, k0, t1, k1, View());
    }

    // One of the two passes of sync_dev.
    method SyncBuffers(dev: Dev) returns (awake: bool)
      requires Valid()
      modifies this, heads, links, hashTable
      ensures Valid() && patience <= old(patience) && if awake then mine == old(mine) else patience == 0
      ensures Rely(old(View()), View(), old(mine))
      ensures awake && dev != 0 && Calm(others, dev, old(patience)) ==> NoDirty(StoreOf(View()), dev)
    {
      ghost var k, t := View(), patience;
      assert Rely(k, k, mine);
      hide Inv, InOrder, Respects, Rely, Undisturbed, Calm;
      var i := 0;
      while i < heads.Length
        invariant 0 <= i <= heads.Length && Valid() && mine == old(mine) && patience <= old(patience)
        invariant Rely(k, View(), mine)
        invariant dev != 0 && Calm(others, dev, t) ==> CleanBelow(View(), dev, i)
      {
        if heads[i].dev == dev {
          awake := SyncBuffer(i, dev, t, k);
          if !awake {
            return;
          }
        }
        i := i + 1;
      }
      return true;
    }

    // The wait for buffer i, and its write request if it still is a dirty buffer of dev.
    method SyncBuffer(i: int, dev: Dev, ghost t: nat, ghost k: Kernel) returns (awake: bool)
      requires Valid() && 0 <= i < heads.Length && patience <= t && Rely(k, View(), mine)
      modifies this, heads, links, hashTable
      ensures Valid() && patience <= old(patience) && (if awake then mine == old(mine) else patience == 0) && Rely(k, View(), old(mine))
      ensures awake && dev != 0 && Calm(others, dev, t) && old(CleanBelow(View(), dev, i)) ==> CleanBelow(View(), dev, i + 1)
    {
      hide Inv, InOrder, Respects, Rely, Undisturbed, Calm;
      ghost var k1, t1 := View(), patience;
      awake := WaitOnBuffer(i);
      LemmaRelyTwice(k, k1, View(), mine);
      if awake && heads[i].dev == dev && heads[i].dirt {
        ghost var k2, t2 := View(), patience;
        awake := LlRwBlock(true, i);
        LemmaRelyTwice(k, k2, View(), old(mine));
        LemmaUndisturbedTwice(others, t1, k1, t2, k2, View());
      }
      if Calm(others, dev, t) {
        LemmaCalmer(others, dev, t, t1);
        if CleanBelow(k1, dev, i) {
          LemmaStillClean(others, t1, k1, View(), dev, i);
        }
      }
    }

    /** sync_dev; its sync_inodes counts as a sleep, during which inodes reach the buffers.  If nobody
        writes to a buffer of the device from then on, then none is dirty in the end, and when the
        driver is through with the queue, the disk has what was written. */
    method SyncDev(dev: Dev) returns (awake: bool, ghost from: nat)
      requires Valid()
      modifies this, heads, links, hashTable
      ensures Valid() && patience <= old(patience) && if awake then mine == old(mine) else patience == 0
      ensures awake ==> patience <= from < old(patience)
      ensures Rely(old(View()), View(), old(mine))
      ensures awake && dev != 0 && Calm(others, dev, from) ==> NoDirty(StoreOf(View()), dev) && Synced(StoreOf(View()), dev)
    {
      hide Inv, InOrder, Respects, Rely, Undisturbed, Calm, NoDirty, Synced;
      ghost var k, held := View(), mine;
      from := patience;
      awake := SyncBuffers(dev);
      if !awake {
        return;
      }
      if patience == 0 {
        awake := false;
        return;
      }
      ghost var k1 := View();
      Sleep();
      LemmaRelyTwice(k, k1, View(), held);
      from := patience;
      ghost var k2 := View();
      awake := SyncBuffers(dev);
      LemmaRelyTwice(k, k2, View(), held);
      LemmaValidParts();
      if dev != 0 && NoDirty(StoreOf(View()), dev) {
        LemmaSyncedDisk(StoreOf(View()), dev);
      }
    }

    lemma LemmaValidParts()
      requires Valid()
      ensures Inv(View()) && Holding(View(), mine) && Coherent(StoreOf(View()))
    {
    }

    // The wait loop of getblk on the buffer it has chosen; again means goto repeat.
    method CleanBuffer(bh: int) returns (again: bool, awake: bool)
      requires Valid() && 0 <= bh < heads.Length
      modifies this, heads, links, hashTable
      ensures Valid() && patience <= old(patience) && if awake then mine == old(mine) else patience == 0
      ensures awake && patience == old(patience) ==> SameTime()
      ensures awake && !again ==> heads[bh].count == 0 && !heads[bh].lock && !heads[bh].dirt
      ensures awake && again ==> heads[bh].count > 0
      ensures old(Spare(heads[bh])) ==> awake && !again && patience == old(patience)
      ensures Rely(old(View()), View(), old(mine))
    {
      ghost var k, held := View(), mine;
      hide Inv, InOrder, Respects, Rely, Undisturbed, Synced, NoDirty, Calm;
      awake := WaitOnBuffer(bh);
      if !awake || heads[bh].count > 0 {
        return true, awake;
      }
      while heads[bh].dirt
        invariant Valid() && mine == held && patience <= old(patience)
        invariant patience == old(patience) ==> SameTime()
        invariant heads[bh].count == 0 && !heads[bh].lock
        invariant old(Spare(heads[bh])) ==> patience == old(patience) && !heads[bh].dirt
        invariant Rely(k, View(), held)
        decreases patience
      {
        ghost var from, k1 := 0, View();
        awake, from := SyncDev(heads[bh].dev);
        LemmaRelyTwice(k, k1, View(), held);
        if !awake {
          return true, false;
        }
        k1 := View();
        awake := WaitOnBuffer(bh);
        LemmaRelyTwice(k, k1, View(), held);
        if !awake || heads[bh].count > 0 {
          return true, awake;
        }
      }
      return false, true;
    }

    // The task holds bh once more than in was; bh has the name and is not locked.
    predicate Got(bh: int, dev: Dev, block: Block, was: Holds)
      reads this, heads
    {
      && 0 <= bh < heads.Length && bh < |was| && NameOf(heads[bh]) == (dev, block) && !heads[bh].lock
      && mine == More(was, bh)
    }

    // The body of getblk up to its `goto repeat`s: again means repeat.
    method TryGetBlk(dev: Dev, block: Block) returns (bh: int, again: bool, awake: bool)
      requires Valid() && dev != 0
      modifies this, heads, links, hashTable
      ensures Valid() && patience <= old(patience) && (awake && again ==> patience < old(patience))
      ensures if awake then if again then mine == old(mine) else Got(bh, dev, block, old(mine)) else patience == 0
      ensures if awake && again then forall i :: 0 <= i < heads.Length ==> NameOf(old(heads[i])) != (dev, block)
        else Served(bh, awake, dev, block)
      ensures old(Ready(dev, block)) ==> awake && !again && patience == old(patience)
      ensures Rely(old(View()), View(), old(mine))
    {
      hide Inv, InOrder, Respects, Logical, Coherent, Bucket;
      again := false;
      bh, awake := GetHashTable(dev, block);
      if bh != NIL {
        return;
      }
      bh := ChooseUnused();
      if bh == NIL {
        if patience == 0 {
          return NIL, false, false;
        }
        Sleep();
        return NIL, true, true;
      }
      again, awake := CleanBuffer(bh);
      if !awake || again {
        return;
      }
      again := Exists(dev, block);
      if again {
        return;
      }
      // now the buffer is unused, unlocked and clean, and no other has the name
      TakeBuffer(bh, dev, block);
    }

    /** getblk: whatever happens at its sleeps, the buffer returned is held once more by this task,
        is named (dev, block), and nothing this task did changed the content of any block. */
    method GetBlk(dev: Dev, block: Block) returns (bh: int, awake: bool)
      requires Valid() && dev != 0
      modifies this, heads, links, hashTable
      ensures Valid() && patience <= old(patience) && if awake then Got(bh, dev, block, old(mine)) else patience == 0
      ensures Served(bh, awake, dev, block) && (old(Ready(dev, block)) ==> awake && patience == old(patience))
      ensures Rely(old(View()), View(), old(mine))
    {
      hide Inv, InOrder, Respects, Rely, Valid, View, Got, Ready;
      ghost var start, held := View(), mine;
      var again;
      bh, again, awake := TryGetBlk(dev, block);
      while awake && again
        invariant Valid() && Rely(start, View(), held)
        invariant patience <= old(patience) && if awake then if again then mine == held else Got(bh, dev, block, held) else patience == 0
        invariant (forall i :: 0 <= i < heads.Length ==> NameOf(old(heads[i])) != (dev, block)) || (!(awake && again) && Served(bh, awake, dev, block))
        invariant old(Ready(dev, block)) ==> awake && !again && patience == old(patience)
        decreases awake && again, patience
      {
        ghost var k := View();
        bh, again, awake := TryGetBlk(dev, block);
        LemmaRelyTwice(start, k, View(), held);
      }
    }

    // FindUnused, with what getblk needs of it.
    method ChooseUnused() returns (bh: int)
      requires Inv(View())
      ensures -1 <= bh < heads.Length && (bh != NIL ==> heads[bh].count == 0)
      ensures bh == NIL ==> forall i :: 0 <= i < heads.Length ==> heads[i].count > 0
      ensures bh != NIL ==> forall i :: 0 <= i < heads.Length && heads[i].count == 0 ==> NoWorse(heads[bh], heads[i])
    {
      bh := FindUnused();
      ghost var c := View().cache;
      ghost var ring, chains :| Shape(c, ring, chains);
      LemmaChoose(c, ring, chains);
      hide Scan, Choose, Bucket, Chains, Listed, Ring;
      forall i | bh == NIL && 0 <= i < heads.Length
        ensures heads[i].count > 0
      {
        assert i in ring;
      }
      forall i | 0 <= i < heads.Length && heads[i].count == 0
        ensures bh != NIL && NoWorse(heads[bh], heads[i])
      {
        LemmaChoosesBest(c, ring, chains, i);
      }
    }

    // The test with find_buffer before the last lines of getblk.
    method Exists(dev: Dev, block: Block) returns (found: bool)
      requires Inv(View()) && dev != 0
      ensures found <==> exists i :: 0 <= i < heads.Length && NameOf(heads[i]) == (dev, block)
    {
      var bh := FindBuffer(dev, block);
      LemmaFindNone(View().cache, dev, block);
      return bh != NIL;
    }

    // brelse by a task that holds the buffer; its panic needs a buffer nobody holds.
    method BRelse(bh: int) returns (awake: bool)
      requires Valid() && 0 <= bh < heads.Length && bh < |mine| && mine[bh].refs > 0
      modifies this, heads, links, hashTable
      ensures Valid() && patience <= old(patience)
      ensures if awake then mine == Less(old(mine), bh) else patience == 0
      ensures Rely(old(View()), View(), Less(old(mine), bh))
    {
      hide Inv, InOrder, Respects, Rely, Undisturbed, Succeeds, Delivered;
      ghost var k, was := View(), mine;
      LemmaValidParts();
      awake := WaitOnBuffer(bh);
      LemmaMore(was, bh);
      LemmaRelyFewer(k, View(), Less(was, bh), bh);
      if awake {
        ghost var k1 := View();
        Reference(bh, false);
        LemmaRelyTwice(k, k1, View(), mine);
      }
    }

    // An up-to-date buffer that had the name is the one returned, without a wait if it was not locked.
    twostate predicate ServedRead(bh: int, awake: bool, dev: Dev, block: Block)
      reads this, heads
    {
      forall i :: 0 <= i < heads.Length && NameOf(old(heads[i])) == (dev, block) && old(heads[i].uptodate) ==>
        (awake ==> bh == i) && (!old(heads[i].lock) ==> awake && patience == old(patience))
    }

    /** bread: a buffer returned holds the block's content. */
    method BRead(dev: Dev, block: Block) returns (bh: int, awake: bool)
      requires Valid() && dev != 0
      modifies this, heads, links, hashTable
      ensures Valid() && patience <= old(patience) && (!awake ==> patience == 0)
      ensures awake && bh != NIL ==> 0 <= bh < heads.Length && NameOf(heads[bh]) == (dev, block) && heads[bh].uptodate
      ensures awake && bh != NIL ==> heads[bh].data == Logical(StoreOf(View()), (dev, block))
      ensures awake && bh != NIL ==> bh < |old(mine)| && mine == More(old(mine), bh)
      ensures awake && bh == NIL ==> mine == old(mine) && patience < old(patience) && !Succeeds(others)
      ensures ServedRead(bh, awake, dev, block)
      ensures Rely(old(View()), View(), old(mine))
    {
      hide Inv, InOrder, Respects, Logical, Coherent, Rely, Undisturbed;
      ghost var k0, was := View(), mine;
      bh, awake := GetBlk(dev, block);
      if !awake {
        return;
      }
      ghost var k1 := View();
      if !heads[bh].uptodate {
        awake := ReadIn(bh);
        LemmaHeldName(k1, View(), More(was, bh), bh);
        LemmaRelyFewer(k1, View(), was, bh);
        LemmaRelyTwice(k0, k1, View(), was);
        if !awake {
          return;
        }
        if !heads[bh].uptodate {
          ghost var k2 := View();
          awake := BRelse(bh);
          assert Less(More(was, bh), bh) == was;
          LemmaRelyTwice(k0, k2, View(), was);
          return NIL, awake;
        }
      }
      LemmaValidParts();
      LemmaUptodate(View(), bh);
    }

    // The read of bread and the wait for it.
    method ReadIn(bh: int) returns (awake: bool)
      requires Valid() && 0 <= bh < heads.Length && heads[bh].dev != 0 && bh < |mine| && mine[bh].refs > 0
      modifies this, heads, links, hashTable
      ensures Valid() && patience <= old(patience) && (if awake then mine == old(mine) else patience == 0)
      ensures awake && !heads[bh].uptodate ==> patience < old(patience) && !Succeeds(others)
      ensures Rely(old(View()), View(), old(mine))
    {
      hide Inv, InOrder, Respects, Logical, Coherent, Rely, Undisturbed, Succeeds, Delivered;
      ghost var k, held := View(), mine;
      awake := LlRwBlock(false, bh);
      if awake {
        ghost var k1 := View();
        LemmaHeldName(k, k1, held, bh);
        awake := WaitOnBuffer(bh);
        LemmaRelyTwice(k, k1, View(), held);
        if awake {
          LemmaValidParts();
          LemmaArrived(k1, View(), held, bh);
        }
      }
    }
  }

  // A buffer that nobody holds, with nothing to write and no transfer.
  predicate Spare(b: Buf) { b.count == 0 && !b.lock && !b.dirt }

  // With a hold less, a task can count on less.
  lemma LemmaRelyFewer(k: Kernel, k': Kernel, mine: Holds, i: int)
    requires 0 <= i < |mine| && Rely(k, k', More(mine, i))
    ensures Rely(k, k', mine)
  {
    hide Inv;
    forall j | 0 <= j < |mine|
      ensures Backed(k'.cache.bufs[j], mine[j])
      ensures j < |k.cache.bufs| ==> Respected(k.cache.bufs[j], k'.cache.bufs[j], mine[j])
    {
      assert Backed(k'.cache.bufs[j], More(mine, i)[j]);
      assert j < |k.cache.bufs| ==> Respected(k.cache.bufs[j], k'.cache.bufs[j], More(mine, i)[j]);
    }
  }

  lemma LemmaHeldName(k: Kernel, k': Kernel, mine: Holds, i: int)
    requires Rely(k, k', mine) && 0 <= i < |mine| && i < |k.cache.bufs| && mine[i].refs > 0
    ensures NameOf(k'.cache.bufs[i]) == NameOf(k.cache.bufs[i]) && (k.cache.bufs[i].uptodate ==> k'.cache.bufs[i].uptodate)
  {
    assert Respected(k.cache.bufs[i], k'.cache.bufs[i], mine[i]);
  }

  lemma LemmaArrived(k: Kernel, k': Kernel, mine: Holds, i: int)
    requires Rely(k, k', mine) && 0 <= i < |mine| && i < |k.cache.bufs| && mine[i].refs > 0 && !k'.cache.bufs[i].lock
    ensures k.cache.bufs[i].uptodate ==> k'.cache.bufs[i].uptodate
    ensures Coming(k.cache.bufs[i]) && Delivered(k, k', mine) ==> k'.cache.bufs[i].uptodate
  {
    assert Respected(k.cache.bufs[i], k'.cache.bufs[i], mine[i]);
    LemmaSane(k', i);
  }

  // This task's own step on buffer i, which it neither held nor had locked before for others to see.
  lemma LemmaOwnStep(k: Kernel, k1: Kernel, k2: Kernel, mine: Holds, i: int)
    requires Rely(k, k1, mine) && Inv(k2) && SameSize(k1, k2) && Holding(k2, mine) && 0 <= i < |mine| && !mine[i].lock
    requires forall j :: 0 <= j < |mine| ==> NameOf(k2.cache.bufs[j]) == NameOf(k1.cache.bufs[j])
    requires forall j :: 0 <= j < |mine| && j != i ==> k2.cache.bufs[j] == k1.cache.bufs[j]
    requires k1.cache.bufs[i].uptodate ==> k2.cache.bufs[i].uptodate
    ensures Rely(k, k2, mine)
  {
    hide Inv;
    forall j | 0 <= j < |mine| && j < |k.cache.bufs|
      ensures Respected(k.cache.bufs[j], k2.cache.bufs[j], mine[j])
    {
      assert Respected(k.cache.bufs[j], k1.cache.bufs[j], mine[j]);
    }
  }

  lemma LemmaLockKept(k: Kernel, k': Kernel, mine: Holds, i: int)
    requires Rely(k, k', mine) && 0 <= i < |mine| && i < |k.cache.bufs| && mine[i].lock
    ensures var b, b' := k.cache.bufs[i], k'.cache.bufs[i];
      b'.dev == b.dev && b'.uptodate == b.uptodate && (b.dirt ==> b'.dirt)
  {
    hide Inv;
    assert Respected(k.cache.bufs[i], k'.cache.bufs[i], mine[i]);
  }

  lemma LemmaLockIsMine(k: Kernel, mine: Holds, i: int)
    requires Holding(k, mine) && 0 <= i < |mine| && mine[i].lock
    ensures k.cache.bufs[i].lock && k.cache.bufs[i].io == NoRequest && k.cache.bufs[i].dev != 0
  {
    assert Backed(k.cache.bufs[i], mine[i]);
  }

  lemma LemmaCalmer(others: (Kernel, Holds, nat) -> Kernel, dev: Dev, t: nat, t': nat)
    requires Calm(others, dev, t) && t' <= t
    ensures Calm(others, dev, t')
  {
  }

  // Buffers that belong to no device yet.
  lemma LemmaEmptyStore(s: Store)
    requires forall i :: 0 <= i < |s.bufs| ==> s.bufs[i] == Buf(0, 0, false, false, 0, false, [], NoRequest)
    ensures Coherent(s)
  {
  }

  lemma LemmaFindNone(c: Cache, dev: Dev, block: Block)
    requires Indexed(c) && Pointers(c) && dev != 0
    ensures Find(c, dev, block) == NIL <==> forall i :: 0 <= i < |c.bufs| ==> NameOf(c.bufs[i]) != (dev, block)
  {
    var ring, chains :| Shape(c, ring, chains);
    LemmaFind(c, ring, chains, dev, block);
  }

  lemma LemmaOnlyOne(k: Kernel, bh: int, dev: Dev, block: Block)
    requires Inv(k) && 0 <= bh < |k.cache.bufs| && NameOf(k.cache.bufs[bh]) == (dev, block) && dev != 0
    ensures forall i :: 0 <= i < |k.cache.bufs| && NameOf(k.cache.bufs[i]) == (dev, block) ==> i == bh
  {
  }

  lemma LemmaSane(k: Kernel, i: int)
    requires Inv(k) && 0 <= i < |k.cache.bufs|
    ensures Sane(k.cache.bufs[i], k.disk)
  {
  }

  lemma LemmaUptodate(k: Kernel, i: int)
    requires Inv(k) && 0 <= i < |k.cache.bufs| && k.cache.bufs[i].uptodate && k.cache.bufs[i].dev != 0
    ensures k.cache.bufs[i].data == Logical(StoreOf(k), NameOf(k.cache.bufs[i]))
  {
    LemmaLogical(StoreOf(k), i, NameOf(k.cache.bufs[i]));
  }

  // Whatever is removed, the first buffer of the free list has a predecessor.
  lemma LemmaFreeHasPrev(k: Cache, ring: seq<int>, chains: seq<seq<int>>, i: int, c: Cache)
    requires Shape(k, ring, chains) && Pointers(c) && 0 <= i < |k.bufs| && c == k.(bufs := c.bufs) && |c.bufs| == |k.bufs|
    requires forall j :: 0 <= j < |k.bufs| ==> c.bufs[j].dev == k.bufs[j].dev && c.bufs[j].block == k.bufs[j].block
    ensures Remove(c, i).Some?
    ensures var r := Remove(c, i).value; 0 <= r.free < |r.links| && r.links[r.free].prevFree >= 0
  {
    LemmaSameNames(k, ring, chains, c);
    LemmaRemove(c, ring, chains, i);
    hide Chains, Listed, Remove, Bucket;
    var rest := RingWithout(ring, i);
    var r := Remove(c, i).value;
    LemmaNeighbours(r.links, if rest == [] then [i] else rest, 0);
  }
}

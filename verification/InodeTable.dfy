/** The table of inodes in memory, fs/inode.c, with other tasks acting at every sleep, as in
    BufferCache.  No two entries ever are the same inode, and no entry is reused before what it holds
    is written. */
module InodeTable {
  type Name = (int, int)      // i_dev and i_num; device 0 is none

  // body stands for what an inode has on disk too.
  datatype Node = Node(dev: int, num: int, count: int, lock: bool, dirt: bool, pipe: bool, body: int)

  const CLEARED := Node(0, 0, 0, false, false, false, 0)

  function NameOf(b: Node): Name { (b.dev, b.num) }

  // disk is what the inode blocks hold, as the buffer cache shows them.
  datatype Kernel = Kernel(nodes: seq<Node>, disk: map<Name, int>)

  function OnDisk(k: Kernel, n: Name): int { if n in k.disk then k.disk[n] else 0 }

  /** No two entries have the same name; an entry that is neither changed nor being read or written is
      what the disk has; only entries with a device are changed, and no pipe has one. */
  ghost predicate Inv(k: Kernel) {
    && (forall i, j :: 0 <= i < j < |k.nodes| && k.nodes[i].dev != 0 ==> NameOf(k.nodes[i]) != NameOf(k.nodes[j]))
    && (forall i :: 0 <= i < |k.nodes| ==> Settled(k, k.nodes[i]))
  }

  predicate Settled(k: Kernel, b: Node) {
    b.count >= 0 && (b.dev == 0 ==> !b.dirt) && (b.pipe ==> b.dev == 0) && (b.dev != 0 && !b.dirt && !b.lock ==> b.body == OnDisk(k, NameOf(b)))
  }

  // Entry i has a change to inode n that the disk has not.
  predicate Changed(k: Kernel, i: int, n: Name) {
    0 <= i < |k.nodes| && NameOf(k.nodes[i]) == n && k.nodes[i].dirt
  }

  // What inode n is: its change in memory, if there is one, or what the disk has.
  ghost function Logical(k: Kernel, n: Name): int {
    if i :| Changed(k, i, n) then k.nodes[i].body else OnDisk(k, n)
  }

  ghost predicate Quiet(k: Kernel, k': Kernel) {
    forall n: Name :: n.0 != 0 ==> Logical(k', n) == Logical(k, n)
  }

  lemma LemmaLogical(k: Kernel, n: Name)
    requires Inv(k) && n.0 != 0
    ensures forall i :: Changed(k, i, n) ==> Logical(k, n) == k.nodes[i].body
    ensures (forall i :: !Changed(k, i, n)) ==> Logical(k, n) == OnDisk(k, n)
  {
  }

  // ---------------------------------------------------------------- tasks beside each other

  // What a task has to do with an entry: how often it counts on it, and whether it locked it.
  datatype Hold = Hold(refs: nat, locked: bool)

  type Holds = seq<Hold>

  predicate Holding(k: Kernel, mine: Holds) {
    |mine| == |k.nodes| && forall i :: 0 <= i < |mine| ==> mine[i].refs <= k.nodes[i].count && (mine[i].locked ==> k.nodes[i].lock)
  }

  // What a task may count on, about one entry.
  predicate Respected(b: Node, b': Node, m: Hold) {
    && m.refs <= b'.count && (m.locked ==> b'.lock)
    && (m.refs > 0 || m.locked ==> NameOf(b') == NameOf(b))
    && (m.locked && b.dirt ==> b'.dirt)
    && ((m.locked || (m.refs > 0 && b.dev == 0)) && b.count == m.refs ==> b' == b)
  }

  ghost predicate Rely(k: Kernel, k': Kernel, mine: Holds) {
    && Inv(k') && |k'.nodes| == |k.nodes| == |mine|
    && forall i :: 0 <= i < |mine| ==> Respected(k.nodes[i], k'.nodes[i], mine[i])
  }

  // What a task does to one entry between two sleeps.
  predicate Accounted(b: Node, b': Node, m: Hold, m': Hold) {
    && b'.count + m.refs == b.count + m'.refs && (b.count > m.refs ==> NameOf(b') == NameOf(b))
    && (m'.locked ==> b'.lock) && (b'.lock ==> m'.locked || (b.lock && !m.locked))
    && (b.lock && !m.locked ==>
          && b'.lock && !m'.locked && NameOf(b') == NameOf(b)
          && (b.dirt ==> b'.dirt) && (m.refs == 0 ==> b' == b))
    && (m.refs == 0 && b.count > 0 && b.dev == 0 ==> b' == b)
  }

  ghost predicate Guarantee(k: Kernel, k': Kernel, mine: Holds, mine': Holds) {
    && Inv(k') && |mine| == |mine'| == |k.nodes| == |k'.nodes|
    && forall i :: 0 <= i < |mine| ==> Accounted(k.nodes[i], k'.nodes[i], mine[i], mine'[i])
  }

  // Two tasks' holds go together: their counts add up to no more than there is, and they share no lock.
  predicate Compatible(k: Kernel, mine: Holds, theirs: Holds) {
    && |mine| == |theirs| == |k.nodes|
    && forall i :: 0 <= i < |mine| ==>
         && mine[i].refs + theirs[i].refs <= k.nodes[i].count && !(mine[i].locked && theirs[i].locked)
         && (mine[i].locked || theirs[i].locked ==> k.nodes[i].lock)
  }

  /** One task's guarantee is every other task's rely condition. */
  lemma LemmaGuaranteeIsRely(k: Kernel, k': Kernel, theirs: Holds, theirs': Holds, mine: Holds)
    requires Guarantee(k, k', theirs, theirs') && Compatible(k, mine, theirs)
    ensures Rely(k, k', mine) && Compatible(k', mine, theirs')
  {
    hide Inv;
    forall i | 0 <= i < |mine|
      ensures Respected(k.nodes[i], k'.nodes[i], mine[i])
      ensures mine[i].refs + theirs'[i].refs <= k'.nodes[i].count && !(mine[i].locked && theirs'[i].locked)
      ensures mine[i].locked || theirs'[i].locked ==> k'.nodes[i].lock
    {
      assert Accounted(k.nodes[i], k'.nodes[i], theirs[i], theirs'[i]);
    }
  }

  // What this task has done since it last woke up is in order, and loses no change to any inode.
  ghost predicate InOrder(last: Kernel, lastMine: Holds, k: Kernel, mine: Holds) {
    Inv(k) && Holding(k, mine) && Guarantee(last, k, lastMine, mine) && Quiet(last, k)
  }

  // One entry changes, and its disk inode if it gets written.
  lemma LemmaOneEntry(last: Kernel, lastMine: Holds, k: Kernel, mine: Holds, i: int, b: Node, h: Hold)
    requires InOrder(last, lastMine, k, mine) && 0 <= i < |k.nodes|
    requires Accounted(last.nodes[i], b, lastMine[i], h) && h.refs <= b.count && (h.locked ==> b.lock)
    requires Settled(k, b) && b.dirt == k.nodes[i].dirt && (b.dirt ==> b.body == k.nodes[i].body && NameOf(b) == NameOf(k.nodes[i]))
    requires b.dev != 0 ==> forall j :: 0 <= j < |k.nodes| && j != i ==> NameOf(k.nodes[j]) != NameOf(b)
    ensures InOrder(last, lastMine, k.(nodes := k.nodes[i := b]), mine[i := h])
  {
    hide Logical, Quiet;
    var k' := k.(nodes := k.nodes[i := b]);
    LemmaOneQuiet(last, k, k', i, b);
  }

  lemma LemmaOneQuiet(last: Kernel, k: Kernel, k': Kernel, i: int, b: Node)
    requires Inv(k) && Quiet(last, k) && 0 <= i < |k.nodes| && k' == k.(nodes := k.nodes[i := b])
    requires Settled(k, b) && b.dirt == k.nodes[i].dirt && (b.dirt ==> b.body == k.nodes[i].body && NameOf(b) == NameOf(k.nodes[i]))
    requires b.dev != 0 ==> forall j :: 0 <= j < |k.nodes| && j != i ==> NameOf(k.nodes[j]) != NameOf(b)
    ensures Inv(k') && Quiet(last, k')
  {
    assert Inv(k');
    hide Inv, Logical;
    forall n: Name | n.0 != 0
      ensures Logical(k', n) == Logical(last, n)
    {
      LemmaLogical(k, n);
      LemmaLogical(k', n);
      assert forall j :: Changed(k', j, n) <==> Changed(k, j, n);
    }
  }

  // write_inode, once the block is there: the change goes to the disk.
  lemma LemmaWritten(last: Kernel, lastMine: Holds, k: Kernel, mine: Holds, i: int)
    requires InOrder(last, lastMine, k, mine) && 0 <= i < |k.nodes| && mine[i].locked && k.nodes[i].dirt && k.nodes[i].dev != 0
    requires lastMine[i].locked || !last.nodes[i].lock
    ensures var b := k.nodes[i];
      InOrder(last, lastMine, Kernel(k.nodes[i := b.(dirt := false, lock := false)], k.disk[NameOf(b) := b.body]), mine[i := mine[i].(locked := false)])
  {
    hide Logical, Quiet;
    var b := k.nodes[i];
    var k' := Kernel(k.nodes[i := b.(dirt := false, lock := false)], k.disk[NameOf(b) := b.body]);
    assert Accounted(last.nodes[i], b, lastMine[i], mine[i]);
    LemmaWrittenNames(k, i);
    LemmaWrittenQuiet(last, k, k', i);
  }

  lemma LemmaWrittenNames(k: Kernel, i: int)
    requires Inv(k) && 0 <= i < |k.nodes| && k.nodes[i].dev != 0
    ensures var b := k.nodes[i];
      && Inv(Kernel(k.nodes[i := b.(dirt := false, lock := false)], k.disk[NameOf(b) := b.body]))
      && forall j :: 0 <= j < |k.nodes| && j != i ==> NameOf(k.nodes[j]) != NameOf(b)
  {
    var b := k.nodes[i];
    var k' := Kernel(k.nodes[i := b.(dirt := false, lock := false)], k.disk[NameOf(b) := b.body]);
    assert forall j :: 0 <= j < |k.nodes| && j != i ==> NameOf(k.nodes[j]) != NameOf(b);
    forall j | 0 <= j < |k.nodes|
      ensures Settled(k', k'.nodes[j])
    {
      assert Settled(k, k.nodes[j]);
    }
  }

  lemma LemmaWrittenQuiet(last: Kernel, k: Kernel, k': Kernel, i: int)
    requires Inv(k) && Inv(k') && Quiet(last, k) && 0 <= i < |k.nodes| && k.nodes[i].dirt && k.nodes[i].dev != 0
    requires var b := k.nodes[i]; k' == Kernel(k.nodes[i := b.(dirt := false, lock := false)], k.disk[NameOf(b) := b.body])
    requires forall j :: 0 <= j < |k.nodes| && j != i ==> NameOf(k.nodes[j]) != NameOf(k.nodes[i])
    ensures Quiet(last, k')
  {
    hide Inv, Logical;
    forall n: Name | n.0 != 0
      ensures Logical(k', n) == Logical(last, n)
    {
      LemmaLogical(k, n);
      LemmaLogical(k', n);
      assert n != NameOf(k.nodes[i]) ==> forall j :: Changed(k', j, n) <==> Changed(k, j, n);
      assert Changed(k, i, NameOf(k.nodes[i]));
    }
  }

  // A task can only lock, and unlock, what others have not locked since it last woke up.
  lemma LemmaNotTheirs(last: Kernel, lastMine: Holds, k: Kernel, mine: Holds, i: int)
    requires InOrder(last, lastMine, k, mine) && 0 <= i < |k.nodes| && (mine[i].locked || !k.nodes[i].lock)
    ensures lastMine[i].locked || !last.nodes[i].lock
  {
    assert Accounted(last.nodes[i], k.nodes[i], lastMine[i], mine[i]);
  }

  ghost predicate Respects(others: (Kernel, Holds, nat) -> Kernel) {
    forall k, mine, t :: Inv(k) && Holding(k, mine) ==> Rely(k, others(k, mine, t), mine)
  }

  // Every inode but n is what it was.
  ghost predicate Besides(k: Kernel, k': Kernel, n: Name) {
    forall m: Name :: m.0 != 0 && m != n ==> Logical(k', m) == Logical(k, m)
  }

  // An inode number that the bitmap has as free is that of no entry.
  ghost predicate Unnamed(free: Kernel -> int, dev: int) {
    forall k, j :: Inv(k) && free(k) > 0 && 0 <= j < |k.nodes| ==> NameOf(k.nodes[j]) != (dev, free(k))
  }

  // How iput ends: with the count one less; with the entry of an inode without links cleared; with
  // free_inode's panic, as another task counts on it by now; with free_inode at an entry that
  // another task has locked by now, and so beside these rules.
  datatype Outcome = Dropped | Freed | InUse | Torn

  /** free_inode's memset of an entry that the task counts on once is what other tasks can live with
      exactly if nobody else counts on the entry and nobody has it locked. */
  lemma LemmaFreeKeeps(b: Node, m: Hold)
    requires b.dev != 0 && m == Hold(1, false)
    ensures Accounted(b, CLEARED, m, Hold(0, false)) <==> b.count == 1 && !b.lock
  {
  }

  /** If the entry is locked by another task, that one can no longer rely on what it locked. */
  lemma LemmaTorn(k: Kernel, mine: Holds, i: int)
    requires Inv(k) && Holding(k, mine) && 0 <= i < |k.nodes| && mine[i].locked
    ensures !Rely(k, k.(nodes := k.nodes[i := CLEARED]), mine)
  {
    assert !Respected(k.nodes[i], k.(nodes := k.nodes[i := CLEARED]).nodes[i], mine[i]);
  }

  // One entry, of an inode without links, that its last holder is deleting and that sync_inodes has
  // locked, to write it, while truncate slept.
  lemma LemmaTornBySync()
    ensures var k := Kernel([Node(3, 7, 1, true, true, false, 0)], map[]);
      var sync, deleter := [Hold(0, true)], [Hold(1, false)];
      && Inv(k) && Holding(k, sync) && Holding(k, deleter) && Compatible(k, sync, deleter)
      && !Rely(k, k.(nodes := [CLEARED]), sync)
  {
    var k := Kernel([Node(3, 7, 1, true, true, false, 0)], map[]);
    LemmaTorn(k, [Hold(0, true)], 0);
    assert k.nodes[0 := CLEARED] == [CLEARED];
  }

  /** inode_table, as one task sees it; cached tells whether a bread finds its block in the cache, by
      how often the task will still be woken. */
  class Inodes {
    const node: array<Node>
    const others: (Kernel, Holds, nat) -> Kernel
    const cached: nat -> bool
    const linked: int -> bool  // whether an inode with that content has links
    var disk: map<Name, int>
    var lastInode: int
    var patience: nat
    var mine: Holds
    ghost var last: Kernel
    ghost var lastMine: Holds

    // The table at boot.
    constructor (n: nat, disk: map<Name, int>, others: (Kernel, Holds, nat) -> Kernel, cached: nat -> bool, linked: int -> bool, patience: nat)
      requires n > 0 && Respects(others)
      ensures Valid() && node.Length == n && this.disk == disk && mine == seq(n, _ => Hold(0, false))
    {
      node := new Node[n](_ => CLEARED);
      this.disk, this.others, this.cached, this.linked, this.patience := disk, others, cached, linked, patience;
      mine, lastInode := seq(n, _ => Hold(0, false)), 0;
      new;
      last, lastMine := View(), mine;
    }

    ghost function View(): Kernel
      reads this, node
    {
      Kernel(node[..], disk)
    }

    ghost predicate Valid()
      reads this, node
    {
      Respects(others) && 0 <= lastInode < node.Length && InOrder(last, lastMine, View(), mine)
    }

    method Sleep()
      requires Valid() && patience > 0
      modifies this, node
      ensures Valid() && patience == old(patience) - 1 && mine == old(mine)
      ensures Rely(old(View()), View(), mine)
    {
      var k := Kernel(node[..], disk);
      var k' := others(k, mine, patience);
      assert Rely(k, k', mine);
      forall i | 0 <= i < node.Length { node[i] := k'.nodes[i]; }
      disk, patience := k'.disk, patience - 1;
      assert View() == k';
      last, lastMine := k', mine;
    }

    twostate predicate SameTime()
      reads this, node
    {
      patience == old(patience) && View() == old(View()) && mine == old(mine) && last == old(last) && lastMine == old(lastMine)
    }

    method WaitOnInode(i: int) returns (awake: bool)
      requires Valid() && 0 <= i < node.Length && !mine[i].locked
      modifies this, node
      ensures Valid() && mine == old(mine) && patience <= old(patience) && Rely(old(View()), View(), mine)
      ensures patience == old(patience) ==> SameTime()
      ensures (if awake then !node[i].lock else patience == 0) && (!old(node[i].lock) ==> awake && patience == old(patience))
    {
      hide InOrder, Respects;
      LemmaRelySelf(last, lastMine, View(), mine);
      awake := true;
      while node[i].lock
        invariant Valid() && mine == old(mine) && patience <= old(patience) && Rely(old(View()), View(), mine)
        invariant patience == old(patience) ==> SameTime()
        invariant !old(node[i].lock) ==> patience == old(patience)
        decreases patience
      {
        if patience == 0 {
          return false;
        }
        ghost var k := View();
        Sleep();
        LemmaRelyTwice(old(View()), k, View(), mine);
      }
    }

    // The wait for a block of inodes.
    method Bread() returns (awake: bool)
      requires Valid()
      modifies this, node
      ensures Valid() && mine == old(mine) && patience <= old(patience) && Rely(old(View()), View(), mine)
      ensures (patience == old(patience) ==> SameTime()) && (!awake ==> patience == 0)
    {
      hide InOrder, Respects;
      LemmaRelySelf(last, lastMine, View(), mine);
      if cached(patience) {
        return true;
      }
      if patience == 0 {
        return false;
      }
      Sleep();
      awake := true;
    }

    // Taking the lock of a changed or fresh entry, with its new contents b.
    method SetLocked(i: int, b: Node)
      requires Valid() && 0 <= i < node.Length && !mine[i].locked && !node[i].lock && b.lock
      requires b == node[i].(dev := b.dev, num := b.num, lock := true)
      requires if NameOf(b) == NameOf(node[i]) then b.dev != 0 && (b.dirt || mine[i].refs > 0)
        else mine[i].refs == node[i].count > 0 && node[i].dev == 0 && !b.dirt && !b.pipe && forall j :: 0 <= j < node.Length ==> NameOf(node[j]) != NameOf(b)
      modifies this`mine, node
      ensures Valid() && mine == old(mine)[i := old(mine)[i].(locked := true)] && View() == old(View()).(nodes := old(node[..])[i := b])
    {
      hide Settled, Quiet;
      ghost var k := View();
      var h := mine[i].(locked := true);
      LemmaLocking(last, lastMine, k, mine, i, b);
      node[i] := b;
      mine := mine[i := h];
      assert View() == k.(nodes := k.nodes[i := b]);
    }

    // write_inode.
    method WriteInode(i: int) returns (awake: bool)
      requires Valid() && 0 <= i < node.Length && !mine[i].locked
      modifies this, node
      ensures Valid() && patience <= old(patience) && Rely(old(View()), View(), old(mine)) && (if awake then mine == old(mine) else patience == 0)
      ensures awake ==> !node[i].dirt
      ensures awake && patience == old(patience) ==> node[i].count == old(node[i].count) && node[i].body == old(node[i].body)
    {
      hide InOrder, Respects, Settled;
      awake := WaitOnInode(i);
      LemmaClean(last, lastMine, View(), mine, i);
      if !awake || !node[i].dirt || node[i].dev == 0 {
        return;
      }
      ghost var k, was := View(), mine;
      SetLocked(i, node[i].(lock := true));
      awake := Bread();
      ghost var k1 := View();
      LemmaWhileLocked(k, was, k1, i);
      if !awake {
        LemmaRelyAround(old(View()), k, was, k1, i, k1);
        return;
      }
      LemmaNotTheirs(last, lastMine, View(), mine, i);
      LemmaWritten(last, lastMine, View(), mine, i);
      var b := node[i];
      disk := disk[(b.dev, b.num) := b.body];
      node[i] := b.(dirt := false, lock := false);
      mine := mine[i := mine[i].(locked := false)];
      assert mine == was;
      LemmaRelySelf(last, lastMine, View(), mine);
      LemmaRelyAround(old(View()), k, was, k1, i, View());
    }

    // The scan of get_empty_inode: an entry nobody counts on; -1 if there is none.
    method FindUnused() returns (i: int)
      requires node.Length > 0 && 0 <= lastInode < node.Length
      modifies this`lastInode
      ensures 0 <= lastInode < node.Length && -1 <= i < node.Length
      ensures if i >= 0 then node[i].count == 0 else forall k :: 0 <= k < node.Length ==> node[k].count != 0
    {
      ghost var start := lastInode;
      i := -1;
      for n := 0 to node.Length
        invariant 0 <= lastInode < node.Length && lastInode == Around(start, n, node.Length)
        invariant -1 <= i < node.Length && (i >= 0 ==> node[i].count == 0)
        invariant i == -1 ==> forall d :: 1 <= d <= n ==> node[Around(start, d, node.Length)].count != 0
      {
        lastInode := lastInode + 1;
        if lastInode >= node.Length {
          lastInode := 0;
        }
        if node[lastInode].count == 0 {
          i := lastInode;
          if !node[i].dirt && !node[i].lock {
            return;
          }
        }
      }
      if i == -1 {
        forall k | 0 <= k < node.Length ensures node[k].count != 0 {
          var d := LemmaReach(start, node.Length, k);
        }
      }
    }

    // Every entry is counted on.
    predicate Full()
      reads this, node
    {
      forall k :: 0 <= k < node.Length ==> node[k].count != 0
    }

    /** get_empty_inode: an entry that nobody counts on, with no change that is not on disk and nobody
        at work on it, cleared and now counted; i is -1 on the panic. */
    method GetEmptyInode() returns (i: int, awake: bool)
      requires Valid() && NoLocks(mine)
      modifies this, node
      ensures Valid() && patience <= old(patience) && -1 <= i < node.Length && (!awake ==> patience == 0)
      ensures awake && i == -1 ==> Full() && (patience == old(patience) ==> old(Full()))
      ensures awake && i >= 0 ==>
        && node[i] == CLEARED.(count := 1) && |old(mine)| == node.Length && old(mine)[i] == Hold(0, false)
        && mine == old(mine)[i := Hold(1, false)] && NoLocks(mine)
    {
      hide InOrder, Respects;
      LemmaClean(last, lastMine, View(), mine, lastInode);
      i, awake := -1, true;
      while true
        invariant Valid() && mine == old(mine) && patience <= old(patience) && |mine| == node.Length
        invariant patience == old(patience) ==> node[..] == old(node[..])
        decreases patience
      {
        i := FindUnused();
        if i == -1 {
          return;
        }
        ghost var before := patience;
        awake := WaitOnInode(i);
        while awake && node[i].dirt
          invariant Valid() && patience <= before && (if awake then mine == old(mine) && !node[i].lock else patience == 0)
          invariant awake && patience == before ==> node[i].count == 0
          decreases awake, patience, node[i].dirt
        {
          awake := WriteInode(i);
          if awake {
            awake := WaitOnInode(i);
          }
        }
        if !awake {
          return;
        }
        if node[i].count == 0 {
          break;
        }
      }
      LemmaClean(last, lastMine, View(), mine, i);
      LemmaTaken(last, lastMine, View(), mine, i);
      ghost var k := View();
      node[i] := CLEARED.(count := 1);
      mine := mine[i := Hold(1, false)];
      assert View() == k.(nodes := k.nodes[i := CLEARED.(count := 1)]);
    }

    // i_count--, of an entry nobody has locked.
    method DropRef(i: int)
      requires Valid() && 0 <= i < node.Length && i < |mine| && mine[i].refs > 0 && !mine[i].locked && !node[i].lock
      modifies this`mine, node
      ensures Valid() && mine == old(mine)[i := old(mine)[i].(refs := old(mine)[i].refs - 1)]
      ensures View() == old(View()).(nodes := old(node[..])[i := old(node[i]).(count := old(node[i]).count - 1)])
    {
      hide InOrder, Respects;
      ghost var k := View();
      var b := node[i].(count := node[i].count - 1);
      var h := mine[i].(refs := mine[i].refs - 1);
      LemmaDropped(last, lastMine, k, mine, i);
      node[i] := b;
      mine := mine[i := h];
      assert View() == k.(nodes := k.nodes[i := b]);
    }

    /** iput of an entry this task counts on: the count goes down once and the panic about a free inode
        cannot come; the last one out has written the entry, or, of an inode without links, has
        cleared it, unless somebody came in or locked it while its blocks were freed. */
    method IPut(i: int, block: bool) returns (r: Outcome, awake: bool)
      requires Valid() && 0 <= i < node.Length && i < |mine| && mine[i].refs > 0 && NoLocks(mine)
      modifies this, node
      ensures Valid() && patience <= old(patience) && (!awake ==> patience == 0)
      ensures awake && (r == Dropped || r == Freed) ==>
        mine == old(mine)[i := Hold(old(mine)[i].refs - 1, false)] && !node[i].lock && (node[i].count == 0 ==> !node[i].dirt)
      ensures awake && r == Freed ==> node[i] == CLEARED
      ensures awake && r != Dropped && patience == old(patience) ==> r == Freed && old(node[i].count) == 1 && !linked(old(node[i].body))
      ensures awake && r == Dropped && node[i].count == 0 ==> linked(node[i].body) || (node[i].dev == 0 && !node[i].pipe)
      ensures awake && r == InUse ==> mine == old(mine) && node[i].count > 1 && node[i].dev != 0
      ensures awake && r == Torn ==> mine == old(mine) && node[i].count == 1 && node[i].lock && node[i].dev != 0
    {
      hide InOrder, Respects;
      r := Dropped;
      awake := WaitOnInode(i);
      if !awake {
        return;
      }
      LemmaClean(last, lastMine, View(), mine, i);
      assert node[i].count > 0;
      if node[i].pipe || node[i].dev == 0 {
        DropRef(i);
        if node[i].pipe && node[i].count == 0 {
          FreePipe(i);
        }
        return;
      }
      r, awake := PutNamed(i, block);
    }

    // iput of an inode that has a device.
    method PutNamed(i: int, block: bool) returns (r: Outcome, awake: bool)
      requires Valid() && 0 <= i < node.Length && i < |mine| && mine[i].refs > 0 && NoLocks(mine) && node[i].dev != 0 && !node[i].lock
      modifies this, node
      ensures Valid() && patience <= old(patience) && (!awake ==> patience == 0)
      ensures awake && (r == Dropped || r == Freed) ==>
        mine == old(mine)[i := Hold(old(mine)[i].refs - 1, false)] && !node[i].lock && (node[i].count == 0 ==> !node[i].dirt)
      ensures awake && r == Freed ==> node[i] == CLEARED
      ensures awake && r != Dropped && patience == old(patience) ==> r == Freed && old(node[i].count) == 1 && !linked(old(node[i].body))
      ensures awake && r == Dropped && node[i].count == 0 ==> linked(node[i].body)
      ensures awake && r == InUse ==> mine == old(mine) && node[i].count > 1 && node[i].dev != 0
      ensures awake && r == Torn ==> mine == old(mine) && node[i].count == 1 && node[i].lock && node[i].dev != 0
    {
      hide InOrder, Respects;
      r, awake := Dropped, true;
      if block {
        awake := SyncAndWait(i);
      }
      while awake && node[i].count == 1 && linked(node[i].body) && node[i].dirt
        invariant Valid() && patience <= old(patience) && (if awake then mine == old(mine) && !node[i].lock && node[i].dev != 0 else patience == 0)
        invariant awake && patience == old(patience) ==> node[i].count == old(node[i].count) && node[i].body == old(node[i].body)
        decreases awake, patience, node[i].dirt
      {
        awake := WriteAndWait(i);
      }
      if !awake {
        return;
      }
      LemmaClean(last, lastMine, View(), mine, i);
      if node[i].count > 1 || linked(node[i].body) {
        DropRef(i);
        return;
      }
      r, awake := Delete(i);
    }

    // sync_dev of a block device and the wait after it.
    method SyncAndWait(i: int) returns (awake: bool)
      requires Valid() && 0 <= i < node.Length && i < |mine| && mine[i].refs > 0 && !mine[i].locked && node[i].dev != 0
      modifies this, node
      ensures Valid() && patience <= old(patience) && (!awake ==> patience == 0)
      ensures awake ==> mine == old(mine) && !node[i].lock && node[i].dev != 0
      ensures awake && patience == old(patience) ==> node[i] == old(node[i])
    {
      hide InOrder, Respects;
      ghost var k := View();
      awake := Bread();
      LemmaStillNamed(k, View(), mine, i);
      if awake {
        ghost var k1 := View();
        awake := WaitOnInode(i);
        LemmaStillNamed(k1, View(), mine, i);
      }
    }

    // write_inode and the wait after it.
    method WriteAndWait(i: int) returns (awake: bool)
      requires Valid() && 0 <= i < node.Length && i < |mine| && mine[i].refs > 0 && !mine[i].locked && node[i].dev != 0 && node[i].dirt
      modifies this, node
      ensures Valid() && patience <= old(patience) && (!awake ==> patience == 0)
      ensures awake ==> mine == old(mine) && !node[i].lock && node[i].dev != 0 && (patience == old(patience) ==> !node[i].dirt)
      ensures awake && patience == old(patience) ==> node[i].count == old(node[i].count) && node[i].body == old(node[i].body)
    {
      hide InOrder, Respects;
      ghost var k, held := View(), mine;
      awake := WriteInode(i);
      LemmaStillNamed(k, View(), held, i);
      if awake {
        ghost var k1 := View();
        awake := WaitOnInode(i);
        LemmaStillNamed(k1, View(), held, i);
      }
    }

    // truncate and free_inode, for the last one out of an inode without links.
    method Delete(i: int) returns (r: Outcome, awake: bool)
      requires Valid() && 0 <= i < node.Length && i < |mine| && mine[i] == Hold(1, false) && node[i].dev != 0
      requires node[i].count == 1 && !node[i].lock
      modifies this, node
      ensures Valid() && patience <= old(patience) && (!awake ==> patience == 0)
      ensures awake ==> r == Freed || r == InUse || r == Torn
      ensures awake && r != Freed ==> patience < old(patience)
      ensures awake && r == Freed ==> mine == old(mine)[i := Hold(0, false)] && node[i] == CLEARED
      ensures awake && r == InUse ==> mine == old(mine) && node[i].count > 1 && node[i].dev != 0
      ensures awake && r == Torn ==> mine == old(mine) && node[i].count == 1 && node[i].lock && node[i].dev != 0
    {
      hide InOrder, Respects;
      ghost var k := View();
      r := Freed;
      awake := Bread();
      LemmaStillNamed(k, View(), mine, i);
      LemmaClean(last, lastMine, View(), mine, i);
      if !awake {
        return;
      }
      if node[i].count > 1 {
        r := InUse;
      } else if node[i].lock {
        r := Torn;
      } else {
        FreeInode(i);
      }
    }

    /** free_inode's memset: the entry loses its name and is nobody's.  It is in order beside other tasks,
        and every other inode is what it was. */
    method FreeInode(i: int)
      requires Valid() && 0 <= i < node.Length && i < |mine| && mine[i] == Hold(1, false)
      requires node[i].count == 1 && !node[i].lock && node[i].dev != 0
      modifies this`mine, this`last, this`lastMine, node
      ensures Valid() && mine == old(mine)[i := Hold(0, false)] && View() == old(View()).(nodes := old(node[..])[i := CLEARED])
      ensures Guarantee(old(View()), View(), old(mine), mine) && Besides(old(View()), View(), old(NameOf(node[i])))
    {
      hide InOrder, Respects, Inv, Logical, Accounted;
      ghost var k := View();
      LemmaForgotten(last, lastMine, k, mine, i);
      node[i] := CLEARED;
      mine := mine[i := Hold(0, false)];
      assert View() == k.(nodes := k.nodes[i := CLEARED]);
      last, lastMine := View(), mine;
    }

    /** new_inode, for a device whose first free inode number is free(k), 0 for none: the entry is
        the only one of that name, changed, and counted once. */
    method NewInode(dev: int, free: Kernel -> int, content: int) returns (i: int, awake: bool)
      requires Valid() && NoLocks(mine) && dev != 0 && Unnamed(free, dev)
      modifies this, node
      ensures Valid() && patience <= old(patience) && -1 <= i < node.Length && (!awake ==> patience == 0)
      ensures awake && i == -1 && !Full() ==>
        exists c :: 0 <= c < node.Length && node[c] == CLEARED && free(Kernel(node[..][c := CLEARED.(count := 1)], disk)) <= 0
      ensures awake && i >= 0 ==>
        && node[i].dev == dev && node[i].count == 1 && node[i].dirt && Logical(View(), NameOf(node[i])) == content
        && i < |mine| && mine[i] == Hold(1, false) && forall j :: 0 <= j < node.Length && j != i ==> NameOf(node[j]) != NameOf(node[i])
    {
      hide InOrder, Respects, Logical;
      i, awake := GetEmptyInode();
      if !awake || i == -1 {
        return;
      }
      LemmaClean(last, lastMine, View(), mine, i);
      var nr := free(Kernel(node[..], disk));
      if nr <= 0 {
        ghost var was := node[..];
        awake := WaitOnInode(i);
        DropRef(i);
        assert node[i] == CLEARED && node[..][i := CLEARED.(count := 1)] == was;
        i := -1;
        return;
      }
      assert Inv(View()) by {
        LemmaRelySelf(last, lastMine, View(), mine);
      }
      SetNew(i, dev, nr, content);
      LemmaOnly(last, lastMine, View(), mine, i);
    }

    // The last lines of new_inode.
    method SetNew(i: int, dev: int, nr: int, content: int)
      requires Valid() && 0 <= i < node.Length && i < |mine| && mine[i] == Hold(1, false) && node[i] == CLEARED.(count := 1) && dev != 0
      requires forall j :: 0 <= j < node.Length ==> NameOf(node[j]) != (dev, nr)
      modifies this`last, this`lastMine, node
      ensures Valid() && View() == old(View()).(nodes := old(node[..])[i := Node(dev, nr, 1, false, true, false, content)])
      ensures Guarantee(old(View()), View(), mine, mine) && Besides(old(View()), View(), (dev, nr)) && Logical(View(), (dev, nr)) == content
    {
      hide InOrder, Respects, Inv, Logical, Accounted;
      ghost var k := View();
      LemmaNamed(last, lastMine, k, mine, i, dev, nr, content);
      node[i] := Node(dev, nr, 1, false, true, false, content);
      assert View() == k.(nodes := k.nodes[i := node[i]]);
      last, lastMine := View(), mine;
    }

    // The page of a pipe is freed, and the entry is no pipe any more.
    method FreePipe(i: int)
      requires Valid() && 0 <= i < node.Length && i < |mine| && mine[i] == Hold(0, false)
      requires node[i].pipe && node[i].count == 0 && !node[i].lock
      modifies node
      ensures Valid() && View() == old(View()).(nodes := old(node[..])[i := old(node[i]).(dirt := false, pipe := false)])
    {
      hide InOrder, Respects;
      ghost var k := View();
      var b := node[i].(dirt := false, pipe := false);
      LemmaFreed(last, lastMine, k, mine, i, b);
      node[i] := b;
      assert View() == k.(nodes := k.nodes[i := b]);
    }

    // The end of iget and read_inode: the fresh entry i becomes inode nr of dev, and is read.
    method ReadInode(i: int, dev: int, nr: int) returns (awake: bool)
      requires Valid() && 0 <= i < node.Length && NoLocks(mine) && i < |mine| && mine[i].refs == 1 && dev != 0
      requires node[i] == CLEARED.(count := 1) && forall j :: 0 <= j < node.Length ==> NameOf(node[j]) != (dev, nr)
      modifies this, node
      ensures Valid() && patience <= old(patience) && (!awake ==> patience == 0)
      ensures awake ==> mine == old(mine) && node[i] == Node(dev, nr, 1, false, false, false, OnDisk(View(), (dev, nr)))
    {
      hide InOrder, Respects;
      LemmaClean(last, lastMine, View(), mine, i);
      SetLocked(i, node[i].(dev := dev, num := nr, lock := true));
      ghost var k := View();
      awake := Bread();
      assert Respected(k.nodes[i], node[i], mine[i]);
      if !awake {
        return;
      }
      LemmaLoaded(last, lastMine, View(), mine, i);
      ghost var k1 := View();
      var b := node[i].(body := OnDisk(Kernel(node[..], disk), (dev, nr)), lock := false);
      node[i] := b;
      mine := mine[i := mine[i].(locked := false)];
      assert View() == k1.(nodes := k1.nodes[i := b]);
      assert mine == old(mine);
    }

    /** iget, for an inode nothing is mounted on: the one entry of that name, counted once more, and
        nobody at work on it; i is -1 on the panic about a full table. */
    method IGet(dev: int, nr: int) returns (i: int, awake: bool)
      requires Valid() && NoLocks(mine) && dev != 0
      modifies this, node
      ensures Valid() && patience <= old(patience) && -1 <= i < node.Length && (!awake ==> patience == 0)
      ensures awake && i == -1 ==> Full() && (patience == old(patience) ==> old(Full()))
      ensures awake && i >= 0 ==>
        && NameOf(node[i]) == (dev, nr) && !node[i].lock && NoLocks(mine) && |old(mine)| == node.Length
        && mine == old(mine)[i := Hold(old(mine)[i].refs + 1, false)]
        && forall j :: 0 <= j < node.Length && j != i ==> NameOf(node[j]) != (dev, nr)
    {
      hide InOrder, Respects;
      var empty;
      empty, awake := GetEmptyInode();
      i := -1;
      if !awake || empty == -1 {
        return;
      }
      LemmaClean(last, lastMine, View(), mine, empty);
      var inode := 0;
      ghost var held := mine;
      while inode < node.Length
        invariant Valid() && mine == held && patience <= old(patience) && 0 <= inode <= node.Length
        invariant node[empty] == CLEARED.(count := 1) && mine[empty] == Hold(1, false)
        invariant forall j :: 0 <= j < inode ==> NameOf(node[j]) != (dev, nr)
        decreases patience, node.Length - inode
      {
        if node[inode].dev != dev || node[inode].num != nr {
          inode := inode + 1;
          continue;
        }
        ghost var k := View();
        awake := WaitOnInode(inode);
        assert Respected(k.nodes[empty], node[empty], mine[empty]);
        if !awake {
          return;
        }
        if node[inode].dev != dev || node[inode].num != nr {
          inode := 0;
          continue;
        }
        AddRef(inode);
        assert node[empty] == CLEARED.(count := 1);
        awake := GiveBack(empty, inode);
        i := inode;
        if awake {
          LemmaOnly(last, lastMine, View(), mine, i);
        }
        return;
      }
      awake := ReadInode(empty, dev, nr);
      i := empty;
      if awake {
        LemmaOnly(last, lastMine, View(), mine, i);
      }
    }

    // i_count++, of a named entry nobody has locked.
    method AddRef(i: int)
      requires Valid() && 0 <= i < node.Length && i < |mine| && !mine[i].locked && !node[i].lock && node[i].dev != 0
      modifies this`mine, node
      ensures Valid() && mine == old(mine)[i := old(mine)[i].(refs := old(mine)[i].refs + 1)]
      ensures View() == old(View()).(nodes := old(node[..])[i := old(node[i]).(count := old(node[i]).count + 1)])
    {
      hide InOrder, Respects;
      ghost var k := View();
      var b := node[i].(count := node[i].count + 1);
      var h := mine[i].(refs := mine[i].refs + 1);
      LemmaAdded(last, lastMine, k, mine, i);
      node[i] := b;
      mine := mine[i := h];
      assert View() == k.(nodes := k.nodes[i := b]);
    }

    /** copy_process's i_count++ of an entry the task counts on, without a wait for its lock: that keeps
        the rules, though another task may have it locked. */
    method Share(i: int)
      requires Valid() && 0 <= i < node.Length && i < |mine| && mine[i].refs > 0
      modifies this`mine, node
      ensures Valid() && mine == old(mine)[i := old(mine)[i].(refs := old(mine)[i].refs + 1)]
      ensures View() == old(View()).(nodes := old(node[..])[i := old(node[i]).(count := old(node[i]).count + 1)])
    {
      hide InOrder, Respects;
      ghost var k := View();
      var b := node[i].(count := node[i].count + 1);
      var h := mine[i].(refs := mine[i].refs + 1);
      LemmaShared(last, lastMine, k, mine, i);
      node[i] := b;
      mine := mine[i := h];
      assert View() == k.(nodes := k.nodes[i := b]);
    }

    // iput of the entry iget did not need, which has no device; keep is the one it found.
    method GiveBack(empty: int, keep: int) returns (awake: bool)
      requires Valid() && NoLocks(mine) && 0 <= empty < node.Length && 0 <= keep < node.Length && keep != empty
      requires empty < |mine| && mine[empty].refs == 1 && node[empty] == CLEARED.(count := 1)
      requires keep < |mine| && mine[keep].refs > 0 && !node[keep].lock
      modifies this, node
      ensures Valid() && patience <= old(patience) && awake && NoLocks(mine)
      ensures mine == old(mine)[empty := Hold(0, false)] && node[keep] == old(node[keep])
    {
      hide InOrder, Respects;
      awake := WaitOnInode(empty);
      DropRef(empty);
    }
  }

  predicate NoLocks(mine: Holds) {
    forall i :: 0 <= i < |mine| ==> !mine[i].locked
  }

  // d entries on from start.
  function Around(start: int, d: int, n: int): (i: int)
    requires 0 <= start < n && 0 <= d <= n
    ensures 0 <= i < n
  {
    if start + d < n then start + d else start + d - n
  }

  // Every entry is some way on from start.
  lemma LemmaReach(start: int, n: int, k: int) returns (d: int)
    requires 0 <= start < n && 0 <= k < n
    ensures 1 <= d <= n && Around(start, d, n) == k
  {
    d := if k > start then k - start else k - start + n;
  }

  lemma LemmaDropped(last: Kernel, lastMine: Holds, k: Kernel, mine: Holds, i: int)
    requires InOrder(last, lastMine, k, mine) && 0 <= i < |k.nodes| && mine[i].refs > 0 && !mine[i].locked && !k.nodes[i].lock
    ensures InOrder(last, lastMine, k.(nodes := k.nodes[i := k.nodes[i].(count := k.nodes[i].count - 1)]), mine[i := mine[i].(refs := mine[i].refs - 1)])
  {
    assert Accounted(last.nodes[i], k.nodes[i], lastMine[i], mine[i]) && Settled(k, k.nodes[i]);
    LemmaOneEntry(last, lastMine, k, mine, i, k.nodes[i].(count := k.nodes[i].count - 1), mine[i].(refs := mine[i].refs - 1));
  }

  lemma LemmaFreed(last: Kernel, lastMine: Holds, k: Kernel, mine: Holds, i: int, b: Node)
    requires InOrder(last, lastMine, k, mine) && 0 <= i < |k.nodes| && mine[i] == Hold(0, false)
    requires k.nodes[i].pipe && k.nodes[i].count == 0 && !k.nodes[i].lock && b == k.nodes[i].(dirt := false, pipe := false)
    ensures InOrder(last, lastMine, k.(nodes := k.nodes[i := b]), mine)
  {
    assert Accounted(last.nodes[i], k.nodes[i], lastMine[i], mine[i]) && Settled(k, k.nodes[i]);
    LemmaOneEntry(last, lastMine, k, mine, i, b, mine[i]);
    assert mine[i := mine[i]] == mine;
  }

  lemma LemmaShared(last: Kernel, lastMine: Holds, k: Kernel, mine: Holds, i: int)
    requires InOrder(last, lastMine, k, mine) && 0 <= i < |k.nodes| && mine[i].refs > 0
    ensures InOrder(last, lastMine, k.(nodes := k.nodes[i := k.nodes[i].(count := k.nodes[i].count + 1)]), mine[i := mine[i].(refs := mine[i].refs + 1)])
  {
    assert Accounted(last.nodes[i], k.nodes[i], lastMine[i], mine[i]) && Settled(k, k.nodes[i]);
    assert Accounted(last.nodes[i], k.nodes[i].(count := k.nodes[i].count + 1), lastMine[i], mine[i].(refs := mine[i].refs + 1));
    LemmaOneEntry(last, lastMine, k, mine, i, k.nodes[i].(count := k.nodes[i].count + 1), mine[i].(refs := mine[i].refs + 1));
  }

  // No entry that a task holds loses its name.
  lemma LemmaStillNamed(k: Kernel, k': Kernel, mine: Holds, i: int)
    requires Rely(k, k', mine) && 0 <= i < |k.nodes| && mine[i].refs > 0
    ensures NameOf(k'.nodes[i]) == NameOf(k.nodes[i])
  {
    hide Inv;
    assert Respected(k.nodes[i], k'.nodes[i], mine[i]);
  }

  lemma LemmaForgotten(last: Kernel, lastMine: Holds, k: Kernel, mine: Holds, i: int)
    requires InOrder(last, lastMine, k, mine) && 0 <= i < |k.nodes|
    requires mine[i] == Hold(1, false) && k.nodes[i].count == 1 && !k.nodes[i].lock && k.nodes[i].dev != 0
    ensures var k', mine' := k.(nodes := k.nodes[i := CLEARED]), mine[i := Hold(0, false)];
      InOrder(k', mine', k', mine') && Guarantee(k, k', mine, mine') && Besides(k, k', NameOf(k.nodes[i]))
  {
    LemmaReplaced(k, mine, i, CLEARED, Hold(0, false));
    var k' := k.(nodes := k.nodes[i := CLEARED]);
    forall m: Name | m.0 != 0 && m != NameOf(k.nodes[i])
      ensures Logical(k', m) == Logical(k, m)
    {
      LemmaLogical(k, m);
      LemmaLogical(k', m);
      assert forall j :: Changed(k', j, m) <==> Changed(k, j, m);
    }
  }

  lemma LemmaNamed(last: Kernel, lastMine: Holds, k: Kernel, mine: Holds, i: int, dev: int, nr: int, content: int)
    requires InOrder(last, lastMine, k, mine) && 0 <= i < |k.nodes|
    requires mine[i] == Hold(1, false) && k.nodes[i] == CLEARED.(count := 1) && dev != 0
    requires forall j :: 0 <= j < |k.nodes| ==> NameOf(k.nodes[j]) != (dev, nr)
    ensures var k' := k.(nodes := k.nodes[i := Node(dev, nr, 1, false, true, false, content)]);
      InOrder(k', mine, k', mine) && Guarantee(k, k', mine, mine) && Besides(k, k', (dev, nr)) && Logical(k', (dev, nr)) == content
  {
    var b := Node(dev, nr, 1, false, true, false, content);
    LemmaReplaced(k, mine, i, b, mine[i]);
    assert mine[i := mine[i]] == mine;
    var k' := k.(nodes := k.nodes[i := b]);
    forall m: Name | m.0 != 0 && m != (dev, nr)
      ensures Logical(k', m) == Logical(k, m)
    {
      LemmaLogical(k, m);
      LemmaLogical(k', m);
      assert forall j :: Changed(k', j, m) <==> Changed(k, j, m);
    }
    LemmaLogical(k', (dev, nr));
    assert Changed(k', i, (dev, nr));
  }

  // One entry is replaced, in a step that accounts for it and keeps the names apart.
  lemma LemmaReplaced(k: Kernel, mine: Holds, i: int, b: Node, h: Hold)
    requires Inv(k) && Holding(k, mine) && 0 <= i < |k.nodes| && Accounted(k.nodes[i], b, mine[i], h)
    requires h.refs <= b.count && Settled(k, b)
    requires b.dev != 0 ==> forall j :: 0 <= j < |k.nodes| && j != i ==> NameOf(k.nodes[j]) != NameOf(b)
    ensures var k', mine' := k.(nodes := k.nodes[i := b]), mine[i := h];
      InOrder(k', mine', k', mine') && Guarantee(k, k', mine, mine')
  {
    var k' := k.(nodes := k.nodes[i := b]);
    assert Inv(k');
    assert Quiet(k', k');
  }

  lemma LemmaAdded(last: Kernel, lastMine: Holds, k: Kernel, mine: Holds, i: int)
    requires InOrder(last, lastMine, k, mine) && 0 <= i < |k.nodes| && !mine[i].locked && !k.nodes[i].lock && k.nodes[i].dev != 0
    ensures InOrder(last, lastMine, k.(nodes := k.nodes[i := k.nodes[i].(count := k.nodes[i].count + 1)]), mine[i := mine[i].(refs := mine[i].refs + 1)])
  {
    assert Accounted(last.nodes[i], k.nodes[i], lastMine[i], mine[i]) && Settled(k, k.nodes[i]);
    LemmaOneEntry(last, lastMine, k, mine, i, k.nodes[i].(count := k.nodes[i].count + 1), mine[i].(refs := mine[i].refs + 1));
  }

  lemma LemmaLoaded(last: Kernel, lastMine: Holds, k: Kernel, mine: Holds, i: int)
    requires InOrder(last, lastMine, k, mine) && 0 <= i < |k.nodes| && mine[i].locked && k.nodes[i].dev != 0 && !k.nodes[i].dirt
    ensures InOrder(last, lastMine, k.(nodes := k.nodes[i := k.nodes[i].(body := OnDisk(k, NameOf(k.nodes[i])), lock := false)]),
                    mine[i := mine[i].(locked := false)])
  {
    LemmaNotTheirs(last, lastMine, k, mine, i);
    assert Accounted(last.nodes[i], k.nodes[i], lastMine[i], mine[i]) && Settled(k, k.nodes[i]);
    LemmaOneEntry(last, lastMine, k, mine, i, k.nodes[i].(body := OnDisk(k, NameOf(k.nodes[i])), lock := false), mine[i].(locked := false));
  }

  // No other entry has the name of a named one.
  lemma LemmaOnly(last: Kernel, lastMine: Holds, k: Kernel, mine: Holds, i: int)
    requires InOrder(last, lastMine, k, mine) && 0 <= i < |k.nodes| && k.nodes[i].dev != 0
    ensures forall j :: 0 <= j < |k.nodes| && j != i ==> NameOf(k.nodes[j]) != NameOf(k.nodes[i])
  {
  }

  // get_empty_inode's last lines lose nothing.
  lemma LemmaTaken(last: Kernel, lastMine: Holds, k: Kernel, mine: Holds, i: int)
    requires InOrder(last, lastMine, k, mine) && 0 <= i < |k.nodes| && k.nodes[i].count == 0 && !k.nodes[i].dirt && !k.nodes[i].lock
    ensures InOrder(last, lastMine, k.(nodes := k.nodes[i := CLEARED.(count := 1)]), mine[i := Hold(1, false)])
  {
    assert Accounted(last.nodes[i], k.nodes[i], lastMine[i], mine[i]);
    LemmaOneEntry(last, lastMine, k, mine, i, CLEARED.(count := 1), Hold(1, false));
  }

  lemma LemmaRelySelf(last: Kernel, lastMine: Holds, k: Kernel, mine: Holds)
    requires InOrder(last, lastMine, k, mine)
    ensures Rely(k, k, mine)
  {
  }

  lemma LemmaRelyTwice(k: Kernel, k1: Kernel, k2: Kernel, mine: Holds)
    requires Rely(k, k1, mine) && Rely(k1, k2, mine)
    ensures Rely(k, k2, mine)
  {
    hide Inv;
    forall i | 0 <= i < |mine| ensures Respected(k.nodes[i], k2.nodes[i], mine[i]) {
      assert Respected(k.nodes[i], k1.nodes[i], mine[i]) && Respected(k1.nodes[i], k2.nodes[i], mine[i]);
    }
  }

  lemma LemmaLocking(last: Kernel, lastMine: Holds, k: Kernel, mine: Holds, i: int, b: Node)
    requires InOrder(last, lastMine, k, mine) && 0 <= i < |k.nodes| && !mine[i].locked && !k.nodes[i].lock && b.lock
    requires b == k.nodes[i].(dev := b.dev, num := b.num, lock := true)
    requires if NameOf(b) == NameOf(k.nodes[i]) then b.dev != 0 && (b.dirt || mine[i].refs > 0)
      else mine[i].refs == k.nodes[i].count > 0 && k.nodes[i].dev == 0 && !b.dirt && !b.pipe && forall j :: 0 <= j < |k.nodes| ==> NameOf(k.nodes[j]) != NameOf(b)
    ensures InOrder(last, lastMine, k.(nodes := k.nodes[i := b]), mine[i := mine[i].(locked := true)])
  {
    assert Accounted(last.nodes[i], k.nodes[i], lastMine[i], mine[i]) && Settled(k, k.nodes[i]);
    assert b.dev != 0 ==> forall j :: 0 <= j < |k.nodes| && j != i ==> NameOf(k.nodes[j]) != NameOf(b);
    LemmaOneEntry(last, lastMine, k, mine, i, b, mine[i].(locked := true));
  }

  lemma LemmaClean(last: Kernel, lastMine: Holds, k: Kernel, mine: Holds, i: int)
    requires InOrder(last, lastMine, k, mine) && 0 <= i < |k.nodes|
    ensures |mine| == |k.nodes| && k.nodes[i].count >= mine[i].refs && (k.nodes[i].dev == 0 ==> !k.nodes[i].dirt)
  {
    assert Settled(k, k.nodes[i]);
  }

  // What others leave of a changed entry while this task has it locked.
  lemma LemmaWhileLocked(k: Kernel, mine: Holds, k': Kernel, i: int)
    requires 0 <= i < |k.nodes| == |mine| && !mine[i].locked && k.nodes[i].dev != 0 && k.nodes[i].dirt
    requires Rely(k.(nodes := k.nodes[i := k.nodes[i].(lock := true)]), k', mine[i := mine[i].(locked := true)])
    ensures NameOf(k'.nodes[i]) == NameOf(k.nodes[i]) && k'.nodes[i].dirt && k'.nodes[i].lock
  {
    assert Respected(k.nodes[i].(lock := true), k'.nodes[i], mine[i].(locked := true));
  }

  // With what this task then does to the entry, from k0 on.
  lemma LemmaRelyAround(k0: Kernel, k: Kernel, mine: Holds, k': Kernel, i: int, k'': Kernel)
    requires Rely(k0, k, mine) && 0 <= i < |k.nodes| && !mine[i].locked && k.nodes[i].dev != 0 && k.nodes[i].dirt
    requires Rely(k.(nodes := k.nodes[i := k.nodes[i].(lock := true)]), k', mine[i := mine[i].(locked := true)])
    requires |k''.nodes| == |k'.nodes| == |k.nodes| && Inv(k'') && k''.nodes == k'.nodes[i := k'.nodes[i].(dirt := k''.nodes[i].dirt, lock := k''.nodes[i].lock)]
    ensures Rely(k0, k'', mine)
  {
    hide Inv;
    var k1 := k.(nodes := k.nodes[i := k.nodes[i].(lock := true)]);
    forall j | 0 <= j < |mine| ensures Respected(k0.nodes[j], k''.nodes[j], mine[j]) {
      assert Respected(k0.nodes[j], k.nodes[j], mine[j]);
      assert Respected(k1.nodes[j], k'.nodes[j], mine[i := mine[i].(locked := true)][j]);
    }
  }
}

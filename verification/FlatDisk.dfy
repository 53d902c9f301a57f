/** The buffer cache as a disk: whatever the tasks and the driver do, reading through the cache
    gives what was last written through it. */
module FlatDisk {
  import opened BufferIndex

  type Name = (Dev, Block)
  type Disk = map<Name, Data>

  datatype Store = Store(bufs: seq<Buf>, disk: Disk)

  function NameOf(b: Buf): Name { (b.dev, b.block) }

  function OnDisk(disk: Disk, n: Name): Data {
    if n in disk then disk[n] else []
  }

  // The flags of one buffer, and its bytes against the disk's.
  predicate Sane(b: Buf, disk: Disk) {
    && (b.io != NoRequest ==> b.lock && b.dev != 0)
    && (b.dirt ==> b.uptodate)
    && (b.io == Writing ==> b.uptodate)
    && (b.io == Reading ==> !b.uptodate)
    && ((b.uptodate && !b.dirt && b.io != Writing) || b.io == Moved ==> b.dirt || b.data == OnDisk(disk, NameOf(b)))
  }

  predicate Unique(bufs: seq<Buf>) {
    forall i, j :: 0 <= i < |bufs| && 0 <= j < |bufs| && i != j && bufs[i].dev != 0 ==> NameOf(bufs[i]) != NameOf(bufs[j])
  }

  predicate Coherent(s: Store) {
    Unique(s.bufs) && forall i :: 0 <= i < |s.bufs| ==> Sane(s.bufs[i], s.disk)
  }

  predicate Caches(s: Store, i: int, n: Name) {
    0 <= i < |s.bufs| && NameOf(s.bufs[i]) == n && s.bufs[i].uptodate
  }

  // The content of block n: its up-to-date buffer if there is one, else the disk.
  ghost function Logical(s: Store, n: Name): Data {
    if exists i :: Caches(s, i, n) then var i :| Caches(s, i, n); s.bufs[i].data else OnDisk(s.disk, n)
  }

  lemma LemmaLogical(s: Store, i: int, n: Name)
    requires Unique(s.bufs) && n.0 != 0 && Caches(s, i, n)
    ensures Logical(s, n) == s.bufs[i].data
  {
  }

  // What tasks and the driver do to one buffer between two points where the task can be switched.
  datatype Step =
    | Hold(i: int)                          // b_count++
    | Drop(i: int)                          // b_count--
    | Take(i: int, n: Name)                 // getblk's last lines: the buffer gets a new name
    | Lock(i: int)                          // lock_buffer
    | Unlock(i: int)                        // unlock_buffer without a request
    | Ask(i: int)                           // a read request is queued
    | Put(i: int)                           // a write request is queued: add_request clears b_dirt
    | Move(i: int)                          // the driver transfers the block
    | End(i: int)                           // end_request(1)
    | Change(i: int, data: Data)            // a holder of an up-to-date buffer changes it, b_dirt = 1
    | Clear(i: int, data: Data)             // new_block: new bytes, b_uptodate = b_dirt = 1

  predicate Enabled(s: Store, e: Step) {
    && 0 <= e.i < |s.bufs|
    && var b := s.bufs[e.i];
      match e
      case Hold(_) => true
      case Drop(_) => b.count > 0
      case Take(i, n) => b.count == 0 && !b.lock && !b.dirt && n.0 != 0 && forall j :: 0 <= j < |s.bufs| ==> NameOf(s.bufs[j]) != n
      case Lock(_) => !b.lock
      case Unlock(_) => b.lock && b.io == NoRequest
      case Ask(_) => b.lock && b.io == NoRequest && !b.uptodate && b.dev != 0
      case Put(_) => b.lock && b.io == NoRequest && b.dirt && b.dev != 0
      case Move(_) => b.io == Reading || b.io == Writing
      case End(_) => b.io == Moved
      case Change(_, _) => b.count > 0 && b.uptodate && b.dev != 0
      case Clear(_, _) => b.count > 0 && !b.lock && b.dev != 0
  }

  function Next(s: Store, e: Step): Store
    requires Enabled(s, e)
  {
    var b := s.bufs[e.i];
    match e
    case Hold(i) => s.(bufs := s.bufs[i := b.(count := b.count + 1)])
    case Drop(i) => s.(bufs := s.bufs[i := b.(count := b.count - 1)])
    case Take(i, n) => s.(bufs := s.bufs[i := b.(count := 1, dirt := false, uptodate := false, dev := n.0, block := n.1)])
    case Lock(i) => s.(bufs := s.bufs[i := b.(lock := true)])
    case Unlock(i) => s.(bufs := s.bufs[i := b.(lock := false)])
    case Ask(i) => s.(bufs := s.bufs[i := b.(io := Reading, dirt := false)])
    case Put(i) => s.(bufs := s.bufs[i := b.(io := Writing, dirt := false)])
    case Move(i) =>
      if b.io == Reading then s.(bufs := s.bufs[i := b.(data := OnDisk(s.disk, NameOf(b)), io := Moved)])
      else Store(s.bufs[i := b.(io := Moved)], s.disk[NameOf(b) := b.data])
    case End(i) => s.(bufs := s.bufs[i := b.(uptodate := true, io := NoRequest, lock := false)])
    case Change(i, d) => s.(bufs := s.bufs[i := b.(data := d, dirt := true)])
    case Clear(i, d) => s.(bufs := s.bufs[i := b.(data := d, uptodate := true, dirt := true)])
  }

  lemma LemmaCoherent(s: Store, e: Step)
    requires Coherent(s) && Enabled(s, e)
    ensures Coherent(Next(s, e))
  {
    var s' := Next(s, e);
    forall i | 0 <= i < |s'.bufs|
      ensures Sane(s'.bufs[i], s'.disk)
    {
      assert Sane(s.bufs[i], s.disk);
    }
  }

  // ---------------------------------------------------------------- the flat disk

  // What a disk without a cache holds after a step: only writers change it.
  function Flat(flat: Disk, s: Store, e: Step): Disk
    requires Enabled(s, e)
  {
    match e
    case Change(i, d) => flat[NameOf(s.bufs[i]) := d]
    case Clear(i, d) => flat[NameOf(s.bufs[i]) := d]
    case _ => flat
  }

  ghost predicate Shows(s: Store, flat: Disk) {
    forall n: Name :: n.0 != 0 ==> Logical(s, n) == OnDisk(flat, n)
  }

  // Recycling a buffer, queueing, transferring and completing change no block's content.
  lemma LemmaShown(s: Store, e: Step, n: Name)
    requires Coherent(s) && Enabled(s, e) && n.0 != 0
    ensures Logical(Next(s, e), n) == match e
      case Change(i, d) => if n == NameOf(s.bufs[i]) then d else Logical(s, n)
      case Clear(i, d) => if n == NameOf(s.bufs[i]) then d else Logical(s, n)
      case _ => Logical(s, n)
  {
    LemmaCoherent(s, e);
    var s' := Next(s, e);
    assert Sane(s.bufs[e.i], s.disk);
    assert forall j :: j != e.i ==> (Caches(s', j, n) <==> Caches(s, j, n));
    if Caches(s', e.i, n) {
      LemmaLogical(s', e.i, n);
    }
    if Caches(s, e.i, n) {
      LemmaLogical(s, e.i, n);
    }
    if j :| j != e.i && Caches(s, j, n) {
      LemmaLogical(s, j, n);
      LemmaLogical(s', j, n);
    }
  }

  lemma LemmaStep(s: Store, e: Step, flat: Disk)
    requires Coherent(s) && Enabled(s, e) && Shows(s, flat)
    ensures Coherent(Next(s, e)) && Shows(Next(s, e), Flat(flat, s, e))
  {
    LemmaCoherent(s, e);
    forall n: Name | n.0 != 0
      ensures Logical(Next(s, e), n) == OnDisk(Flat(flat, s, e), n)
    {
      LemmaShown(s, e, n);
    }
  }

  // Any interleaving of steps; those that are not enabled do not happen.
  function After(s: Store, e: Step): Store { if Enabled(s, e) then Next(s, e) else s }

  function Run(s: Store, es: seq<Step>): Store
    decreases es
  {
    if es == [] then s else Run(After(s, es[0]), es[1..])
  }

  function FlatRun(flat: Disk, s: Store, es: seq<Step>): Disk
    decreases es
  {
    if es == [] then flat
    else if !Enabled(s, es[0]) then FlatRun(flat, s, es[1..])
    else FlatRun(Flat(flat, s, es[0]), Next(s, es[0]), es[1..])
  }

  /** Main theorem: in every interleaving the cache together with the disk behaves as a disk to
      which only the writers write; and no two buffers ever hold the same block. */
  lemma {:induction false} LemmaCacheIsFlat(s: Store, flat: Disk, es: seq<Step>)
    requires Coherent(s) && Shows(s, flat)
    ensures Coherent(Run(s, es)) && Shows(Run(s, es), FlatRun(flat, s, es))
    decreases es
  {
    hide Coherent, Shows, Enabled, Next, Flat;
    if es != [] {
      if Enabled(s, es[0]) {
        LemmaStep(s, es[0], flat);
        LemmaCacheIsFlat(Next(s, es[0]), Flat(flat, s, es[0]), es[1..]);
      } else {
        LemmaCacheIsFlat(s, flat, es[1..]);
      }
    }
  }

  // An up-to-date buffer, as bread returns it, has the block's content.
  lemma LemmaReadsFlat(s: Store, flat: Disk, i: int)
    requires Coherent(s) && Shows(s, flat) && 0 <= i < |s.bufs| && s.bufs[i].dev != 0 && s.bufs[i].uptodate
    ensures s.bufs[i].data == OnDisk(flat, NameOf(s.bufs[i]))
  {
    LemmaLogical(s, i, NameOf(s.bufs[i]));
  }

  // ---------------------------------------------------------------- sync_dev

  predicate NoDirty(s: Store, dev: Dev) {
    forall i :: 0 <= i < |s.bufs| && s.bufs[i].dev == dev ==> !s.bufs[i].dirt
  }

  predicate NoWrites(s: Store, dev: Dev) {
    forall i :: 0 <= i < |s.bufs| && s.bufs[i].dev == dev ==> s.bufs[i].io != Writing
  }

  // When no buffer of a device is dirty or being written, its disk holds every block's content.
  lemma LemmaSynced(s: Store, n: Name)
    requires Coherent(s) && n.0 != 0 && NoDirty(s, n.0) && NoWrites(s, n.0)
    ensures OnDisk(s.disk, n) == Logical(s, n)
  {
    if i :| Caches(s, i, n) {
      LemmaLogical(s, i, n);
      assert Sane(s.bufs[i], s.disk);
    }
  }

  // Nobody writes to a buffer of dev in a step, or in a run.
  predicate Leaves(s: Store, e: Step, dev: Dev) {
    Enabled(s, e) && (e.Change? || e.Clear?) ==> s.bufs[e.i].dev != dev
  }

  predicate LeavesAll(s: Store, es: seq<Step>, dev: Dev)
    decreases es
  {
    es == [] || (Leaves(s, es[0], dev) && LeavesAll(After(s, es[0]), es[1..], dev))
  }

  lemma LemmaLeaves(s: Store, e: Step, n: Name)
    requires Coherent(s) && Enabled(s, e) && Leaves(s, e, n.0) && n.0 != 0 && NoDirty(s, n.0)
    ensures Coherent(Next(s, e)) && NoDirty(Next(s, e), n.0) && Logical(Next(s, e), n) == Logical(s, n)
  {
    LemmaCoherent(s, e);
    LemmaShown(s, e, n);
  }

  /** Once no buffer of a device is dirty, and nobody writes to one, the disk has every block's
      content as soon as the writes that were queued are done, whatever else happens meanwhile. */
  lemma {:induction false} LemmaWritesDone(s: Store, es: seq<Step>, n: Name)
    requires Coherent(s) && n.0 != 0 && NoDirty(s, n.0) && LeavesAll(s, es, n.0) && NoWrites(Run(s, es), n.0)
    ensures OnDisk(Run(s, es).disk, n) == Logical(s, n)
    decreases es
  {
    hide Coherent, Enabled, Next, NoDirty, Leaves, NoWrites;
    if es == [] {
      LemmaSynced(s, n);
    } else if Enabled(s, es[0]) {
      LemmaLeaves(s, es[0], n);
      LemmaWritesDone(Next(s, es[0]), es[1..], n);
    } else {
      LemmaWritesDone(s, es[1..], n);
    }
  }

  // The driver does and completes all that is queued for the buffers from i on.
  function Completions(i: nat, n: nat): seq<Step>
    requires i <= n
    decreases n - i
  {
    if i == n then [] else [Move(i), End(i)] + Completions(i + 1, n)
  }

  lemma {:induction false} LemmaCompletions(s: Store, i: nat, dev: Dev)
    requires i <= |s.bufs| && forall j :: 0 <= j < i ==> s.bufs[j].io != Writing
    ensures LeavesAll(s, Completions(i, |s.bufs|), dev) && NoWrites(Run(s, Completions(i, |s.bufs|)), dev)
    decreases |s.bufs| - i
  {
    hide Enabled, Next;
    if i < |s.bufs| {
      var es := Completions(i, |s.bufs|);
      var s1 := After(s, Move(i));
      var s2 := After(s1, End(i));
      LemmaMoveEnd(s, i);
      LemmaCompletions(s2, i + 1, dev);
      assert es[1..] == [End(i)] + Completions(i + 1, |s.bufs|) && es[1..][1..] == Completions(i + 1, |s.bufs|);
      assert LeavesAll(s1, es[1..], dev) && Run(s, es) == Run(s1, es[1..]);
    }
  }

  lemma LemmaMoveEnd(s: Store, i: int)
    requires 0 <= i < |s.bufs|
    ensures var t := After(After(s, Move(i)), End(i));
      |t.bufs| == |s.bufs| && t.bufs[i].io != Writing && forall j :: 0 <= j < |s.bufs| && j != i ==> t.bufs[j] == s.bufs[j]
  {
  }

  // The disk of dev, once the driver is through with what is queued, has what the cache shows.
  ghost predicate Synced(s: Store, dev: Dev) {
    forall block: Block :: OnDisk(Run(s, Completions(0, |s.bufs|)).disk, (dev, block)) == Logical(s, (dev, block))
  }

  lemma LemmaSyncedDisk(s: Store, dev: Dev)
    requires Coherent(s) && dev != 0 && NoDirty(s, dev)
    ensures Synced(s, dev)
  {
    hide Coherent, NoDirty, NoWrites;
    LemmaCompletions(s, 0, dev);
    forall block: Block
      ensures OnDisk(Run(s, Completions(0, |s.bufs|)).disk, (dev, block)) == Logical(s, (dev, block))
    {
      LemmaWritesDone(s, Completions(0, |s.bufs|), (dev, block));
    }
  }

  // A buffer somebody holds keeps its name.
  lemma LemmaHeldKeepsName(s: Store, e: Step, i: int)
    requires Enabled(s, e) && 0 <= i < |s.bufs| && s.bufs[i].count > 0
    ensures NameOf(Next(s, e).bufs[i]) == NameOf(s.bufs[i])
  {
  }
}

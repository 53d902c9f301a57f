/** The zones of one file system: the bitmap of fs/bitmap.c, the block tree of fs/inode.c and its
    removal by fs/truncate.c.  Reads of the device succeed; the buffer cache is out of sight. */
module Zones {
  import opened Bytes
  import opened Wrappers

  const PER_BLOCK: int := 512       // unsigned shorts in a block
  const BLOCK_SIZE: int := 1024
  const DIRECT: int := 7
  const MAX_BLOCKS: int := 7 + 512 + 512 * 512

  // i_zone[9], i_size, and whether the mode is that of a regular file or a directory.
  datatype Inode = Inode(zone: seq<int>, size: nat, plain: bool)

  /** The zone bitmap (bit j stands for zone j + first - 1), and the blocks of the device in their
      two readings: zone numbers and bytes.  LemmaOneUse shows no zone has both uses. */
  datatype Fs = Fs(first: int, nzones: int, bits: seq<bool>, inodes: seq<Inode>, tab: seq<seq<int>>, data: seq<seq<byte>>)

  function ZeroTable(): seq<int> { seq(PER_BLOCK, _ => 0) }

  function ZeroData(): seq<byte> { seq(BLOCK_SIZE, _ => 0 as byte) }

  predicate InZones(fs: Fs, z: int) { z == 0 || fs.first <= z < fs.nzones }

  ghost predicate Sound(fs: Fs) {
    && 0 < fs.first <= fs.nzones < 0x1_0000
    && |fs.tab| == |fs.data| == fs.nzones && |fs.bits| >= fs.nzones - fs.first + 1 && fs.bits[0]
    && Tables(fs) && Numbers(fs) && Inodes(fs)
  }

  ghost predicate Tables(fs: Fs) {
    && (forall z :: 0 <= z < |fs.tab| ==> |fs.tab[z]| == PER_BLOCK)
    && (forall z :: 0 <= z < |fs.data| ==> |fs.data[z]| == BLOCK_SIZE)
  }

  ghost predicate Numbers(fs: Fs) {
    forall z, k :: 0 <= z < |fs.tab| && 0 <= k < |fs.tab[z]| ==> InZones(fs, fs.tab[z][k])
  }

  ghost predicate Inodes(fs: Fs) {
    forall n :: 0 <= n < |fs.inodes| ==> Wired(fs, fs.inodes[n])
  }

  predicate Wired(fs: Fs, i: Inode) {
    |i.zone| == 9 && forall k :: 0 <= k < 9 ==> InZones(fs, i.zone[k])
  }

  // ---------------------------------------------------------------- slots

  // The places that can name a zone: in an inode, in its indirect block, in its two-level tree.
  datatype Slot =
    | Direct(n: int, k: int)
    | Ind(n: int)
    | IndEntry(n: int, k: int)
    | Dind(n: int)
    | DindTable(n: int, k: int)
    | DindEntry(n: int, k: int, j: int)

  predicate IsSlot(fs: Fs, s: Slot) {
    && 0 <= s.n < |fs.inodes|
    && match s
       case Direct(_, k) => 0 <= k < DIRECT
       case Ind(_) => true
       case IndEntry(_, k) => 0 <= k < PER_BLOCK
       case Dind(_) => true
       case DindTable(_, k) => 0 <= k < PER_BLOCK
       case DindEntry(_, k, j) => 0 <= k < PER_BLOCK && 0 <= j < PER_BLOCK
  }

  function Parent(s: Slot): Option<Slot> {
    match s
    case IndEntry(n, _) => Some(Ind(n))
    case DindTable(n, _) => Some(Dind(n))
    case DindEntry(n, k, _) => Some(DindTable(n, k))
    case _ => None
  }

  // Where the slot is in its inode or block.
  function Index(s: Slot): int {
    match s
    case Direct(_, k) => k
    case Ind(_) => 7
    case IndEntry(_, k) => k
    case Dind(_) => 8
    case DindTable(_, k) => k
    case DindEntry(_, _, j) => j
  }

  function Depth(s: Slot): nat { if s.DindEntry? then 2 else if s.IndEntry? || s.DindTable? then 1 else 0 }

  // The zone a slot names, 0 for none.
  function At(fs: Fs, s: Slot): (z: int)
    requires Sound(fs) && IsSlot(fs, s)
    ensures InZones(fs, z)
    decreases Depth(s)
  {
    match Parent(s)
    case None => assert Wired(fs, fs.inodes[s.n]); fs.inodes[s.n].zone[Index(s)]
    case Some(p) => var t := At(fs, p); if t == 0 then 0 else fs.tab[t][Index(s)]
  }

  // The zone of the block the slot is in; 0 for a slot of the inode itself.
  function BlockOf(fs: Fs, s: Slot): (t: int)
    requires Sound(fs) && IsSlot(fs, s)
    ensures InZones(fs, t)
  {
    match Parent(s) case None => 0 case Some(p) => At(fs, p)
  }

  // Naming zone z in slot s, which is in block t.
  function SetSlot(fs: Fs, s: Slot, t: int, z: int): (r: Fs)
    requires Sound(fs) && IsSlot(fs, s) && InZones(fs, z) && (Parent(s).Some? ==> 0 < t < fs.nzones)
    ensures Sound(r)
  {
    match Parent(s)
    case None => fs.(inodes := fs.inodes[s.n := fs.inodes[s.n].(zone := fs.inodes[s.n].zone[Index(s) := z])])
    case Some(p) => fs.(tab := fs.tab[t := fs.tab[t][Index(s) := z]])
  }

  // ---------------------------------------------------------------- fs/bitmap.c

  // find_first_zero over all the bitmap blocks.
  function FirstZero(bits: seq<bool>, j: int): (r: int)
    requires 0 <= j <= |bits|
    ensures j <= r <= |bits| && (r < |bits| ==> !bits[r])
    ensures forall i :: j <= i < r ==> bits[i]
    decreases |bits| - j
  {
    if j == |bits| || !bits[j] then j else FirstZero(bits, j + 1)
  }

  // new_block: the zone taken, cleared in both readings; 0 if there is none.
  function NewBlock(fs: Fs): (r: (Fs, int))
    requires Sound(fs)
    ensures Sound(r.0) && InZones(fs, r.1)
  {
    var j := FirstZero(fs.bits, 0);
    if j == |fs.bits| then (fs, 0)
    else
      var z := j + fs.first - 1;
      var fs1 := fs.(bits := fs.bits[j := true]);
      if z >= fs.nzones then (fs1, 0)
      else (fs1.(tab := fs1.tab[z := ZeroTable()], data := fs1.data[z := ZeroData()]), z)
  }

  // free_block; None is a panic.
  function FreeBlock(fs: Fs, z: int): (r: Option<Fs>)
    requires Sound(fs)
    ensures r.Some? ==> Sound(r.value) && r.value == fs.(bits := r.value.bits) && |r.value.bits| == |fs.bits|
  {
    if z < fs.first || z >= fs.nzones then None
    else
      var j := z - (fs.first - 1);
      if !fs.bits[j] then None else Some(fs.(bits := fs.bits[j := false]))
  }

  // Bit z - first + 1 of the bitmap is zone z's: new_block sets the first that is clear, free_block clears its zone's.
  lemma LemmaBits(fs: Fs, z: int)
    requires Sound(fs)
    ensures var (g, y) := NewBlock(fs);
      && (y != 0 ==> var j := y - fs.first + 1; !fs.bits[j] && g.bits == fs.bits[j := true] && forall i :: 0 <= i < j ==> fs.bits[i])
      && (y == 0 ==> forall i :: 0 < i <= fs.nzones - fs.first ==> fs.bits[i])
    ensures FreeBlock(fs, z).Some? <==> fs.first <= z < fs.nzones && fs.bits[z - fs.first + 1]
    ensures FreeBlock(fs, z).Some? ==> FreeBlock(fs, z).value == fs.(bits := fs.bits[z - fs.first + 1 := false])
  {
    hide Tables, Numbers, Inodes;
  }

  // ---------------------------------------------------------------- _bmap

  // One level of _bmap with create set: a new zone for an empty slot, if there is one.
  function Ensure(fs: Fs, s: Slot): (r: Fs)
    requires Sound(fs) && IsSlot(fs, s) && (Parent(s).Some? ==> BlockOf(fs, s) != 0)
    ensures Sound(r) && |r.inodes| == |fs.inodes|
  {
    if At(fs, s) != 0 then fs
    else
      var (fs1, z) := NewBlock(fs);
      if z == 0 then fs1 else SetSlot(fs1, s, BlockOf(fs, s), z)
  }

  // All levels down to s: nothing below a slot that stays empty.
  function EnsurePath(fs: Fs, s: Slot): (r: Fs)
    requires Sound(fs) && IsSlot(fs, s)
    ensures Sound(r) && |r.inodes| == |fs.inodes|
    decreases Depth(s)
  {
    match Parent(s)
    case None => Ensure(fs, s)
    case Some(p) =>
      var fs1 := EnsurePath(fs, p);
      if At(fs1, p) == 0 then fs1 else Ensure(fs1, s)
  }

  // The slot that names a file block.
  function Leaf(n: int, block: int): (s: Slot)
    requires 0 <= block < MAX_BLOCKS
  {
    if block < DIRECT then Direct(n, block)
    else if block - DIRECT < PER_BLOCK then IndEntry(n, block - DIRECT)
    else
      var b := block - DIRECT - PER_BLOCK;
      DindEntry(n, b / PER_BLOCK, b % PER_BLOCK)
  }

  // bmap
  function Bmap(fs: Fs, n: int, block: int): (z: int)
    requires Sound(fs) && 0 <= n < |fs.inodes| && 0 <= block < MAX_BLOCKS
    ensures InZones(fs, z)
  {
    At(fs, Leaf(n, block))
  }

  // Entry k of the block in zone t; there is none for t == 0.
  function InTable(fs: Fs, t: int, k: int): (z: int)
    requires Sound(fs) && InZones(fs, t) && 0 <= k < PER_BLOCK
    ensures InZones(fs, z)
  {
    if t == 0 then 0 else fs.tab[t][k]
  }

  /** Where the zones of a file's blocks are written, for a disk made by any other kernel: seven in the
      inode, 512 in the block zone[7], and 512 in each of the 512 blocks named in the block zone[8]. */
  lemma LemmaLayout(fs: Fs, n: int, k: int, j: int)
    requires Sound(fs) && 0 <= n < |fs.inodes| && 0 <= k < PER_BLOCK && 0 <= j < PER_BLOCK
    ensures Wired(fs, fs.inodes[n])
    ensures var zone := fs.inodes[n].zone;
      && (k < 7 ==> Bmap(fs, n, k) == zone[k])
      && Bmap(fs, n, 7 + k) == InTable(fs, zone[7], k)
      && Bmap(fs, n, 519 + 512 * k + j) == InTable(fs, InTable(fs, zone[8], k), j)
  {
    hide Tables, Numbers;
    assert (512 * k + j) / PER_BLOCK == k && (512 * k + j) % PER_BLOCK == j;
    assert At(fs, Ind(n)) == fs.inodes[n].zone[7] && At(fs, Dind(n)) == fs.inodes[n].zone[8];
    assert At(fs, IndEntry(n, k)) == InTable(fs, fs.inodes[n].zone[7], k);
    assert At(fs, DindTable(n, k)) == InTable(fs, fs.inodes[n].zone[8], k);
    assert At(fs, DindEntry(n, k, j)) == InTable(fs, At(fs, DindTable(n, k)), j);
  }

  // create_block: the new state and the zone of the block, 0 if the device is full.
  function CreateBlock(fs: Fs, n: int, block: int): (r: (Fs, int))
    requires Sound(fs) && 0 <= n < |fs.inodes| && 0 <= block < MAX_BLOCKS
    ensures Sound(r.0) && |r.0.inodes| == |fs.inodes| && InZones(r.0, r.1)
  {
    var fs1 := EnsurePath(fs, Leaf(n, block));
    (fs1, At(fs1, Leaf(n, block)))
  }

  // ---------------------------------------------------------------- the ownership invariant

  // owner says which slot names each zone in use.
  type Owner = map<int, Slot>

  ghost predicate Owned(fs: Fs, owner: Owner)
    requires Sound(fs)
  {
    && (forall s :: IsSlot(fs, s) && At(fs, s) != 0 ==> At(fs, s) in owner && owner[At(fs, s)] == s)
    && (forall z :: z in owner ==> fs.first <= z < fs.nzones && IsSlot(fs, owner[z]) && At(fs, owner[z]) == z)
  }

  predicate Used(fs: Fs, z: int)
    requires Sound(fs) && fs.first <= z < fs.nzones
  {
    fs.bits[z - fs.first + 1]
  }

  /** The bit of a zone is set exactly if one slot names it, and no two slots name one zone. */
  ghost predicate Inv(fs: Fs, owner: Owner) {
    Sound(fs) && Owned(fs, owner) && forall z :: fs.first <= z < fs.nzones ==> (Used(fs, z) <==> z in owner)
  }

  // new_block on a full device: no zone, though a bit past the last zone may have been set.
  lemma LemmaNoBlock(fs: Fs, owner: Owner)
    requires Inv(fs, owner) && NewBlock(fs).1 == 0
    ensures var g := NewBlock(fs).0;
      Inv(g, owner) && g == fs.(bits := g.bits) && forall y :: fs.first <= y < fs.nzones ==> Used(fs, y)
  {
    var g := NewBlock(fs).0;
    forall s | IsSlot(fs, s)
      ensures At(g, s) == At(fs, s)
    {
      LemmaSameAt(fs, g, s);
    }
  }

  // new_block otherwise: a zone nobody named, cleared, and nobody names it yet.
  lemma LemmaNewBlock(fs: Fs, owner: Owner)
    requires Inv(fs, owner) && NewBlock(fs).1 != 0
    ensures var (g, z) := NewBlock(fs);
      && z !in owner && g.tab == fs.tab[z := ZeroTable()] && g.data == fs.data[z := ZeroData()]
      && g == fs.(bits := g.bits, tab := g.tab, data := g.data)
      && (forall s :: IsSlot(fs, s) ==> At(g, s) == At(fs, s))
      && (forall y :: fs.first <= y < fs.nzones ==> (Used(g, y) <==> y in owner || y == z))
  {
    var (g, z) := NewBlock(fs);
    assert !Used(fs, z);
    forall s | IsSlot(fs, s)
      ensures At(g, s) == At(fs, s)
    {
      LemmaClearedAt(fs, owner, g, z, s);
    }
  }

  lemma {:induction false} LemmaSameAt(fs: Fs, g: Fs, s: Slot)
    requires Sound(fs) && Sound(g) && IsSlot(fs, s) && g.inodes == fs.inodes && g.tab == fs.tab && g.nzones == fs.nzones && g.first == fs.first
    ensures At(g, s) == At(fs, s)
    decreases Depth(s)
  {
    if Parent(s).Some? {
      LemmaSameAt(fs, g, Parent(s).value);
    }
  }

  // Clearing a block that no slot names changes no slot.
  lemma {:induction false} LemmaClearedAt(fs: Fs, owner: Owner, g: Fs, z: int, s: Slot)
    requires Sound(fs) && Owned(fs, owner) && Sound(g) && IsSlot(fs, s) && z !in owner && 0 < z < fs.nzones
    requires g.inodes == fs.inodes && g.tab == fs.tab[z := ZeroTable()] && g.nzones == fs.nzones && g.first == fs.first
    ensures At(g, s) == At(fs, s)
    decreases Depth(s)
  {
    if Parent(s).Some? {
      LemmaClearedAt(fs, owner, g, z, Parent(s).value);
    }
  }

  // Naming z in an empty slot changes that slot only, and what is below it if z is not empty.
  lemma {:induction false} LemmaSetAt(fs: Fs, owner: Owner, s: Slot, z: int, r: Slot)
    requires Sound(fs) && Owned(fs, owner) && IsSlot(fs, s) && IsSlot(fs, r) && InZones(fs, z) && z != 0 && z !in owner
    requires At(fs, s) == 0 && (Parent(s).Some? ==> BlockOf(fs, s) != 0) && fs.tab[z] == ZeroTable()
    ensures At(SetSlot(fs, s, BlockOf(fs, s), z), r) == if r == s then z else At(fs, r)
    decreases Depth(r)
  {
    hide Owned, Tables, Numbers, Inodes;
    match Parent(r) {
      case None => LemmaSetTop(fs, s, z, r);
      case Some(p) =>
        LemmaSetAt(fs, owner, s, z, p);
        if At(fs, p) != 0 {
          LemmaOwns(fs, owner, p);
        }
        if Parent(s).Some? {
          LemmaOwns(fs, owner, Parent(s).value);
        }
        LemmaSetBelow(fs, s, z, r, p);
    }
  }

  lemma LemmaSetTop(fs: Fs, s: Slot, z: int, r: Slot)
    requires Sound(fs) && IsSlot(fs, s) && IsSlot(fs, r) && InZones(fs, z) && (Parent(s).Some? ==> BlockOf(fs, s) != 0)
    requires Parent(r).None?
    ensures At(SetSlot(fs, s, BlockOf(fs, s), z), r) == if r == s then z else At(fs, r)
  {
    hide Tables, Numbers;
    assert Wired(fs, fs.inodes[s.n]) && Wired(fs, fs.inodes[r.n]);
  }

  lemma LemmaSetBelow(fs: Fs, s: Slot, z: int, r: Slot, p: Slot)
    requires Sound(fs) && IsSlot(fs, s) && IsSlot(fs, r) && InZones(fs, z) && z != 0 && Parent(r) == Some(p) && IsSlot(fs, p)
    requires At(fs, s) == 0 && (Parent(s).Some? ==> BlockOf(fs, s) != 0) && fs.tab[z] == ZeroTable()
    requires At(SetSlot(fs, s, BlockOf(fs, s), z), p) == if p == s then z else At(fs, p)
    requires BlockOf(fs, s) != z && At(fs, p) != z
    requires Parent(s).Some? && At(fs, p) == BlockOf(fs, s) ==> p == Parent(s).value
    ensures At(SetSlot(fs, s, BlockOf(fs, s), z), r) == if r == s then z else At(fs, r)
  {
    hide Numbers, Inodes;
    if Parent(s) == Some(p) {
      LemmaSiblings(r, s);
    }
  }

  // Two slots of one block with the same index are the same slot.
  lemma LemmaSiblings(r: Slot, s: Slot)
    requires Parent(r).Some? && Parent(r) == Parent(s)
    ensures r == s <==> Index(r) == Index(s)
  {
  }

  // g has the sizes of fs, every slot outside changed names what it named, and no zone in use lost its bytes.
  ghost predicate SameBut(fs: Fs, owner: Owner, g: Fs, changed: set<Slot>)
    requires Sound(fs) && Sound(g)
  {
    && g.first == fs.first && g.nzones == fs.nzones && |g.inodes| == |fs.inodes|
    && (forall r :: IsSlot(fs, r) && r !in changed ==> At(g, r) == At(fs, r))
    && (forall r :: IsSlot(fs, r) && At(fs, r) != 0 ==> At(g, r) == At(fs, r))
    && (forall n :: 0 <= n < |fs.inodes| ==> g.inodes[n] == fs.inodes[n].(zone := g.inodes[n].zone))
    && (forall z :: z in owner && 0 <= z < fs.nzones ==> g.data[z] == fs.data[z])
  }

  // What one more level means for the slot itself.
  ghost predicate Filled(fs: Fs, g: Fs, s: Slot)
    requires Sound(fs) && Sound(g) && IsSlot(fs, s) && IsSlot(g, s)
  {
    if At(g, s) == 0 then forall z :: g.first <= z < g.nzones ==> Used(g, z)
    else At(fs, s) == 0 ==> g.data[At(g, s)] == ZeroData()
  }

  // One level of create_block.
  lemma LemmaEnsure(fs: Fs, owner: Owner, s: Slot) returns (owner': Owner)
    requires Inv(fs, owner) && IsSlot(fs, s) && (Parent(s).Some? ==> BlockOf(fs, s) != 0)
    ensures Inv(Ensure(fs, s), owner') && SameBut(fs, owner, Ensure(fs, s), {s}) && Filled(fs, Ensure(fs, s), s)
    ensures At(fs, s) != 0 ==> Ensure(fs, s) == fs
    ensures forall z :: z in owner ==> z in owner'
  {
    hide Tables, Numbers, Inodes, At, NewBlock, SameBut, Filled;
    owner' := owner;
    if At(fs, s) != 0 {
      LemmaEnsureNothing(fs, owner, s);
    } else if NewBlock(fs).1 == 0 {
      LemmaEnsureFull(fs, owner, s);
    } else {
      owner' := LemmaEnsureNew(fs, owner, s);
    }
  }

  lemma LemmaEnsureNothing(fs: Fs, owner: Owner, s: Slot)
    requires Inv(fs, owner) && IsSlot(fs, s) && (Parent(s).Some? ==> BlockOf(fs, s) != 0) && At(fs, s) != 0
    ensures Ensure(fs, s) == fs && SameBut(fs, owner, fs, {s}) && Filled(fs, fs, s)
  {
  }

  lemma LemmaEnsureFull(fs: Fs, owner: Owner, s: Slot)
    requires Inv(fs, owner) && IsSlot(fs, s) && (Parent(s).Some? ==> BlockOf(fs, s) != 0) && At(fs, s) == 0 && NewBlock(fs).1 == 0
    ensures Inv(Ensure(fs, s), owner) && SameBut(fs, owner, Ensure(fs, s), {s}) && Filled(fs, Ensure(fs, s), s)
  {
    var fs1 := NewBlock(fs).0;
    LemmaNoBlock(fs, owner);
    forall r | IsSlot(fs, r)
      ensures At(fs1, r) == At(fs, r)
    {
      LemmaSameAt(fs, fs1, r);
    }
    hide At, Owned, NewBlock, Tables, Numbers, Inodes;
  }

  lemma LemmaEnsureNew(fs: Fs, owner: Owner, s: Slot) returns (owner': Owner)
    requires Inv(fs, owner) && IsSlot(fs, s) && (Parent(s).Some? ==> BlockOf(fs, s) != 0) && At(fs, s) == 0 && NewBlock(fs).1 != 0
    ensures Inv(Ensure(fs, s), owner') && SameBut(fs, owner, Ensure(fs, s), {s}) && Filled(fs, Ensure(fs, s), s)
    ensures forall z :: z in owner ==> z in owner'
  {
    hide At, Owned, NewBlock, Tables, Numbers, Inodes;
    var (fs1, z) := NewBlock(fs);
    LemmaNewBlock(fs, owner);
    LemmaDropsNoData(fs, owner, z);
    assert BlockOf(fs1, s) == BlockOf(fs, s);
    assert Owned(fs1, owner) by { LemmaOwnedSame(fs, owner, fs1); }
    owner' := LemmaName(fs1, owner, s, z);
  }

  lemma LemmaOwnedSame(fs: Fs, owner: Owner, g: Fs)
    requires Sound(fs) && Sound(g) && Owned(fs, owner) && g.first == fs.first && g.nzones == fs.nzones && |g.inodes| == |fs.inodes|
    requires forall s :: IsSlot(fs, s) ==> At(g, s) == At(fs, s)
    ensures Owned(g, owner)
  {
    hide At, Tables, Numbers, Inodes;
  }

  lemma LemmaDropsNoData(fs: Fs, owner: Owner, z: int)
    requires Sound(fs) && Owned(fs, owner) && 0 <= z < fs.nzones && z !in owner
    ensures forall y :: y in owner ==> 0 <= y < fs.nzones && fs.data[z := ZeroData()][y] == fs.data[y]
  {
  }

  // A zone that is set in the bitmap but not named yet gets its slot.
  lemma LemmaName(fs: Fs, owner: Owner, s: Slot, z: int) returns (owner': Owner)
    requires Sound(fs) && Owned(fs, owner) && IsSlot(fs, s) && At(fs, s) == 0 && (Parent(s).Some? ==> BlockOf(fs, s) != 0)
    requires fs.first <= z < fs.nzones && z !in owner && fs.tab[z] == ZeroTable()
    requires forall y :: fs.first <= y < fs.nzones ==> (Used(fs, y) <==> y in owner || y == z)
    ensures var g := SetSlot(fs, s, BlockOf(fs, s), z);
      && Inv(g, owner') && owner' == owner[z := s] && g == fs.(inodes := g.inodes, tab := g.tab) && |g.inodes| == |fs.inodes|
      && (forall r :: IsSlot(fs, r) ==> At(g, r) == if r == s then z else At(fs, r))
      && (forall n :: 0 <= n < |fs.inodes| ==> g.inodes[n] == fs.inodes[n].(zone := g.inodes[n].zone))
  {
    var g := SetSlot(fs, s, BlockOf(fs, s), z);
    owner' := owner[z := s];
    forall r | IsSlot(fs, r)
      ensures At(g, r) == if r == s then z else At(fs, r)
    {
      LemmaSetAt(fs, owner, s, z, r);
    }
    hide At;
    forall y | fs.first <= y < fs.nzones
      ensures Used(g, y) <==> y in owner'
    {
      assert Used(g, y) == Used(fs, y);
    }
  }

  function Path(s: Slot): set<Slot>
    decreases Depth(s)
  {
    match Parent(s) case None => {s} case Some(p) => Path(p) + {s}
  }

  /** create_block: every level keeps the invariant; only slots on the way to the leaf can change,
      and only from empty; the leaf stays empty only if the device is full. */
  lemma {:induction false} LemmaEnsurePath(fs: Fs, owner: Owner, s: Slot) returns (owner': Owner)
    requires Inv(fs, owner) && IsSlot(fs, s)
    ensures Inv(EnsurePath(fs, s), owner') && SameBut(fs, owner, EnsurePath(fs, s), Path(s)) && Filled(fs, EnsurePath(fs, s), s)
    ensures At(fs, s) != 0 ==> EnsurePath(fs, s) == fs
    ensures forall z :: z in owner ==> z in owner'
    decreases Depth(s)
  {
    hide Owned, Tables, Numbers, Inodes, Ensure, SameBut, Filled;
    match Parent(s) {
      case None =>
        owner' := LemmaEnsure(fs, owner, s);
      case Some(p) =>
        var g := EnsurePath(fs, p);
        owner' := LemmaEnsurePath(fs, owner, p);
        LemmaSlotKept(fs, owner, g, s, p);
        if At(g, p) == 0 {
          LemmaPathStops(fs, owner, g, s, p);
        } else {
          var owner1 := owner';
          owner' := LemmaEnsure(g, owner1, s);
          var h := Ensure(g, s);
          LemmaSameButTwice(fs, owner, g, owner1, h, Path(p), s);
          assert Filled(fs, h, s) by {
            LemmaFilledSame(fs, g, h, s);
          }
        }
    }
  }

  lemma LemmaSlotKept(fs: Fs, owner: Owner, g: Fs, s: Slot, p: Slot)
    requires Sound(fs) && Sound(g) && IsSlot(fs, s) && Parent(s) == Some(p) && SameBut(fs, owner, g, Path(p))
    ensures IsSlot(g, s) && IsSlot(g, p) && At(g, s) == At(fs, s)
  {
    LemmaNotOnPath(s, p);
  }

  lemma LemmaNotOnPath(s: Slot, p: Slot)
    requires Parent(s) == Some(p)
    ensures s !in Path(p)
  {
  }

  lemma LemmaPathStops(fs: Fs, owner: Owner, g: Fs, s: Slot, p: Slot)
    requires Sound(fs) && Sound(g) && IsSlot(fs, s) && Parent(s) == Some(p) && SameBut(fs, owner, g, Path(p)) && Filled(fs, g, p)
    requires At(g, p) == 0
    ensures IsSlot(g, s) && SameBut(fs, owner, g, Path(s)) && Filled(fs, g, s) && At(fs, s) == 0
  {
  }

  lemma LemmaFilledSame(fs: Fs, g: Fs, h: Fs, s: Slot)
    requires Sound(fs) && Sound(g) && Sound(h) && IsSlot(fs, s) && IsSlot(g, s) && IsSlot(h, s)
    requires At(g, s) == At(fs, s) && Filled(g, h, s)
    ensures Filled(fs, h, s)
  {
  }

  lemma LemmaSameButTwice(fs: Fs, owner: Owner, g: Fs, owner1: Owner, h: Fs, changed: set<Slot>, s: Slot)
    requires Sound(fs) && Sound(g) && Sound(h) && SameBut(fs, owner, g, changed) && SameBut(g, owner1, h, {s})
    requires forall z :: z in owner ==> z in owner1
    ensures SameBut(fs, owner, h, changed + {s})
  {
    hide Sound, At;
  }

  lemma LemmaLeaves(n: int, b: int, m: int, c: int)
    requires 0 <= b < MAX_BLOCKS && 0 <= c < MAX_BLOCKS
    ensures Leaf(n, b) == Leaf(m, c) <==> n == m && b == c
    ensures Leaf(n, b) != Leaf(m, c) ==> Leaf(n, b) !in Path(Leaf(m, c))
  {
    LemmaPathKinds(Leaf(m, c));
  }

  lemma {:induction false} LemmaPathKinds(s: Slot)
    ensures forall r :: r in Path(s) ==> r == s || r.Ind? || r.Dind? || r.DindTable?
    decreases Depth(s)
  {
    if Parent(s).Some? {
      LemmaPathKinds(Parent(s).value);
    }
  }

  /** create_block changes bmap at one block only, from no zone to a cleared one, and fails only on
      a full device; no byte of any other block changes. */
  lemma LemmaCreateBlock(fs: Fs, owner: Owner, n: int, block: int) returns (owner': Owner)
    requires Inv(fs, owner) && 0 <= n < |fs.inodes| && 0 <= block < MAX_BLOCKS
    ensures var (g, z) := CreateBlock(fs, n, block);
      && Inv(g, owner') && |g.inodes| == |fs.inodes| && z == Bmap(g, n, block)
      && (Bmap(fs, n, block) != 0 ==> g == fs)
      && (z == 0 ==> forall y :: g.first <= y < g.nzones ==> Used(g, y))
      && (z != 0 && Bmap(fs, n, block) == 0 ==> g.data[z] == ZeroData())
      && (forall m, c :: 0 <= m < |fs.inodes| && 0 <= c < MAX_BLOCKS && (m, c) != (n, block) ==> Bmap(g, m, c) == Bmap(fs, m, c))
      && (forall m, c :: 0 <= m < |fs.inodes| && 0 <= c < MAX_BLOCKS && Bmap(fs, m, c) != 0 ==>
            g.data[Bmap(fs, m, c)] == fs.data[Bmap(fs, m, c)])
      && (forall m :: 0 <= m < |fs.inodes| ==> g.inodes[m] == fs.inodes[m].(zone := g.inodes[m].zone))
  {
    hide Owned, Tables, Numbers, Inodes, EnsurePath, At, Path, Bmap, SameBut, Filled, Used;
    var s := Leaf(n, block);
    owner' := LemmaEnsurePath(fs, owner, s);
    LemmaLeafSlot(fs, n, block);
    LemmaLeafSlot(EnsurePath(fs, s), n, block);
    LemmaCreatedLeaf(fs, owner, EnsurePath(fs, s), n, block);
    LemmaCreatedOthers(fs, owner, EnsurePath(fs, s), n, block);
  }

  lemma LemmaLeafSlot(fs: Fs, n: int, block: int)
    requires Sound(fs) && 0 <= n < |fs.inodes| && 0 <= block < MAX_BLOCKS
    ensures IsSlot(fs, Leaf(n, block)) && Bmap(fs, n, block) == At(fs, Leaf(n, block))
  {
  }

  lemma LemmaCreatedLeaf(fs: Fs, owner: Owner, g: Fs, n: int, block: int)
    requires Sound(fs) && Sound(g) && 0 <= n < |fs.inodes| && |g.inodes| == |fs.inodes| && 0 <= block < MAX_BLOCKS
    requires IsSlot(fs, Leaf(n, block)) && IsSlot(g, Leaf(n, block)) && Filled(fs, g, Leaf(n, block))
    ensures var z := Bmap(g, n, block);
      && (z == 0 ==> forall y :: g.first <= y < g.nzones ==> Used(g, y))
      && (z != 0 && Bmap(fs, n, block) == 0 ==> g.data[z] == ZeroData())
  {
    hide Tables, Numbers, Inodes, At;
  }

  lemma LemmaCreatedOthers(fs: Fs, owner: Owner, g: Fs, n: int, block: int)
    requires Inv(fs, owner) && Sound(g) && 0 <= n < |fs.inodes| && 0 <= block < MAX_BLOCKS
    requires SameBut(fs, owner, g, Path(Leaf(n, block)))
    ensures |g.inodes| == |fs.inodes|
    ensures forall m, c :: 0 <= m < |fs.inodes| && 0 <= c < MAX_BLOCKS && (m, c) != (n, block) ==> Bmap(g, m, c) == Bmap(fs, m, c)
    ensures forall m, c :: 0 <= m < |fs.inodes| && 0 <= c < MAX_BLOCKS && Bmap(fs, m, c) != 0 ==>
      g.data[Bmap(fs, m, c)] == fs.data[Bmap(fs, m, c)]
    ensures forall m :: 0 <= m < |fs.inodes| ==> g.inodes[m] == fs.inodes[m].(zone := g.inodes[m].zone)
  {
    hide Owned, Tables, Numbers, Inodes, At, Path, Bmap;
    forall m, c | 0 <= m < |fs.inodes| && 0 <= c < MAX_BLOCKS && (m, c) != (n, block)
      ensures Bmap(g, m, c) == Bmap(fs, m, c)
    {
      LemmaLeaves(m, c, n, block);
      LemmaLeafSlot(fs, m, c);
      LemmaLeafSlot(g, m, c);
    }
    forall m, c | 0 <= m < |fs.inodes| && 0 <= c < MAX_BLOCKS && Bmap(fs, m, c) != 0
      ensures g.data[Bmap(fs, m, c)] == fs.data[Bmap(fs, m, c)]
    {
      LemmaLeafSlot(fs, m, c);
      LemmaOwns(fs, owner, Leaf(m, c));
    }
  }

  lemma LemmaOwns(fs: Fs, owner: Owner, s: Slot)
    requires Sound(fs) && Owned(fs, owner) && IsSlot(fs, s) && At(fs, s) != 0
    ensures At(fs, s) in owner && owner[At(fs, s)] == s && fs.first <= At(fs, s) < fs.nzones
  {
  }

  // Different blocks never share a zone, so writing the bytes of one changes no other.
  lemma LemmaOneUse(fs: Fs, owner: Owner, s: Slot, r: Slot)
    requires Sound(fs) && Owned(fs, owner) && IsSlot(fs, s) && IsSlot(fs, r) && At(fs, s) != 0 && At(fs, s) == At(fs, r)
    ensures s == r
  {
  }

  // ---------------------------------------------------------------- fs/truncate.c

  // The loop of free_ind over block t.
  function FreeEntries(fs: Fs, t: int, i: int): (r: Option<Fs>)
    requires Sound(fs) && 0 <= t < |fs.tab| && 0 <= i <= PER_BLOCK
    ensures r.Some? ==> Sound(r.value) && r.value == fs.(bits := r.value.bits) && |r.value.bits| == |fs.bits|
    decreases PER_BLOCK - i
  {
    if i == PER_BLOCK then Some(fs)
    else if fs.tab[t][i] != 0 then
      var fs1 :- FreeBlock(fs, fs.tab[t][i]);
      FreeEntries(fs1, t, i + 1)
    else FreeEntries(fs, t, i + 1)
  }

  function FreeInd(fs: Fs, t: int): (r: Option<Fs>)
    requires Sound(fs) && InZones(fs, t)
    ensures r.Some? ==> Sound(r.value) && r.value == fs.(bits := r.value.bits) && |r.value.bits| == |fs.bits|
  {
    if t == 0 then Some(fs)
    else
      var fs1 :- FreeEntries(fs, t, 0);
      FreeBlock(fs1, t)
  }

  // The loop of free_dind over block t.
  function FreeInds(fs: Fs, t: int, i: int): (r: Option<Fs>)
    requires Sound(fs) && 0 <= t < |fs.tab| && 0 <= i <= PER_BLOCK
    ensures r.Some? ==> Sound(r.value) && r.value == fs.(bits := r.value.bits) && |r.value.bits| == |fs.bits|
    decreases PER_BLOCK - i
  {
    if i == PER_BLOCK then Some(fs)
    else if fs.tab[t][i] != 0 then
      var fs1 :- FreeInd(fs, fs.tab[t][i]);
      FreeInds(fs1, t, i + 1)
    else FreeInds(fs, t, i + 1)
  }

  function FreeDind(fs: Fs, t: int): (r: Option<Fs>)
    requires Sound(fs) && InZones(fs, t)
    ensures r.Some? ==> Sound(r.value) && r.value == fs.(bits := r.value.bits) && |r.value.bits| == |fs.bits|
  {
    if t == 0 then Some(fs)
    else
      var fs1 :- FreeInds(fs, t, 0);
      FreeBlock(fs1, t)
  }

  // The loop of truncate over the direct blocks.
  function FreeDirect(fs: Fs, n: int, k: int): (r: Option<Fs>)
    requires Sound(fs) && 0 <= n < |fs.inodes| && 0 <= k <= DIRECT
    ensures r.Some? ==> Sound(r.value) && r.value == fs.(bits := r.value.bits, inodes := r.value.inodes) && |r.value.bits| == |fs.bits|
    ensures r.Some? ==> |r.value.inodes| == |fs.inodes|
    decreases DIRECT - k
  {
    if k == DIRECT then Some(fs)
    else
      assert Wired(fs, fs.inodes[n]);
      var z := fs.inodes[n].zone[k];
      if z != 0 then
        var fs1 :- FreeBlock(fs, z);
        FreeDirect(SetSlot(fs1, Direct(n, k), 0, 0), n, k + 1)
      else FreeDirect(fs, n, k + 1)
  }

  // truncate; None is a panic.
  function Truncate(fs: Fs, n: int): (r: Option<Fs>)
    requires Sound(fs) && 0 <= n < |fs.inodes|
    ensures r.Some? ==> Sound(r.value)
  {
    if !fs.inodes[n].plain then Some(fs)
    else
      var fs1 :- FreeDirect(fs, n, 0);
      assert Wired(fs1, fs1.inodes[n]);
      var fs2 :- FreeInd(fs1, fs1.inodes[n].zone[7]);
      assert Wired(fs2, fs2.inodes[n]);
      var fs3 :- FreeDind(fs2, fs2.inodes[n].zone[8]);
      var fs4 := SetSlot(SetSlot(fs3, Ind(n), 0, 0), Dind(n), 0, 0);
      Some(fs4.(inodes := fs4.inodes[n := fs4.inodes[n].(size := 0)]))
  }

  // While truncate is at work: the zones in gone are free again, though their slots still name them.
  ghost predicate Freeing(fs: Fs, owner: Owner, g: Fs, gone: set<int>)
    requires Sound(fs) && Sound(g)
  {
    && g == fs.(bits := g.bits, inodes := g.inodes)
    && forall z :: fs.first <= z < fs.nzones ==> (Used(g, z) <==> z in owner && z !in gone)
  }

  lemma LemmaFreeBlock(fs: Fs, owner: Owner, g: Fs, gone: set<int>, z: int)
    requires Sound(fs) && Owned(fs, owner) && Sound(g) && Freeing(fs, owner, g, gone) && z in owner && z !in gone
    ensures FreeBlock(g, z).Some? && Freeing(fs, owner, FreeBlock(g, z).value, gone + {z})
  {
    assert Used(g, z);
    var h := FreeBlock(g, z).value;
    forall y | fs.first <= y < fs.nzones
      ensures Used(h, y) <==> y in owner && y !in gone + {z}
    {
      assert y != z ==> (Used(h, y) <==> Used(g, y));
    }
  }

  // The zones named by children of p from index i on.
  function Children(owner: Owner, p: Slot, i: int): set<int> {
    set z | z in owner && Parent(owner[z]) == Some(p) && i <= Index(owner[z])
  }

  function Child(p: Slot, k: int): (s: Slot)
    requires p.Ind? || p.Dind? || p.DindTable?
    ensures Parent(s) == Some(p) && Index(s) == k
  {
    if p.Ind? then IndEntry(p.n, k) else if p.Dind? then DindTable(p.n, k) else DindEntry(p.n, p.k, k)
  }

  lemma {:induction false} LemmaFreeEntries(fs: Fs, owner: Owner, g: Fs, gone: set<int>, p: Slot, i: int)
    requires Sound(fs) && Owned(fs, owner) && Sound(g) && Freeing(fs, owner, g, gone)
    requires (p.Ind? || p.DindTable?) && IsSlot(fs, p) && At(fs, p) != 0 && 0 <= i <= PER_BLOCK
    requires gone !! Children(owner, p, i)
    ensures FreeEntries(g, At(fs, p), i).Some?
    ensures Freeing(fs, owner, FreeEntries(g, At(fs, p), i).value, gone + Children(owner, p, i))
    decreases PER_BLOCK - i
  {
    hide Owned, Tables, Numbers, Inodes, At, FreeBlock, Freeing, Children;
    if i == PER_BLOCK {
      LemmaNoChildren(fs, owner, p);
      assert gone + {} == gone;
    } else {
      var z := At(fs, Child(p, i));
      LemmaEntry(fs, owner, g, gone, p, i);
      LemmaChildrenSplit(fs, owner, p, i);
      if z != 0 {
        LemmaOwns(fs, owner, Child(p, i));
        LemmaFreeBlock(fs, owner, g, gone, z);
        LemmaFreeEntries(fs, owner, FreeBlock(g, z).value, gone + {z}, p, i + 1);
        assert gone + {z} + Children(owner, p, i + 1) == gone + Children(owner, p, i);
      } else {
        LemmaFreeEntries(fs, owner, g, gone, p, i + 1);
        assert Children(owner, p, i + 1) + {} == Children(owner, p, i + 1);
      }
    }
  }

  lemma LemmaNoChildren(fs: Fs, owner: Owner, p: Slot)
    requires Sound(fs) && Owned(fs, owner)
    ensures Children(owner, p, PER_BLOCK) == {}
  {
    hide Tables, Numbers, Inodes, At;
    forall y | y in owner
      ensures Parent(owner[y]).Some? ==> Index(owner[y]) < PER_BLOCK
    {
      assert IsSlot(fs, owner[y]);
    }
  }

  lemma LemmaEntry(fs: Fs, owner: Owner, g: Fs, gone: set<int>, p: Slot, i: int)
    requires Sound(fs) && Sound(g) && Freeing(fs, owner, g, gone)
    requires (p.Ind? || p.DindTable?) && IsSlot(fs, p) && At(fs, p) != 0 && 0 <= i < PER_BLOCK
    ensures IsSlot(fs, Child(p, i)) && At(fs, Child(p, i)) == g.tab[At(fs, p)][i]
  {
  }

  lemma LemmaChildrenSplit(fs: Fs, owner: Owner, p: Slot, i: int)
    requires Sound(fs) && Owned(fs, owner) && (p.Ind? || p.Dind? || p.DindTable?) && IsSlot(fs, p) && 0 <= i < PER_BLOCK
    ensures var z := At(fs, Child(p, i));
      Children(owner, p, i) == Children(owner, p, i + 1) + (if z == 0 then {} else {z}) && z !in Children(owner, p, i + 1)
  {
    var z := At(fs, Child(p, i));
    if z != 0 {
      LemmaOwns(fs, owner, Child(p, i));
    }
    forall y | y in Children(owner, p, i) && y !in Children(owner, p, i + 1)
      ensures y == z
    {
      LemmaSiblings(owner[y], Child(p, i));
      assert At(fs, owner[y]) == y;
    }
  }

  // The zone of p and those of its children.
  function Block(owner: Owner, p: Slot): set<int> {
    set z | z in owner && (owner[z] == p || Parent(owner[z]) == Some(p))
  }

  lemma LemmaFreeInd(fs: Fs, owner: Owner, g: Fs, gone: set<int>, p: Slot)
    requires Sound(fs) && Owned(fs, owner) && Sound(g) && Freeing(fs, owner, g, gone)
    requires (p.Ind? || p.DindTable?) && IsSlot(fs, p) && gone !! Block(owner, p)
    ensures FreeInd(g, At(fs, p)).Some?
    ensures Freeing(fs, owner, FreeInd(g, At(fs, p)).value, gone + Block(owner, p))
  {
    var t := At(fs, p);
    LemmaBlock(fs, owner, p);
    if t == 0 {
      assert gone + Block(owner, p) == gone;
    } else {
      hide Owned, Tables, Numbers, Inodes, FreeEntries, FreeBlock;
      LemmaFreeEntries(fs, owner, g, gone, p, 0);
      var g1 := FreeEntries(g, t, 0).value;
      LemmaFreeBlock(fs, owner, g1, gone + Children(owner, p, 0), t);
      assert gone + Children(owner, p, 0) + {t} == gone + Block(owner, p);
    }
  }

  lemma LemmaBlock(fs: Fs, owner: Owner, p: Slot)
    requires Sound(fs) && Owned(fs, owner) && IsSlot(fs, p)
    ensures var t := At(fs, p);
      if t == 0 then Block(owner, p) == {}
      else t in owner && Block(owner, p) == Children(owner, p, 0) + {t} && t !in Children(owner, p, 0)
  {
    var t := At(fs, p);
    forall z | z in owner && Parent(owner[z]) == Some(p)
      ensures t != 0
    {
      assert At(fs, owner[z]) == z;
    }
    if t != 0 {
      LemmaOwns(fs, owner, p);
      LemmaNoLoop(p);
      assert forall z :: z in owner ==> IsSlot(fs, owner[z]);
      forall z | z in owner && owner[z] == p
        ensures z == t
      {
        assert At(fs, owner[z]) == z;
      }
    } else {
      forall z | z in owner
        ensures owner[z] != p
      {
        assert At(fs, owner[z]) == z;
      }
    }
  }

  lemma LemmaNoLoop(p: Slot)
    ensures Parent(p) != Some(p)
  {
  }

  // What free_dind has freed when it has done the tables from i on.
  function Subtrees(owner: Owner, n: int, i: int): set<int> {
    set z | z in owner && owner[z].n == n && (owner[z].DindTable? || owner[z].DindEntry?) && i <= owner[z].k
  }

  lemma {:induction false} LemmaFreeInds(fs: Fs, owner: Owner, g: Fs, gone: set<int>, n: int, i: int)
    requires Sound(fs) && Owned(fs, owner) && Sound(g) && Freeing(fs, owner, g, gone)
    requires 0 <= n < |fs.inodes| && At(fs, Dind(n)) != 0 && 0 <= i <= PER_BLOCK && gone !! Subtrees(owner, n, i)
    ensures FreeInds(g, At(fs, Dind(n)), i).Some?
    ensures Freeing(fs, owner, FreeInds(g, At(fs, Dind(n)), i).value, gone + Subtrees(owner, n, i))
    decreases PER_BLOCK - i
  {
    hide Owned, Tables, Numbers, Inodes, FreeInd, At, Freeing, Subtrees, Block;
    if i == PER_BLOCK {
      LemmaNoMoreSubtrees(fs, owner, n);
      assert gone + {} == gone;
    } else {
      var p := DindTable(n, i);
      LemmaTable(fs, owner, g, gone, n, i);
      LemmaFreeingZones(fs, owner, g, gone, p);
      LemmaSubtreesSplit(fs, owner, n, i);
      if At(fs, p) != 0 {
        LemmaFreeInd(fs, owner, g, gone, p);
        var g1 := FreeInd(g, At(fs, p)).value;
        LemmaFreeInds(fs, owner, g1, gone + Block(owner, p), n, i + 1);
        assert gone + Block(owner, p) + Subtrees(owner, n, i + 1) == gone + Subtrees(owner, n, i);
      } else {
        LemmaFreeInds(fs, owner, g, gone, n, i + 1);
        assert Subtrees(owner, n, i + 1) + {} == Subtrees(owner, n, i + 1);
      }
    }
  }

  lemma LemmaNoMoreSubtrees(fs: Fs, owner: Owner, n: int)
    requires Sound(fs) && Owned(fs, owner)
    ensures Subtrees(owner, n, PER_BLOCK) == {}
  {
    hide Tables, Numbers, Inodes;
    assert forall z :: z in owner ==> IsSlot(fs, owner[z]);
  }

  lemma LemmaFreeingZones(fs: Fs, owner: Owner, g: Fs, gone: set<int>, p: Slot)
    requires Sound(fs) && Sound(g) && Freeing(fs, owner, g, gone) && IsSlot(fs, p)
    ensures InZones(g, At(fs, p))
  {
  }

  lemma LemmaTable(fs: Fs, owner: Owner, g: Fs, gone: set<int>, n: int, i: int)
    requires Sound(fs) && Sound(g) && Freeing(fs, owner, g, gone)
    requires 0 <= n < |fs.inodes| && At(fs, Dind(n)) != 0 && 0 <= i < PER_BLOCK
    ensures At(fs, DindTable(n, i)) == g.tab[At(fs, Dind(n))][i]
  {
  }

  lemma LemmaSubtreesSplit(fs: Fs, owner: Owner, n: int, i: int)
    requires Sound(fs) && Owned(fs, owner) && 0 <= n < |fs.inodes| && 0 <= i < PER_BLOCK
    ensures Subtrees(owner, n, i) == Subtrees(owner, n, i + 1) + Block(owner, DindTable(n, i))
    ensures Block(owner, DindTable(n, i)) !! Subtrees(owner, n, i + 1)
    ensures At(fs, DindTable(n, i)) == 0 ==> Block(owner, DindTable(n, i)) == {}
  {
    LemmaBlock(fs, owner, DindTable(n, i));
    assert forall s: Slot :: Parent(s) == Some(DindTable(n, i)) <==> s.DindEntry? && s.n == n && s.k == i;
  }

  // The zone that slot s names.
  function Named(owner: Owner, s: Slot): set<int> {
    set z | z in owner && owner[z] == s
  }

  lemma LemmaFreeDind(fs: Fs, owner: Owner, g: Fs, gone: set<int>, n: int)
    requires Sound(fs) && Owned(fs, owner) && Sound(g) && Freeing(fs, owner, g, gone) && 0 <= n < |fs.inodes|
    requires forall z :: z in gone && z in owner ==> owner[z] != Dind(n)
    requires gone !! Subtrees(owner, n, 0)
    ensures FreeDind(g, At(fs, Dind(n))).Some?
    ensures Freeing(fs, owner, FreeDind(g, At(fs, Dind(n))).value,
                    gone + Subtrees(owner, n, 0) + Named(owner, Dind(n)))
  {
    var t := At(fs, Dind(n));
    var own := Named(owner, Dind(n));
    if t == 0 {
      LemmaNoSubtrees(fs, owner, n);
      assert gone + {} + {} == gone;
    } else {
      LemmaOwns(fs, owner, Dind(n));
      assert own == {t} by {
        forall z | z in own
          ensures z == t
        {
          assert At(fs, owner[z]) == z;
        }
      }
      hide Owned, Tables, Numbers, Inodes, FreeInds, FreeBlock;
      LemmaFreeInds(fs, owner, g, gone, n, 0);
      var g1 := FreeInds(g, t, 0).value;
      LemmaFreeBlock(fs, owner, g1, gone + Subtrees(owner, n, 0), t);
    }
  }

  lemma LemmaNoSubtrees(fs: Fs, owner: Owner, n: int)
    requires Sound(fs) && Owned(fs, owner) && 0 <= n < |fs.inodes| && At(fs, Dind(n)) == 0
    ensures Subtrees(owner, n, 0) == {} && Named(owner, Dind(n)) == {}
  {
    assert forall k :: 0 <= k < PER_BLOCK ==> At(fs, DindTable(n, k)) == 0;
    forall z | z in owner
      ensures z !in Subtrees(owner, n, 0) && z !in Named(owner, Dind(n))
    {
      assert At(fs, owner[z]) == z;
    }
  }

  // The zones of the direct blocks k and up.
  function Directs(owner: Owner, n: int, k: int): set<int> {
    set z | z in owner && owner[z].Direct? && owner[z].n == n && k <= owner[z].k
  }

  lemma {:induction false} LemmaFreeDirect(fs: Fs, owner: Owner, g: Fs, gone: set<int>, n: int, k: int)
    requires Sound(fs) && Owned(fs, owner) && Sound(g) && Freeing(fs, owner, g, gone)
    requires 0 <= n < |fs.inodes| && |g.inodes| == |fs.inodes| && 0 <= k <= DIRECT && gone !! Directs(owner, n, k)
    requires forall m :: 0 <= m < |fs.inodes| && m != n ==> g.inodes[m] == fs.inodes[m]
    requires g.inodes[n] == fs.inodes[n].(zone := g.inodes[n].zone)
    requires forall i :: 0 <= i < 9 && (i >= k) ==> g.inodes[n].zone[i] == fs.inodes[n].zone[i]
    requires forall i :: 0 <= i < k ==> g.inodes[n].zone[i] == 0
    ensures FreeDirect(g, n, k).Some?
    ensures var h := FreeDirect(g, n, k).value;
      && Freeing(fs, owner, h, gone + Directs(owner, n, k)) && |h.inodes| == |fs.inodes|
      && (forall m :: 0 <= m < |fs.inodes| && m != n ==> h.inodes[m] == fs.inodes[m])
      && h.inodes[n] == fs.inodes[n].(zone := h.inodes[n].zone)
      && (forall i :: 0 <= i < DIRECT ==> h.inodes[n].zone[i] == 0)
      && h.inodes[n].zone[7] == fs.inodes[n].zone[7] && h.inodes[n].zone[8] == fs.inodes[n].zone[8]
    decreases DIRECT - k
  {
    hide Owned, Tables, Numbers, Inodes, At, FreeBlock, Freeing, Directs;
    LemmaWired(fs, g, n);
    if k == DIRECT {
      LemmaNoDirects(fs, owner, n);
      assert gone + {} == gone;
    } else {
      var z := fs.inodes[n].zone[k];
      LemmaDirectsSplit(fs, owner, n, k);
      if z != 0 {
        LemmaOwns(fs, owner, Direct(n, k));
        LemmaFreeBlock(fs, owner, g, gone, z);
        var g1 := FreeBlock(g, z).value;
        var g2 := SetSlot(g1, Direct(n, k), 0, 0);
        LemmaSameBits(fs, owner, g1, g2, gone + {z});
        LemmaFreeDirect(fs, owner, g2, gone + {z}, n, k + 1);
        assert gone + {z} + Directs(owner, n, k + 1) == gone + Directs(owner, n, k);
      } else {
        LemmaFreeDirect(fs, owner, g, gone, n, k + 1);
        assert Directs(owner, n, k + 1) + {} == Directs(owner, n, k + 1);
      }
    }
  }

  lemma LemmaWired(fs: Fs, g: Fs, n: int)
    requires Sound(fs) && Sound(g) && 0 <= n < |fs.inodes| && n < |g.inodes|
    ensures Wired(fs, fs.inodes[n]) && Wired(g, g.inodes[n])
    ensures forall k :: 0 <= k < DIRECT ==> At(fs, Direct(n, k)) == fs.inodes[n].zone[k]
  {
  }

  lemma LemmaNoDirects(fs: Fs, owner: Owner, n: int)
    requires Sound(fs) && Owned(fs, owner)
    ensures Directs(owner, n, DIRECT) == {}
  {
    hide Tables, Numbers, Inodes;
    assert forall z :: z in owner ==> IsSlot(fs, owner[z]);
  }

  lemma LemmaSameBits(fs: Fs, owner: Owner, g: Fs, h: Fs, gone: set<int>)
    requires Sound(fs) && Sound(g) && Sound(h) && Freeing(fs, owner, g, gone) && h == g.(inodes := h.inodes)
    ensures Freeing(fs, owner, h, gone)
  {
    assert forall z :: fs.first <= z < fs.nzones ==> Used(h, z) == Used(g, z);
  }

  lemma LemmaDirectsSplit(fs: Fs, owner: Owner, n: int, k: int)
    requires Sound(fs) && Owned(fs, owner) && 0 <= n < |fs.inodes| && 0 <= k < DIRECT
    ensures var z := At(fs, Direct(n, k));
      Directs(owner, n, k) == Directs(owner, n, k + 1) + (if z == 0 then {} else {z}) && z !in Directs(owner, n, k + 1)
  {
    var z := At(fs, Direct(n, k));
    if z != 0 {
      LemmaOwns(fs, owner, Direct(n, k));
    }
    forall y | y in Directs(owner, n, k) && y !in Directs(owner, n, k + 1)
      ensures y == z
    {
      assert At(fs, owner[y]) == y;
    }
  }

  // Everything the inode n owns.
  function ZonesOf(owner: Owner, n: int): set<int> {
    set z | z in owner && owner[z].n == n
  }

  lemma LemmaAllZones(owner: Owner, n: int)
    requires forall z :: z in owner && owner[z].DindTable? ==> owner[z].k >= 0
    requires forall z :: z in owner && owner[z].DindEntry? ==> owner[z].k >= 0
    requires forall z :: z in owner && owner[z].Direct? ==> owner[z].k >= 0
    ensures Directs(owner, n, 0) + Block(owner, Ind(n)) + Subtrees(owner, n, 0) + Named(owner, Dind(n)) == ZonesOf(owner, n)
    ensures Directs(owner, n, 0) !! Block(owner, Ind(n)) !! Subtrees(owner, n, 0)
  {
    assert forall s: Slot :: Parent(s) == Some(Ind(n)) <==> s.IndEntry? && s.n == n;
    forall z | z in ZonesOf(owner, n)
      ensures z in Directs(owner, n, 0) + Block(owner, Ind(n)) + Subtrees(owner, n, 0) || owner[z] == Dind(n)
    {
      match owner[z]
      case Direct(_, _) =>
      case Ind(_) =>
      case IndEntry(_, _) =>
      case Dind(_) =>
      case DindTable(_, _) =>
      case DindEntry(_, _, _) =>
    }
  }

  /** truncate of a regular file or directory never panics, frees exactly the zones of its inode,
      and leaves it without blocks; every other inode keeps its zones. */
  lemma LemmaTruncate(fs: Fs, owner: Owner, n: int)
    requires Inv(fs, owner) && 0 <= n < |fs.inodes| && fs.inodes[n].plain
    ensures Truncate(fs, n).Some?
    ensures var g := Truncate(fs, n).value;
      && Inv(g, owner - ZonesOf(owner, n)) && g.tab == fs.tab && g.data == fs.data
      && g.inodes == fs.inodes[n := fs.inodes[n].(zone := seq(9, _ => 0), size := 0)]
      && (forall s :: IsSlot(fs, s) ==> At(g, s) == if s.n == n then 0 else At(fs, s))
  {
    assert forall z :: z in owner ==> IsSlot(fs, owner[z]);
    LemmaAllZones(owner, n);
    assert Wired(fs, fs.inodes[n]);
    assert At(fs, Ind(n)) == fs.inodes[n].zone[7] && At(fs, Dind(n)) == fs.inodes[n].zone[8];
    assert Freeing(fs, owner, fs, {});
    hide Owned, Tables, Numbers, FreeDirect, FreeInd, FreeDind, Directs, Subtrees, Block, Named, ZonesOf, Freeing, At, FreeBlock;
    LemmaFreeDirect(fs, owner, fs, {}, n, 0);
    var g1 := FreeDirect(fs, n, 0).value;
    assert {} + Directs(owner, n, 0) == Directs(owner, n, 0);
    LemmaFreeInd(fs, owner, g1, Directs(owner, n, 0), Ind(n));
    var g2 := FreeInd(g1, At(fs, Ind(n))).value;
    LemmaNotDind(owner, n);
    LemmaFreeDind(fs, owner, g2, Directs(owner, n, 0) + Block(owner, Ind(n)), n);
    var g3 := FreeDind(g2, At(fs, Dind(n))).value;
    LemmaEmptied(fs, n, g3);
    LemmaTruncated(fs, owner, n, g3, Truncate(fs, n).value);
  }

  // The last lines of truncate.
  lemma LemmaEmptied(fs: Fs, n: int, h: Fs)
    requires Sound(fs) && Sound(h) && 0 <= n < |fs.inodes| && |h.inodes| == |fs.inodes|
    requires forall m :: 0 <= m < |fs.inodes| && m != n ==> h.inodes[m] == fs.inodes[m]
    requires h.inodes[n] == fs.inodes[n].(zone := h.inodes[n].zone)
    requires forall i :: 0 <= i < DIRECT ==> h.inodes[n].zone[i] == 0
    ensures var g := SetSlot(SetSlot(h, Ind(n), 0, 0), Dind(n), 0, 0);
      g.inodes[n := g.inodes[n].(size := 0)] == fs.inodes[n := fs.inodes[n].(zone := seq(9, _ => 0), size := 0)]
  {
    assert Wired(h, h.inodes[n]);
    var g := SetSlot(SetSlot(h, Ind(n), 0, 0), Dind(n), 0, 0);
    assert g.inodes[n].zone == seq(9, _ => 0);
  }

  lemma LemmaNotDind(owner: Owner, n: int)
    ensures forall z :: z in Directs(owner, n, 0) + Block(owner, Ind(n)) && z in owner ==> owner[z] != Dind(n)
  {
  }

  lemma LemmaTruncated(fs: Fs, owner: Owner, n: int, h: Fs, g: Fs)
    requires Inv(fs, owner) && Sound(h) && Sound(g) && 0 <= n < |fs.inodes|
    requires Freeing(fs, owner, h, ZonesOf(owner, n)) && g == h.(inodes := g.inodes)
    requires g.inodes == fs.inodes[n := fs.inodes[n].(zone := seq(9, _ => 0), size := 0)]
    ensures Inv(g, owner - ZonesOf(owner, n))
    ensures forall s :: IsSlot(fs, s) ==> At(g, s) == if s.n == n then 0 else At(fs, s)
  {
    forall s | IsSlot(fs, s)
      ensures At(g, s) == if s.n == n then 0 else At(fs, s)
    {
      LemmaTruncatedAt(fs, n, g, s);
    }
    LemmaSameBits(fs, owner, h, g, ZonesOf(owner, n));
    hide At, Tables, Numbers, Inodes;
    assert forall s :: IsSlot(g, s) <==> IsSlot(fs, s);
  }

  lemma {:induction false} LemmaTruncatedAt(fs: Fs, n: int, g: Fs, s: Slot)
    requires Sound(fs) && Sound(g) && 0 <= n < |fs.inodes| && IsSlot(fs, s) && IsSlot(g, s)
    requires g.tab == fs.tab && g.nzones == fs.nzones && g.first == fs.first
    requires g.inodes == fs.inodes[n := fs.inodes[n].(zone := seq(9, _ => 0), size := 0)]
    ensures At(g, s) == if s.n == n then 0 else At(fs, s)
    decreases Depth(s)
  {
    if Parent(s).Some? {
      LemmaTruncatedAt(fs, n, g, Parent(s).value);
    }
  }

  // ---------------------------------------------------------------- runs

  datatype Event = Creates(n: int, block: int) | Truncates(n: int)

  function Step(fs: Fs, e: Event): (r: Option<Fs>)
    requires Sound(fs)
    ensures r.Some? ==> Sound(r.value)
  {
    if !(0 <= e.n < |fs.inodes|) || (e.Creates? && !(0 <= e.block < MAX_BLOCKS)) then Some(fs)
    else match e
      case Creates(n, block) => Some(CreateBlock(fs, n, block).0)
      case Truncates(n) => Truncate(fs, n)
  }

  function Run(fs: Fs, es: seq<Event>): (r: Option<Fs>)
    requires Sound(fs)
    decreases es
  {
    if es == [] then Some(fs)
    else
      var fs1 :- Step(fs, es[0]);
      Run(fs1, es[1..])
  }

  /** Zone conservation: in every run of create_block and truncate on any inodes no kernel panic is
      reached, a data zone's bit is set exactly if a slot names it, and no two slots share one. */
  lemma {:induction false} LemmaConserved(fs: Fs, owner: Owner, es: seq<Event>) returns (owner': Owner)
    requires Inv(fs, owner)
    ensures Run(fs, es).Some? && Inv(Run(fs, es).value, owner')
    decreases es
  {
    hide Owned, Tables, Numbers, Inodes, Used, CreateBlock, Truncate;
    owner' := owner;
    if es != [] {
      var e := es[0];
      var owner1 := owner;
      if 0 <= e.n < |fs.inodes| {
        match e {
          case Creates(n, block) =>
            if 0 <= block < MAX_BLOCKS {
              owner1 := LemmaCreateBlock(fs, owner, n, block);
            }
          case Truncates(n) =>
            if fs.inodes[n].plain {
              LemmaTruncate(fs, owner, n);
              owner1 := owner - ZonesOf(owner, n);
            } else {
              LemmaNotPlain(fs, n);
            }
        }
      }
      owner' := LemmaConserved(Step(fs, e).value, owner1, es[1..]);
    }
  }

  lemma LemmaNotPlain(fs: Fs, n: int)
    requires Sound(fs) && 0 <= n < |fs.inodes| && !fs.inodes[n].plain
    ensures Truncate(fs, n) == Some(fs)
  {
  }

  // A file system whose inodes have no blocks and whose bitmap is empty but for bit 0.
  lemma LemmaEmpty(fs: Fs)
    requires Sound(fs) && (forall n, k :: 0 <= n < |fs.inodes| && 0 <= k < 9 && |fs.inodes[n].zone| == 9 ==> fs.inodes[n].zone[k] == 0)
    requires forall j :: 0 < j < |fs.bits| ==> !fs.bits[j]
    ensures Inv(fs, map[])
  {
    forall s | IsSlot(fs, s)
      ensures At(fs, s) == 0
    {
      LemmaEmptyAt(fs, s);
    }
  }

  lemma {:induction false} LemmaEmptyAt(fs: Fs, s: Slot)
    requires Sound(fs) && IsSlot(fs, s)
    requires forall n, k :: 0 <= n < |fs.inodes| && 0 <= k < 9 && |fs.inodes[n].zone| == 9 ==> fs.inodes[n].zone[k] == 0
    ensures At(fs, s) == 0
    decreases Depth(s)
  {
    if Parent(s).Some? {
      LemmaEmptyAt(fs, Parent(s).value);
    } else {
      assert Wired(fs, fs.inodes[s.n]);
    }
  }
}

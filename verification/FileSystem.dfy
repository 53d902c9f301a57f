/** fs/bitmap.c, fs/inode.c, fs/truncate.c and fs/file_dev.c as they run on one device: bitmap,
    inodes and blocks updated in place.  Every method computes a function of Zones or FileBytes. */
module FileSystem {
  import opened Basics
  import opened Bytes
  import opened Wrappers
  import opened Zones
  import opened FileBytes

  // struct file, as far as file_read and file_write use it.
  datatype File = File(append: bool, pos: int)

  class Device {
    const first: int
    const nzones: int
    const zmap: array<bool>
    const inodes: array<Inode>
    const tab: array<seq<int>>
    const data: array<seq<byte>>

    ghost function View(): Fs
      reads zmap, inodes, tab, data
    {
      Fs(first, nzones, zmap[..], inodes[..], tab[..], data[..])
    }

    ghost predicate Valid()
      reads zmap, inodes, tab, data
    {
      Sound(View())
    }

    // new_block: the zone, or 0.
    method NewBlock() returns (z: int)
      requires Valid()
      modifies zmap, tab, data
      ensures Valid() && (View(), z) == Zones.NewBlock(old(View()))
    {
      ghost var fs := View();
      var j := 0;
      while j < zmap.Length && zmap[j]
        invariant 0 <= j <= zmap.Length && FirstZero(fs.bits, j) == FirstZero(fs.bits, 0)
      {
        j := j + 1;
      }
      if j >= zmap.Length {
        return 0;
      }
      zmap[j] := true;
      j := j + first - 1;
      if j >= nzones {
        assert View() == Zones.NewBlock(fs).0;
        return 0;
      }
      tab[j] := ZeroTable();
      data[j] := ZeroData();
      assert View() == Zones.NewBlock(fs).0;
      return j;
    }

    // free_block; false is a panic.
    method FreeBlock(block: int) returns (ok: bool)
      requires Valid()
      modifies zmap
      ensures ok == Zones.FreeBlock(old(View()), block).Some?
      ensures ok ==> Valid() && View() == Zones.FreeBlock(old(View()), block).value
    {
      if block < first || block >= nzones {
        return false;
      }
      ghost var fs := View();
      var j := block - (first - 1);
      if !zmap[j] {
        return false;
      }
      zmap[j] := false;
      assert View() == Zones.FreeBlock(fs, block).value;
      return true;
    }

    // A zone for an empty place of inode n.
    method FillInode(n: int, k: int)
      requires Valid() && 0 <= n < inodes.Length && 0 <= k < 9
      modifies zmap, inodes, tab, data
      ensures Valid() && View() == Ensure(old(View()), InInode(n, k))
    {
      ghost var fs := View();
      assert Wired(fs, fs.inodes[n]);
      if inodes[n].zone[k] == 0 {
        var z := NewBlock();
        if z != 0 {
          inodes[n] := inodes[n].(zone := inodes[n].zone[k := z]);
          assert View() == SetSlot(Zones.NewBlock(fs).0, InInode(n, k), 0, z);
        }
      }
    }

    // A zone for an empty place k of the block t that slot s is in.
    method FillBlock(t: int, k: int, ghost s: Slot)
      requires Valid() && IsSlot(View(), s) && Parent(s).Some? && BlockOf(View(), s) == t != 0 && Index(s) == k
      modifies zmap, tab, data
      ensures Valid() && View() == Ensure(old(View()), s)
    {
      ghost var fs := View();
      LemmaIndex(fs, s);
      if tab[t][k] == 0 {
        var z := NewBlock();
        if z != 0 {
          tab[t] := tab[t][k := z];
          assert View() == SetSlot(Zones.NewBlock(fs).0, s, t, z);
        }
      }
    }

    // _bmap; it panics, with nothing changed, on a block number out of range.
    method BMap(n: int, block: int, create: bool, ghost owner: Owner) returns (z: int, panicked: bool)
      requires Inv(View(), owner) && 0 <= n < inodes.Length
      modifies zmap, inodes, tab, data
      ensures Valid() && panicked == (block < 0 || block >= MAX_BLOCKS)
      ensures panicked || !create ==> View() == old(View())
      ensures !panicked && create ==> (View(), z) == CreateBlock(old(View()), n, block)
      ensures !panicked && !create ==> z == Bmap(View(), n, block)
    {
      z, panicked := 0, block < 0 || block >= MAX_BLOCKS;
      if !panicked {
        z := MapBlock(n, block, create, owner);
      }
    }

    // The rest of _bmap, for a block number in range.
    method MapBlock(n: int, block: int, create: bool, ghost owner: Owner) returns (z: int)
      requires Inv(View(), owner) && 0 <= n < inodes.Length && 0 <= block < MAX_BLOCKS
      modifies zmap, inodes, tab, data
      ensures Valid()
      ensures create ==> (View(), z) == CreateBlock(old(View()), n, block)
      ensures !create ==> View() == old(View()) && z == Bmap(View(), n, block)
    {
      ghost var fs := View();
      hide Zones.NewBlock, Ensure, Tables, Numbers;
      if block < 7 {
        if create {
          FillInode(n, block);
        }
        assert Wired(View(), View().inodes[n]);
        return inodes[n].zone[block];
      }
      var b := block - 7;
      if b < 512 {
        if create {
          FillInode(n, 7);
        }
        assert Wired(View(), View().inodes[n]);
        var t := inodes[n].zone[7];
        assert t == At(View(), Ind(n));
        assert create ==> View() == EnsurePath(fs, Ind(n));
        if t == 0 {
          assert create ==> View() == EnsurePath(fs, IndEntry(n, b));
          assert At(View(), IndEntry(n, b)) == 0;
          return 0;
        }
        if create {
          FillBlock(t, b, IndEntry(n, b));
          assert View() == EnsurePath(fs, IndEntry(n, b));
        }
        z := Entry(t, b, IndEntry(n, b));
        return;
      }
      b := b - 512;
      z := BMapDouble(n, b / 512, b % 512, create, owner);
    }

    // The last part of _bmap, for entry j of table k of the doubly indirect block.
    method BMapDouble(n: int, k: int, j: int, create: bool, ghost owner: Owner) returns (z: int)
      requires Inv(View(), owner) && 0 <= n < inodes.Length && 0 <= k < 512 && 0 <= j < 512
      modifies zmap, inodes, tab, data
      ensures Valid()
      ensures create ==> View() == EnsurePath(old(View()), DindEntry(n, k, j)) && z == At(View(), DindEntry(n, k, j))
      ensures !create ==> View() == old(View()) && z == At(View(), DindEntry(n, k, j))
    {
      ghost var fs := View();
      hide Zones.NewBlock, Ensure, Tables, Numbers, Owned;
      if create {
        FillInode(n, 8);
      }
      assert Wired(View(), View().inodes[n]);
      var t := inodes[n].zone[8];
      assert t == At(View(), Dind(n));
      assert create ==> View() == EnsurePath(fs, Dind(n));
      if t == 0 {
        assert create ==> View() == EnsurePath(fs, DindTable(n, k));
        assert At(View(), DindTable(n, k)) == 0;
        return 0;
      }
      if create {
        FillBlock(t, k, DindTable(n, k));
        assert View() == EnsurePath(fs, DindTable(n, k));
      }
      var i := Entry(t, k, DindTable(n, k));
      if i == 0 {
        return 0;
      }
      if create {
        ghost var owner1 := LemmaEnsurePath(fs, owner, DindTable(n, k));
        ghost var owner2 := LemmaEnsure(View(), owner1, DindEntry(n, k, j));
        FillBlock(i, j, DindEntry(n, k, j));
        assert View() == EnsurePath(fs, DindEntry(n, k, j));
      }
      z := Entry(i, j, DindEntry(n, k, j));
    }

    // Entry k of the block t, which slot s is in.
    method Entry(t: int, k: int, ghost s: Slot) returns (z: int)
      requires Valid() && IsSlot(View(), s) && Parent(s).Some? && Index(s) == k && t != 0
      requires t == BlockOf(View(), s)
      ensures z == At(View(), s)
    {
      LemmaIndex(View(), s);
      z := tab[t][k];
    }

    // The loop and the last line of free_ind; false is a panic.
    method FreeIndBlock(block: int) returns (ok: bool)
      requires Valid() && InZones(View(), block)
      modifies zmap
      ensures ok == FreeInd(old(View()), block).Some?
      ensures ok ==> Valid() && View() == FreeInd(old(View()), block).value
    {
      if block == 0 {
        return true;
      }
      ghost var fs := View();
      hide Zones.FreeBlock, Numbers;
      var i := 0;
      while i < 512
        invariant 0 <= i <= 512 && Valid() && tab[..] == fs.tab && View() == fs.(bits := zmap[..])
        invariant FreeEntries(View(), block, i) == FreeEntries(fs, block, 0)
      {
        if tab[block][i] != 0 {
          ok := FreeBlock(tab[block][i]);
          if !ok {
            return;
          }
        }
        i := i + 1;
      }
      ok := FreeBlock(block);
    }

    // free_dind; false is a panic.
    method FreeDindBlock(block: int) returns (ok: bool)
      requires Valid() && InZones(View(), block)
      modifies zmap
      ensures ok == FreeDind(old(View()), block).Some?
      ensures ok ==> Valid() && View() == FreeDind(old(View()), block).value
    {
      if block == 0 {
        return true;
      }
      ghost var fs := View();
      hide Zones.FreeBlock, FreeInd;
      var i := 0;
      while i < 512
        invariant 0 <= i <= 512 && Valid() && tab[..] == fs.tab && View() == fs.(bits := zmap[..])
        invariant FreeInds(View(), block, i) == FreeInds(fs, block, 0)
      {
        if tab[block][i] != 0 {
          assert InZones(fs, fs.tab[block][i]);
          ok := FreeIndBlock(tab[block][i]);
          if !ok {
            return;
          }
        }
        i := i + 1;
      }
      ok := FreeBlock(block);
    }

    // The loop of truncate over the direct blocks; false is a panic.
    method FreeDirectBlocks(n: int) returns (ok: bool)
      requires Valid() && 0 <= n < inodes.Length
      modifies zmap, inodes
      ensures ok == FreeDirect(old(View()), n, 0).Some?
      ensures ok ==> Valid() && View() == FreeDirect(old(View()), n, 0).value
    {
      ghost var fs := View();
      hide Zones.FreeBlock, Tables, Numbers;
      var i := 0;
      while i < 7
        invariant 0 <= i <= 7 && Valid()
        invariant FreeDirect(View(), n, i) == FreeDirect(fs, n, 0)
      {
        ghost var g := View();
        assert Wired(g, g.inodes[n]);
        if inodes[n].zone[i] != 0 {
          ok := FreeBlock(inodes[n].zone[i]);
          if !ok {
            return;
          }
          ghost var h := View();
          inodes[n] := inodes[n].(zone := inodes[n].zone[i := 0]);
          assert View() == SetSlot(h, Direct(n, i), 0, 0);
        }
        i := i + 1;
      }
      return true;
    }

    // truncate; false is a panic.
    method Truncate(n: int) returns (ok: bool)
      requires Valid() && 0 <= n < inodes.Length
      modifies zmap, inodes
      ensures ok == Zones.Truncate(old(View()), n).Some?
      ensures ok ==> Valid() && View() == Zones.Truncate(old(View()), n).value
    {
      if !inodes[n].plain {
        return true;
      }
      ghost var fs := View();
      hide FreeDirect, FreeInd, FreeDind, Tables, Numbers;
      ok := FreeDirectBlocks(n);
      if !ok {
        return;
      }
      assert Wired(View(), View().inodes[n]);
      ok := FreeIndBlock(inodes[n].zone[7]);
      if !ok {
        return;
      }
      assert Wired(View(), View().inodes[n]);
      ok := FreeDindBlock(inodes[n].zone[8]);
      if !ok {
        return;
      }
      ghost var g := View();
      assert Wired(g, g.inodes[n]);
      inodes[n] := inodes[n].(zone := inodes[n].zone[7 := 0][8 := 0], size := 0);
      assert View() == Zones.Truncate(fs, n).value;
    }

    // One round of file_read: chars bytes from the position on, which are in one block.
    method ReadChunk(n: int, pos: int, chars: nat, ghost owner: Owner) returns (chunk: seq<byte>)
      requires Inv(View(), owner) && 0 <= n < inodes.Length && 0 <= pos && pos / BLOCK_SIZE < MAX_BLOCKS
      requires pos % BLOCK_SIZE + chars <= BLOCK_SIZE
      modifies zmap, inodes, tab, data
      ensures Valid() && View() == old(View())
      ensures chunk == Chunk(View(), Bmap(View(), n, pos / BLOCK_SIZE), pos % BLOCK_SIZE, chars)
    {
      var nr, panicked := BMap(n, pos / BLOCK_SIZE, false, owner);
      var o := pos % BLOCK_SIZE;
      if nr != 0 {
        LemmaBlockSize(View(), nr);
        chunk := data[nr][o..o + chars];
      } else {
        chunk := seq(chars, _ => 0 as byte);
      }
    }

    // file_read: the bytes copied out; panicked tells of a block past the largest file.
    method FileRead(n: int, filp: File, count: int, ghost owner: Owner) returns (buf: seq<byte>, filp': File, panicked: bool)
      requires Inv(View(), owner) && 0 <= n < inodes.Length && 0 <= filp.pos
      modifies zmap, inodes, tab, data
      ensures View() == old(View()) && ReadsAs(View(), n, filp, count, buf, filp', panicked)
    {
      hide ReadSoFar, Sound, Inv, ReadsAs;
      buf, filp', panicked := [], filp, false;
      ghost var fs := View();
      LemmaReadStart(fs, n, filp, count, owner);
      if count <= 0 {
        return;
      }
      var left := count;
      while left > 0
        invariant View() == fs && 0 <= left && 0 <= filp'.pos
        invariant ReadSoFar(fs, n, filp, count, buf, filp', left)
      {
        if filp'.pos / BLOCK_SIZE >= MAX_BLOCKS {
          LemmaReadStuck(fs, n, filp, count, buf, filp', left);
          panicked := true;
          return;
        }
        var o := filp'.pos % BLOCK_SIZE;
        var chars := Min(BLOCK_SIZE - o, left);
        LemmaReadStep(fs, n, filp, count, buf, filp', left);
        var chunk := ReadChunk(n, filp'.pos, chars, owner);
        buf := buf + chunk;
        filp' := filp'.(pos := filp'.pos + chars);
        left := left - chars;
      }
      LemmaReadEnd(fs, n, filp, count, buf, filp', left);
    }

    // sys_read on a plain file.
    method SysRead(n: int, filp: File, count: nat, ghost owner: Owner) returns (buf: seq<byte>, filp': File, panicked: bool)
      requires Inv(View(), owner) && 0 <= n < inodes.Length && 0 <= filp.pos && inodes[n].size <= MAX_BYTES
      modifies zmap, inodes, tab, data
      ensures View() == old(View()) && Sound(View()) && !panicked
      ensures 0 <= n < |View().inodes| && View().inodes[n].size <= MAX_BYTES
      ensures var s := Contents(View(), n);
        && buf == (if filp.pos >= |s| then [] else s[filp.pos..Min(filp.pos + count, |s|)])
        && filp' == filp.(pos := filp.pos + |buf|)
    {
      hide Owned, Inodes, Tables, Numbers, Contents, Read;
      var c := count;
      if count + filp.pos > inodes[n].size {
        c := inodes[n].size - filp.pos;
      }
      LemmaFlatRead(View(), n, filp.pos, count);
      if c <= 0 {
        return [], filp, false;
      }
      buf, filp', panicked := FileRead(n, filp, c, owner);
    }

    // One round of file_write, up to the end of the buffer or of the block; false on a full device.
    method WriteChunk(n: int, pos: int, s: seq<byte>, ghost owner: Owner) returns (ok: bool, ghost owner': Owner)
      requires Inv(View(), owner) && 0 <= n < inodes.Length && 0 <= pos && pos / BLOCK_SIZE < MAX_BLOCKS
      requires 0 < |s| && pos % BLOCK_SIZE + |s| <= BLOCK_SIZE
      modifies zmap, inodes, tab, data
      ensures Valid() && Inv(View(), owner')
      ensures var (g, z) := CreateBlock(old(View()), n, pos / BLOCK_SIZE);
        && ok == (z != 0) && 0 <= n < |g.inodes|
        && View() == if ok then Patch(Grown(g, n, pos + |s|), z, pos % BLOCK_SIZE, s) else g
    {
      ghost var fs := View();
      owner' := LemmaCreateBlock(fs, owner, n, pos / BLOCK_SIZE);
      hide Tables, Numbers, Inodes, Owned, Used, CreateBlock, Bmap;
      var block, panicked := BMap(n, pos / BLOCK_SIZE, true, owner);
      if block == 0 {
        return false, owner';
      }
      owner' := LemmaChunk(fs, owner, n, pos, s);
      StoreChunk(n, block, pos, s);
      ok := true;
    }

    // file_write: how many bytes went in (-1 for none), as the source returns it.
    method FileWrite(n: int, filp: File, buf: seq<byte>, ghost owner: Owner)
      returns (result: int, filp': File, panicked: bool, ghost owner': Owner)
      requires Inv(View(), owner) && 0 <= n < inodes.Length && 0 <= filp.pos
      modifies zmap, inodes, tab, data
      ensures WritesAs(old(View()), n, filp, buf, View(), result, filp', panicked)
      ensures Inv(View(), owner')
    {
      hide WrittenSoFar, Sound, Inv, WritesAs, CreateBlock, Patch, Grown;
      ghost var fs := View();
      var pos := if filp.append then inodes[n].size else filp.pos;
      result, filp', panicked, owner' := -1, filp, false, owner;
      var i := 0;
      var ok := true;
      LemmaWriteStart(fs, n, filp, buf, owner);
      while ok && i < |buf|
        invariant 0 <= i <= |buf| && Inv(View(), owner') && WrittenSoFar(fs, n, filp, buf, View(), pos, i, ok)
        decreases ok, |buf| - i
      {
        ghost var g := View();
        LemmaWriteStep(fs, n, filp, buf, g, owner', pos, i);
        if pos / BLOCK_SIZE >= MAX_BLOCKS {
          panicked := true;
          return;
        }
        var c := Min(BLOCK_SIZE - pos % BLOCK_SIZE, |buf| - i);
        ok, owner' := WriteChunk(n, pos, buf[i..i + c], owner');
        if ok {
          pos := pos + c;
          i := i + c;
        }
      }
      LemmaWriteEnd(fs, n, filp, buf, View(), pos, i, ok);
      if !filp.append {
        filp' := filp.(pos := pos);
      }
      if i > 0 {
        result := i;
      }
    }

    // The part of file_write's loop that works on the buffer of one block.
    method StoreChunk(n: int, block: int, pos: int, s: seq<byte>)
      requires Valid() && 0 <= n < inodes.Length && 0 < block < nzones && 0 <= pos && pos % BLOCK_SIZE + |s| <= BLOCK_SIZE
      modifies inodes, data
      ensures View() == Patch(Grown(old(View()), n, pos + |s|), block, pos % BLOCK_SIZE, s)
      ensures Valid()
    {
      ghost var fs := View();
      if pos + |s| > inodes[n].size {
        inodes[n] := inodes[n].(size := pos + |s|);
      }
      assert View() == Grown(fs, n, pos + |s|);
      var o := pos % BLOCK_SIZE;
      data[block] := data[block][..o] + s + data[block][o + |s|..];
      assert View() == Patch(Grown(fs, n, pos + |s|), block, o, s);
    }
  }

  // What file_read returns: the bytes and the moved position, or the panic of _bmap.
  ghost predicate ReadsAs(fs: Fs, n: int, filp: File, count: int, buf: seq<byte>, filp': File, panicked: bool) {
    && Sound(fs) && 0 <= n < |fs.inodes| && 0 <= filp.pos
    && var left := if count <= 0 then 0 else count;
       var r := Read(fs, n, filp.pos, left);
       panicked == r.None? && (!panicked ==> r == Some(buf) && filp' == filp.(pos := filp.pos + left))
  }

  // What file_write does to the device and the position, and the number it returns.
  ghost predicate WritesAs(fs: Fs, n: int, filp: File, buf: seq<byte>, g: Fs, result: int, filp': File, panicked: bool) {
    && Sound(fs) && 0 <= n < |fs.inodes| && 0 <= filp.pos
    && var pos := if filp.append then fs.inodes[n].size else filp.pos;
       var r := Write(fs, n, pos, buf, 0);
       && panicked == r.None?
       && (!panicked ==> r.value.0 == g && result == if r.value.1 > 0 then r.value.1 else -1)
       && (!panicked ==> filp' == if filp.append then filp else filp.(pos := pos + r.value.1))
  }

  // What file_read still has to copy completes what it has copied.
  ghost predicate ReadSoFar(fs: Fs, n: int, filp: File, count: int, buf: seq<byte>, filp': File, left: int) {
    && Sound(fs) && 0 <= n < |fs.inodes| && 0 <= filp.pos && 0 <= left <= count
    && filp' == filp.(pos := filp.pos + count - left)
    && var rest := Read(fs, n, filp'.pos, left);
       Read(fs, n, filp.pos, count) == if rest.None? then None else Some(buf + rest.value)
  }

  lemma LemmaReadStart(fs: Fs, n: int, filp: File, count: int, owner: Owner)
    requires Inv(fs, owner) && 0 <= n < |fs.inodes| && 0 <= filp.pos
    ensures if count <= 0 then ReadsAs(fs, n, filp, count, [], filp, false) else ReadSoFar(fs, n, filp, count, [], filp, count)
  {
    var r := Read(fs, n, filp.pos, if count <= 0 then 0 else count);
    assert r.Some? ==> [] + r.value == r.value;
  }

  lemma LemmaReadStuck(fs: Fs, n: int, filp: File, count: int, buf: seq<byte>, filp': File, left: int)
    requires ReadSoFar(fs, n, filp, count, buf, filp', left) && 0 < left && filp'.pos / BLOCK_SIZE >= MAX_BLOCKS
    ensures ReadsAs(fs, n, filp, count, buf, filp', true)
  {
  }

  lemma LemmaReadEnd(fs: Fs, n: int, filp: File, count: int, buf: seq<byte>, filp': File, left: int)
    requires ReadSoFar(fs, n, filp, count, buf, filp', left) && left == 0
    ensures ReadsAs(fs, n, filp, count, buf, filp', false)
  {
    assert buf + [] == buf;
  }

  lemma LemmaReadStep(fs: Fs, n: int, filp: File, count: int, buf: seq<byte>, filp': File, left: int)
    requires ReadSoFar(fs, n, filp, count, buf, filp', left) && 0 < left && filp'.pos / BLOCK_SIZE < MAX_BLOCKS
    ensures Sound(fs) && 0 <= n < |fs.inodes|
    ensures var c := Min(BLOCK_SIZE - filp'.pos % BLOCK_SIZE, left);
      && 0 < c <= left && filp'.pos % BLOCK_SIZE + c <= BLOCK_SIZE
      && ReadSoFar(fs, n, filp, count, buf + Chunk(fs, Bmap(fs, n, filp'.pos / BLOCK_SIZE), filp'.pos % BLOCK_SIZE, c),
           filp'.(pos := filp'.pos + c), left - c)
  {
    hide Sound, Chunk, Bmap;
    var c := Min(BLOCK_SIZE - filp'.pos % BLOCK_SIZE, left);
    var chunk := Chunk(fs, Bmap(fs, n, filp'.pos / BLOCK_SIZE), filp'.pos % BLOCK_SIZE, c);
    var rest := Read(fs, n, filp'.pos + c, left - c);
    assert rest.Some? ==> buf + (chunk + rest.value) == (buf + chunk) + rest.value;
  }

  // What file_write still has to store completes what it has stored; nothing does once it stopped.
  ghost predicate WrittenSoFar(fs: Fs, n: int, filp: File, buf: seq<byte>, g: Fs, pos: int, i: int, ok: bool) {
    && Sound(fs) && Sound(g) && 0 <= n < |fs.inodes| && 0 <= n < |g.inodes| && 0 <= filp.pos && 0 <= i <= |buf|
    && var start := if filp.append then fs.inodes[n].size else filp.pos;
       && 0 <= start && pos == start + i
       && Write(fs, n, start, buf, 0) == if ok then Write(g, n, pos, buf, i) else Some((g, i))
  }

  lemma LemmaWriteStart(fs: Fs, n: int, filp: File, buf: seq<byte>, owner: Owner)
    requires Inv(fs, owner) && 0 <= n < |fs.inodes| && 0 <= filp.pos
    ensures WrittenSoFar(fs, n, filp, buf, fs, if filp.append then fs.inodes[n].size else filp.pos, 0, true)
  {
  }

  lemma LemmaWriteEnd(fs: Fs, n: int, filp: File, buf: seq<byte>, g: Fs, pos: int, i: int, ok: bool)
    requires WrittenSoFar(fs, n, filp, buf, g, pos, i, ok) && (!ok || i == |buf|)
    ensures WritesAs(fs, n, filp, buf, g, if i > 0 then i else -1, if filp.append then filp else filp.(pos := pos), false)
  {
  }

  lemma LemmaWriteStep(fs: Fs, n: int, filp: File, buf: seq<byte>, g: Fs, owner: Owner, pos: int, i: int)
    requires WrittenSoFar(fs, n, filp, buf, g, pos, i, true) && 0 <= i < |buf| && Inv(g, owner)
    ensures Sound(g) && 0 <= n < |g.inodes| && 0 <= pos
    ensures pos / BLOCK_SIZE >= MAX_BLOCKS ==> forall k, f :: WritesAs(fs, n, filp, buf, g, k, f, true)
    ensures pos / BLOCK_SIZE < MAX_BLOCKS ==>
      var (h, z) := CreateBlock(g, n, pos / BLOCK_SIZE);
      var c := Min(BLOCK_SIZE - pos % BLOCK_SIZE, |buf| - i);
      && 0 < c <= |buf| - i && pos % BLOCK_SIZE + c <= BLOCK_SIZE && 0 <= n < |h.inodes|
      && if z == 0 then WrittenSoFar(fs, n, filp, buf, h, pos, i, false)
         else WrittenSoFar(fs, n, filp, buf, Patch(Grown(h, n, pos + c), z, pos % BLOCK_SIZE, buf[i..i + c]), pos + c, i + c, true)
  {
    hide CreateBlock, Tables, Numbers, Inodes, Inv;
  }

  lemma LemmaBlockSize(fs: Fs, z: int)
    requires Sound(fs) && 0 < z < fs.nzones
    ensures |fs.data[z]| == BLOCK_SIZE
  {
  }

  // The slot for place k of i_zone.
  function InInode(n: int, k: int): Slot
    requires 0 <= k < 9
  {
    if k < 7 then Direct(n, k) else if k == 7 then Ind(n) else Dind(n)
  }

  lemma LemmaIndex(fs: Fs, s: Slot)
    requires Sound(fs) && IsSlot(fs, s) && Parent(s).Some? && BlockOf(fs, s) != 0
    ensures 0 < BlockOf(fs, s) < |fs.tab| && 0 <= Index(s) < |fs.tab[BlockOf(fs, s)]| == PER_BLOCK
    ensures At(fs, s) == fs.tab[BlockOf(fs, s)][Index(s)]
  {
  }
}

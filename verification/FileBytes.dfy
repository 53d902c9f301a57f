/** fs/file_dev.c: reading and writing a regular file is reading and writing a flat array of bytes. */
module FileBytes {
  import opened Basics
  import opened Bytes
  import opened Wrappers
  import opened Zones

  const MAX_BYTES: int := MAX_BLOCKS * BLOCK_SIZE

  // The byte of file n at a position; what was never written reads as zero.
  function Byte(fs: Fs, n: int, p: int): byte
    requires Sound(fs) && 0 <= n < |fs.inodes| && 0 <= p < MAX_BYTES
  {
    var z := Bmap(fs, n, p / BLOCK_SIZE);
    if z == 0 then 0 else fs.data[z][p % BLOCK_SIZE]
  }

  /** Byte 1024 * b + o of a file is byte o of the zone of its block b, and 0 in a hole. */
  lemma LemmaByteAt(fs: Fs, n: int, b: int, o: int)
    requires Sound(fs) && 0 <= n < |fs.inodes| && 0 <= b < MAX_BLOCKS && 0 <= o < 1024
    ensures var z := Bmap(fs, n, b); Byte(fs, n, 1024 * b + o) == if z == 0 then 0 else fs.data[z][o]
  {
    assert (1024 * b + o) / BLOCK_SIZE == b && (1024 * b + o) % BLOCK_SIZE == o;
  }

  // Overwriting the bytes of zone z from offset o on.
  function Patch(fs: Fs, z: int, o: int, s: seq<byte>): (r: Fs)
    requires Sound(fs) && 0 <= z < |fs.data| && 0 <= o && o + |s| <= BLOCK_SIZE
    ensures Sound(r)
  {
    fs.(data := fs.data[z := fs.data[z][..o] + s + fs.data[z][o + |s|..]])
  }

  function Grown(fs: Fs, n: int, size: int): (r: Fs)
    requires Sound(fs) && 0 <= n < |fs.inodes|
    ensures Sound(r)
  {
    if size > fs.inodes[n].size then fs.(inodes := fs.inodes[n := fs.inodes[n].(size := size)]) else fs
  }

  // The loop of file_write from byte i of the buffer on: the state, and how many bytes got written.
  // None is the panic of _bmap on a block past the largest file.
  function Write(fs: Fs, n: int, pos: int, buf: seq<byte>, i: int): (r: Option<(Fs, int)>)
    requires Sound(fs) && 0 <= n < |fs.inodes| && 0 <= pos && 0 <= i <= |buf|
    ensures r.Some? ==> Sound(r.value.0) && i <= r.value.1 <= |buf|
    decreases |buf| - i
  {
    if i == |buf| then Some((fs, i))
    else if pos / BLOCK_SIZE >= MAX_BLOCKS then None
    else
      var (fs1, z) := CreateBlock(fs, n, pos / BLOCK_SIZE);
      if z == 0 then Some((fs1, i))
      else
        var o := pos % BLOCK_SIZE;
        var c := Min(BLOCK_SIZE - o, |buf| - i);
        Write(Patch(Grown(fs1, n, pos + c), z, o, buf[i..i + c]), n, pos + c, buf, i + c)
  }

  // ---------------------------------------------------------------- one block

  // Every file of fs has in g the bytes it had.
  ghost predicate SameBytes(fs: Fs, g: Fs)
    requires Sound(fs) && Sound(g)
  {
    && |g.inodes| == |fs.inodes|
    && forall m, p :: 0 <= m < |fs.inodes| && 0 <= p < MAX_BYTES ==> Byte(g, m, p) == Byte(fs, m, p)
  }

  // The same, but for s at pos of file n.
  ghost predicate BytesWrote(fs: Fs, g: Fs, n: int, pos: int, s: seq<byte>)
    requires Sound(fs) && Sound(g) && 0 <= n < |fs.inodes|
  {
    && |g.inodes| == |fs.inodes|
    && forall m, p :: 0 <= m < |fs.inodes| && 0 <= p < MAX_BYTES ==>
         Byte(g, m, p) == if m == n && pos <= p < pos + |s| then s[p - pos] else Byte(fs, m, p)
  }

  ghost predicate SizesWrote(fs: Fs, g: Fs, n: int, pos: int, c: nat)
    requires 0 <= n < |fs.inodes|
  {
    && |g.inodes| == |fs.inodes|
    && forall m :: 0 <= m < |fs.inodes| ==>
         && g.inodes[m].plain == fs.inodes[m].plain
         && g.inodes[m].size == if m == n && c > 0 then Max(fs.inodes[n].size, pos + c) else fs.inodes[m].size
  }

  // Giving a block a zone does not change what anybody reads: new zones are zero.
  lemma LemmaCreatedBytes(fs: Fs, owner: Owner, n: int, block: int) returns (owner': Owner)
    requires Inv(fs, owner) && 0 <= n < |fs.inodes| && 0 <= block < MAX_BLOCKS
    ensures var (g, z) := CreateBlock(fs, n, block);
      && Inv(g, owner') && |g.inodes| == |fs.inodes| && z == Bmap(g, n, block)
      && SameBytes(fs, g)
      && (forall m :: 0 <= m < |fs.inodes| ==> g.inodes[m] == fs.inodes[m].(zone := g.inodes[m].zone))
      && (z == 0 ==> forall y :: g.first <= y < g.nzones ==> Used(g, y))
  {
    owner' := LemmaCreateBlock(fs, owner, n, block);
    var (g, z) := CreateBlock(fs, n, block);
    hide Owned, Tables, Numbers, Inodes, CreateBlock, Bmap;
    forall m, p | 0 <= m < |fs.inodes| && 0 <= p < MAX_BYTES
      ensures Byte(g, m, p) == Byte(fs, m, p)
    {
      LemmaCreatedByte(fs, g, n, block, z, m, p);
    }
  }

  lemma LemmaCreatedByte(fs: Fs, g: Fs, n: int, block: int, z: int, m: int, p: int)
    requires Sound(fs) && Sound(g) && 0 <= n < |fs.inodes| && |g.inodes| == |fs.inodes| && 0 <= block < MAX_BLOCKS
    requires 0 <= m < |fs.inodes| && 0 <= p < MAX_BYTES && z == Bmap(g, n, block)
    requires Bmap(fs, n, block) != 0 ==> g == fs
    requires z != 0 && Bmap(fs, n, block) == 0 ==> g.data[z] == ZeroData()
    requires (m, p / BLOCK_SIZE) != (n, block) ==> Bmap(g, m, p / BLOCK_SIZE) == Bmap(fs, m, p / BLOCK_SIZE)
    requires Bmap(fs, m, p / BLOCK_SIZE) != 0 ==> g.data[Bmap(fs, m, p / BLOCK_SIZE)] == fs.data[Bmap(fs, m, p / BLOCK_SIZE)]
    ensures Byte(g, m, p) == Byte(fs, m, p)
  {
    hide Bmap;
  }

  // Writing into the zone of one block changes those bytes of that file only.
  lemma LemmaPatchedBytes(fs: Fs, owner: Owner, n: int, pos: int, s: seq<byte>)
    requires Inv(fs, owner) && 0 <= n < |fs.inodes| && 0 <= pos < MAX_BYTES && pos % BLOCK_SIZE + |s| <= BLOCK_SIZE
    requires Bmap(fs, n, pos / BLOCK_SIZE) != 0
    ensures var g := Patch(fs, Bmap(fs, n, pos / BLOCK_SIZE), pos % BLOCK_SIZE, s);
      && Inv(g, owner)
      && BytesWrote(fs, g, n, pos, s)
  {
    var z := Bmap(fs, n, pos / BLOCK_SIZE);
    var g := Patch(fs, z, pos % BLOCK_SIZE, s);
    LemmaDataOnly(fs, owner, g);
    hide Owned, Tables, Numbers, Inodes, At, Byte, Bmap, Patch, Used;
    forall m, p | 0 <= m < |fs.inodes| && 0 <= p < MAX_BYTES
      ensures Byte(g, m, p) == if m == n && pos <= p < pos + |s| then s[p - pos] else Byte(fs, m, p)
    {
      LemmaPatchedByte(fs, owner, n, pos, s, m, p);
    }
  }

  lemma LemmaPatchedByte(fs: Fs, owner: Owner, n: int, pos: int, s: seq<byte>, m: int, p: int)
    requires Inv(fs, owner) && 0 <= n < |fs.inodes| && 0 <= pos < MAX_BYTES && pos % BLOCK_SIZE + |s| <= BLOCK_SIZE
    requires Bmap(fs, n, pos / BLOCK_SIZE) != 0 && 0 <= m < |fs.inodes| && 0 <= p < MAX_BYTES
    ensures Byte(Patch(fs, Bmap(fs, n, pos / BLOCK_SIZE), pos % BLOCK_SIZE, s), m, p)
         == if m == n && pos <= p < pos + |s| then s[p - pos] else Byte(fs, m, p)
  {
    var z := Bmap(fs, n, pos / BLOCK_SIZE);
    LemmaDataOnlyAt(fs, Patch(fs, z, pos % BLOCK_SIZE, s), Leaf(m, p / BLOCK_SIZE));
    hide Owned, Tables, Numbers, Inodes, At;
    if Bmap(fs, m, p / BLOCK_SIZE) == z {
      LemmaOneUse(fs, owner, Leaf(m, p / BLOCK_SIZE), Leaf(n, pos / BLOCK_SIZE));
      LemmaLeaves(m, p / BLOCK_SIZE, n, pos / BLOCK_SIZE);
      LemmaSizeOf(fs, z);
      LemmaPatch(fs.data[z], pos % BLOCK_SIZE, s, p % BLOCK_SIZE);
    } else if m == n && pos <= p < pos + |s| {
      LemmaSameBlock(pos, |s|, p);
    }
  }

  lemma LemmaSizeOf(fs: Fs, z: int)
    requires Sound(fs) && 0 <= z < |fs.data|
    ensures |fs.data[z]| == BLOCK_SIZE
  {
  }

  lemma LemmaSameBlock(pos: int, c: int, p: int)
    requires 0 <= pos <= p < pos + c && pos % BLOCK_SIZE + c <= BLOCK_SIZE
    ensures p / BLOCK_SIZE == pos / BLOCK_SIZE && p % BLOCK_SIZE == pos % BLOCK_SIZE + p - pos
  {
  }

  lemma LemmaPatch(d: seq<byte>, o: int, s: seq<byte>, k: int)
    requires |d| == BLOCK_SIZE && 0 <= o && o + |s| <= BLOCK_SIZE && 0 <= k < BLOCK_SIZE
    ensures (d[..o] + s + d[o + |s|..])[k] == if o <= k < o + |s| then s[k - o] else d[k]
  {
  }

  // The slots and the bitmap do not depend on bytes or sizes.
  lemma LemmaDataOnly(fs: Fs, owner: Owner, g: Fs)
    requires Inv(fs, owner) && Sound(g) && g == fs.(data := g.data, inodes := g.inodes) && |g.inodes| == |fs.inodes|
    requires forall m :: 0 <= m < |fs.inodes| ==> g.inodes[m].zone == fs.inodes[m].zone
    ensures Inv(g, owner) && forall s :: IsSlot(fs, s) ==> At(g, s) == At(fs, s)
  {
    forall s | IsSlot(fs, s)
      ensures At(g, s) == At(fs, s)
    {
      LemmaDataOnlyAt(fs, g, s);
    }
    hide At, Tables, Numbers, Inodes;
    assert forall s :: IsSlot(g, s) <==> IsSlot(fs, s);
    assert forall z :: fs.first <= z < fs.nzones ==> Used(g, z) == Used(fs, z);
  }

  lemma {:induction false} LemmaDataOnlyAt(fs: Fs, g: Fs, s: Slot)
    requires Sound(fs) && Sound(g) && g == fs.(data := g.data, inodes := g.inodes) && |g.inodes| == |fs.inodes|
    requires forall m :: 0 <= m < |fs.inodes| ==> g.inodes[m].zone == fs.inodes[m].zone
    requires IsSlot(fs, s)
    ensures At(g, s) == At(fs, s)
    decreases Depth(s)
  {
    if Parent(s).Some? {
      LemmaDataOnlyAt(fs, g, Parent(s).value);
    }
  }

  lemma LemmaGrown(fs: Fs, owner: Owner, n: int, size: int)
    requires Inv(fs, owner) && 0 <= n < |fs.inodes|
    ensures var g := Grown(fs, n, size);
      && Inv(g, owner) && |g.inodes| == |fs.inodes| && g == fs.(inodes := g.inodes)
      && SameBytes(fs, g)
      && (forall m, b :: 0 <= m < |fs.inodes| && 0 <= b < MAX_BLOCKS ==> Bmap(g, m, b) == Bmap(fs, m, b))
      && (forall m :: 0 <= m < |fs.inodes| ==> g.inodes[m].plain == fs.inodes[m].plain)
      && (forall m :: 0 <= m < |fs.inodes| ==> g.inodes[m].size == if m == n then Max(fs.inodes[n].size, size) else fs.inodes[m].size)
  {
    LemmaDataOnly(fs, owner, Grown(fs, n, size));
    hide Owned, Tables, Numbers, Inodes, At;
    var g := Grown(fs, n, size);
    forall m, b | 0 <= m < |fs.inodes| && 0 <= b < MAX_BLOCKS
      ensures Bmap(g, m, b) == Bmap(fs, m, b)
    {
      assert IsSlot(fs, Leaf(m, b));
    }
  }

  // g is fs with the bytes s written at pos of file n; the kinds of files stay.
  ghost predicate Wrote(fs: Fs, g: Fs, n: int, pos: int, s: seq<byte>)
    requires Sound(fs) && Sound(g) && 0 <= n < |fs.inodes|
  {
    BytesWrote(fs, g, n, pos, s) && SizesWrote(fs, g, n, pos, |s|)
  }

  lemma LemmaChunk(fs: Fs, owner: Owner, n: int, pos: int, s: seq<byte>) returns (owner': Owner)
    requires Inv(fs, owner) && 0 <= n < |fs.inodes| && 0 <= pos < MAX_BYTES && 0 < |s| && pos % BLOCK_SIZE + |s| <= BLOCK_SIZE
    requires CreateBlock(fs, n, pos / BLOCK_SIZE).1 != 0
    ensures var (g, z) := CreateBlock(fs, n, pos / BLOCK_SIZE);
      && 0 <= n < |g.inodes| && 0 <= z < |g.data|
      && var h := Patch(Grown(g, n, pos + |s|), z, pos % BLOCK_SIZE, s);
         Inv(h, owner') && Wrote(fs, h, n, pos, s)
  {
    hide Owned, Tables, Numbers, Inodes, CreateBlock, Byte, Bmap, SameBytes, BytesWrote, SizesWrote, At;
    var block := pos / BLOCK_SIZE;
    owner' := LemmaCreatedBytes(fs, owner, n, block);
    var (g, z) := CreateBlock(fs, n, block);
    LemmaGrown(g, owner', n, pos + |s|);
    var h := Grown(g, n, pos + |s|);
    assert Bmap(h, n, block) == Bmap(g, n, block);
    LemmaPatchedBytes(h, owner', n, pos, s);
    var r := Patch(h, z, pos % BLOCK_SIZE, s);
    LemmaSameThenWrote(fs, g, h, r, n, pos, s);
    LemmaGrownSizes(fs, g, h, r, n, pos, |s|);
  }

  lemma LemmaSameThenWrote(fs: Fs, g: Fs, h: Fs, r: Fs, n: int, pos: int, s: seq<byte>)
    requires Sound(fs) && Sound(g) && Sound(h) && Sound(r) && 0 <= n < |fs.inodes|
    requires SameBytes(fs, g) && SameBytes(g, h) && BytesWrote(h, r, n, pos, s)
    ensures BytesWrote(fs, r, n, pos, s)
  {
    hide Sound, Byte;
  }

  lemma LemmaGrownSizes(fs: Fs, g: Fs, h: Fs, r: Fs, n: int, pos: int, c: nat)
    requires 0 <= n < |fs.inodes| && |g.inodes| == |fs.inodes| && |h.inodes| == |fs.inodes| && r.inodes == h.inodes && c > 0
    requires forall m :: 0 <= m < |fs.inodes| ==> g.inodes[m] == fs.inodes[m].(zone := g.inodes[m].zone)
    requires forall m :: 0 <= m < |fs.inodes| ==> h.inodes[m].size == if m == n then Max(g.inodes[n].size, pos + c) else g.inodes[m].size
    requires forall m :: 0 <= m < |fs.inodes| ==> h.inodes[m].plain == g.inodes[m].plain
    ensures SizesWrote(fs, r, n, pos, c)
  {
  }

  /** file_write: the bytes before the first one that did not fit are written at the position, the
      rest of this file and all of the others read as before, and the size grows to the last byte
      written; it stops early only on a full device, and panics only past the largest file. */
  lemma {:induction false} LemmaWrite(fs: Fs, owner: Owner, n: int, pos: int, buf: seq<byte>, i: int) returns (owner': Owner)
    requires Inv(fs, owner) && 0 <= n < |fs.inodes| && 0 <= pos && 0 <= i <= |buf|
    ensures pos + |buf| - i <= MAX_BYTES ==> Write(fs, n, pos, buf, i).Some?
    ensures Write(fs, n, pos, buf, i).Some? ==>
      var (g, done) := Write(fs, n, pos, buf, i).value;
      && Inv(g, owner') && Wrote(fs, g, n, pos, buf[i..done]) && (done > i ==> pos + done - i <= MAX_BYTES)
      && (done < |buf| ==> forall y :: g.first <= y < g.nzones ==> Used(g, y))
    decreases |buf| - i
  {
    hide Owned, Tables, Numbers, Inodes, CreateBlock, Byte, Bmap, At, Wrote, SameBytes, Patch, Grown, Write;
    owner' := owner;
    if i == |buf| {
      LemmaWriteNothing(fs, n, pos, buf);
      assert buf[i..i] == [];
    } else if pos >= MAX_BYTES {
      LemmaWritePast(fs, n, pos, buf, i);
    } else {
      LemmaWriteRound(fs, n, pos, buf, i);
      var (g, z) := CreateBlock(fs, n, pos / BLOCK_SIZE);
      if z == 0 {
        owner' := LemmaCreatedBytes(fs, owner, n, pos / BLOCK_SIZE);
        LemmaWroteNothing(fs, g, n, pos);
        assert buf[i..i] == [];
      } else {
        var c := Min(BLOCK_SIZE - pos % BLOCK_SIZE, |buf| - i);
        var s := buf[i..i + c];
        var owner1 := LemmaChunk(fs, owner, n, pos, s);
        var h := Patch(Grown(g, n, pos + c), z, pos % BLOCK_SIZE, s);
        LemmaWroteSameInodes(fs, h, n, pos, s);
        owner' := LemmaWrite(h, owner1, n, pos + c, buf, i + c);
        if Write(h, n, pos + c, buf, i + c).Some? {
          var (r, done) := Write(h, n, pos + c, buf, i + c).value;
          LemmaWroteTwice(fs, h, r, n, pos, s, buf[i + c..done]);
          assert s + buf[i + c..done] == buf[i..done];
        }
      }
    }
  }

  lemma LemmaWritePast(fs: Fs, n: int, pos: int, buf: seq<byte>, i: int)
    requires Sound(fs) && 0 <= n < |fs.inodes| && MAX_BYTES <= pos && 0 <= i < |buf|
    ensures Write(fs, n, pos, buf, i).None?
  {
  }

  lemma LemmaWriteNothing(fs: Fs, n: int, pos: int, buf: seq<byte>)
    requires Sound(fs) && 0 <= n < |fs.inodes| && 0 <= pos
    ensures Write(fs, n, pos, buf, |buf|) == Some((fs, |buf|)) && Wrote(fs, fs, n, pos, [])
  {
  }

  // One round of file_write.
  lemma LemmaWriteRound(fs: Fs, n: int, pos: int, buf: seq<byte>, i: int)
    requires Sound(fs) && 0 <= n < |fs.inodes| && 0 <= pos < MAX_BYTES && 0 <= i < |buf|
    ensures var (g, z) := CreateBlock(fs, n, pos / BLOCK_SIZE);
      if z == 0 then Write(fs, n, pos, buf, i) == Some((g, i))
      else
        var c := Min(BLOCK_SIZE - pos % BLOCK_SIZE, |buf| - i);
        && 0 < c <= |buf| - i && pos % BLOCK_SIZE + c <= BLOCK_SIZE && pos + c <= MAX_BYTES && 0 < z < |g.data|
        && Grown(g, n, pos + c).data == g.data
        && Write(fs, n, pos, buf, i)
             == Write(Patch(Grown(g, n, pos + c), z, pos % BLOCK_SIZE, buf[i..i + c]), n, pos + c, buf, i + c)
  {
    hide Tables, Numbers, Inodes, CreateBlock;
  }

  lemma LemmaWroteNothing(fs: Fs, g: Fs, n: int, pos: int)
    requires Sound(fs) && Sound(g) && 0 <= n < |fs.inodes| && SameBytes(fs, g)
    requires forall m :: 0 <= m < |fs.inodes| ==> g.inodes[m] == fs.inodes[m].(zone := g.inodes[m].zone)
    ensures Wrote(fs, g, n, pos, [])
  {
    hide Sound, Byte;
  }

  lemma LemmaWroteSameInodes(fs: Fs, g: Fs, n: int, pos: int, s: seq<byte>)
    requires Sound(fs) && Sound(g) && 0 <= n < |fs.inodes| && Wrote(fs, g, n, pos, s)
    ensures |g.inodes| == |fs.inodes| && forall m :: 0 <= m < |fs.inodes| ==> g.inodes[m].plain == fs.inodes[m].plain
  {
    hide Sound, Byte;
  }

  lemma LemmaWroteTwice(fs: Fs, g: Fs, h: Fs, n: int, pos: int, s: seq<byte>, t: seq<byte>)
    requires Sound(fs) && Sound(g) && Sound(h) && 0 <= n < |fs.inodes| && 0 <= pos
    requires Wrote(fs, g, n, pos, s) && Wrote(g, h, n, pos + |s|, t)
    ensures Wrote(fs, h, n, pos, s + t)
  {
    hide Sound, Byte;
  }

  // Bytes at and beyond the size of the file read as zero.
  ghost predicate ZeroTail(fs: Fs, n: int)
    requires Sound(fs) && 0 <= n < |fs.inodes|
  {
    forall p :: fs.inodes[n].size <= p < MAX_BYTES ==> Byte(fs, n, p) == 0
  }

  lemma LemmaZeroTail(fs: Fs, g: Fs, n: int, pos: int, s: seq<byte>, m: int)
    requires Sound(fs) && Sound(g) && 0 <= n < |fs.inodes| && 0 <= m < |fs.inodes| && 0 <= pos
    requires Wrote(fs, g, n, pos, s) && ZeroTail(fs, m)
    ensures ZeroTail(g, m)
  {
    hide Sound, Byte;
  }

  // ---------------------------------------------------------------- reading

  // What one round of file_read copies out of zone z, or out of a hole.
  function Chunk(fs: Fs, z: int, o: int, c: nat): (s: seq<byte>)
    requires Sound(fs) && InZones(fs, z) && 0 <= o && o + c <= BLOCK_SIZE
    ensures |s| == c
  {
    if z != 0 then fs.data[z][o..o + c] else seq(c, _ => 0 as byte)
  }

  lemma LemmaChunkBytes(fs: Fs, n: int, pos: int, c: nat)
    requires Sound(fs) && 0 <= n < |fs.inodes| && 0 <= pos && pos + c <= MAX_BYTES && pos < MAX_BYTES && pos % BLOCK_SIZE + c <= BLOCK_SIZE
    ensures forall k :: 0 <= k < c ==> Chunk(fs, Bmap(fs, n, pos / BLOCK_SIZE), pos % BLOCK_SIZE, c)[k] == Byte(fs, n, pos + k)
  {
    hide Numbers, Inodes, At;
    forall k | 0 <= k < c
      ensures Chunk(fs, Bmap(fs, n, pos / BLOCK_SIZE), pos % BLOCK_SIZE, c)[k] == Byte(fs, n, pos + k)
    {
      LemmaSameBlock(pos, c, pos + k);
    }
  }

  // The loop of file_read; None is the panic of _bmap.
  function Read(fs: Fs, n: int, pos: int, left: int): (r: Option<seq<byte>>)
    requires Sound(fs) && 0 <= n < |fs.inodes| && 0 <= pos && 0 <= left
    decreases left
  {
    if left == 0 then Some([])
    else if pos / BLOCK_SIZE >= MAX_BLOCKS then None
    else
      var z := Bmap(fs, n, pos / BLOCK_SIZE);
      var o := pos % BLOCK_SIZE;
      var c := Min(BLOCK_SIZE - o, left);
      var rest :- Read(fs, n, pos + c, left - c);
      Some(Chunk(fs, z, o, c) + rest)
  }

  /** file_read returns the bytes of the flat array, holes as zeros, across all block boundaries. */
  lemma {:induction false} LemmaRead(fs: Fs, n: int, pos: int, left: int)
    requires Sound(fs) && 0 <= n < |fs.inodes| && 0 <= pos && 0 <= left && pos + left <= MAX_BYTES
    ensures Read(fs, n, pos, left).Some? && |Read(fs, n, pos, left).value| == left
    ensures forall k :: 0 <= k < left ==> Read(fs, n, pos, left).value[k] == Byte(fs, n, pos + k)
    decreases left
  {
    hide Sound, Byte, Bmap, Chunk;
    if left > 0 {
      var o := pos % BLOCK_SIZE;
      var c := Min(BLOCK_SIZE - o, left);
      LemmaRead(fs, n, pos + c, left - c);
      LemmaChunkBytes(fs, n, pos, c);
      var head := Chunk(fs, Bmap(fs, n, pos / BLOCK_SIZE), o, c);
      var rest := Read(fs, n, pos + c, left - c).value;
      forall k | 0 <= k < left
        ensures (head + rest)[k] == Byte(fs, n, pos + k)
      {
        if k >= c {
          assert (head + rest)[k] == rest[k - c];
        }
      }
    }
  }

  /** Reading back what was just written gives the same bytes. */
  lemma LemmaRoundTrip(fs: Fs, owner: Owner, n: int, pos: int, buf: seq<byte>)
    requires Inv(fs, owner) && 0 <= n < |fs.inodes| && 0 <= pos
    ensures pos + |buf| <= MAX_BYTES ==> Write(fs, n, pos, buf, 0).Some?
    ensures Write(fs, n, pos, buf, 0).Some? ==>
      var (g, done) := Write(fs, n, pos, buf, 0).value;
      && |g.inodes| == |fs.inodes| && (done > 0 ==> pos + done <= g.inodes[n].size)
      && Read(g, n, pos, done) == Some(buf[..done])
  {
    hide Owned, Tables, Numbers, Inodes, Write, Read, Byte;
    var owner' := LemmaWrite(fs, owner, n, pos, buf, 0);
    if Write(fs, n, pos, buf, 0).Some? {
      var (g, done) := Write(fs, n, pos, buf, 0).value;
      if done == 0 {
        LemmaReadNothing(g, n, pos);
      } else {
        LemmaRead(g, n, pos, done);
        assert Read(g, n, pos, done).value == buf[..done];
      }
    }
  }

  lemma LemmaReadNothing(fs: Fs, n: int, pos: int)
    requires Sound(fs) && 0 <= n < |fs.inodes| && 0 <= pos
    ensures Read(fs, n, pos, 0) == Some([])
  {
  }

  // ---------------------------------------------------------------- files as flat sequences

  // A file as its readers see it: i_size bytes.
  ghost function Contents(fs: Fs, n: int): (s: seq<byte>)
    requires Sound(fs) && 0 <= n < |fs.inodes| && fs.inodes[n].size <= MAX_BYTES
    ensures |s| == fs.inodes[n].size
  {
    seq(fs.inodes[n].size, p requires 0 <= p < fs.inodes[n].size => Byte(fs, n, p))
  }

  function Zeros(c: nat): seq<byte> { seq(c, _ => 0 as byte) }

  // Overwriting a sequence at a position; a gap between its end and the position fills with zeros.
  function Spliced(s: seq<byte>, pos: nat, t: seq<byte>): seq<byte> {
    if t == [] then s
    else
      var head := if pos <= |s| then s[..pos] else s + Zeros(pos - |s|);
      head + t + if pos + |t| <= |s| then s[pos + |t|..] else []
  }

  /** What a write does to the files as sequences: the one it goes to is spliced, the others stay. */
  lemma LemmaFlatWrite(fs: Fs, owner: Owner, n: int, pos: nat, buf: seq<byte>, m: int)
    requires Inv(fs, owner) && 0 <= n < |fs.inodes|
    requires 0 <= m < |fs.inodes| && fs.inodes[m].size <= MAX_BYTES && ZeroTail(fs, m)
    ensures pos + |buf| <= MAX_BYTES ==> Write(fs, n, pos, buf, 0).Some?
    ensures Write(fs, n, pos, buf, 0).Some? ==>
      var (g, done) := Write(fs, n, pos, buf, 0).value;
      && |g.inodes| == |fs.inodes| && g.inodes[m].size <= MAX_BYTES && ZeroTail(g, m)
      && Contents(g, m) == (if m == n then Spliced(Contents(fs, m), pos, buf[..done]) else Contents(fs, m))
      && (done < |buf| ==> forall y :: g.first <= y < g.nzones ==> Used(g, y))
  {
    hide Owned, Tables, Numbers, Inodes, Write, Byte;
    var owner' := LemmaWrite(fs, owner, n, pos, buf, 0);
    if Write(fs, n, pos, buf, 0).Some? {
      var (g, done) := Write(fs, n, pos, buf, 0).value;
      LemmaZeroTail(fs, g, n, pos, buf[..done], m);
      assert buf[0..done] == buf[..done];
      LemmaSpliced(fs, g, n, pos, buf[..done], m);
    }
  }

  lemma LemmaSpliced(fs: Fs, g: Fs, n: int, pos: nat, s: seq<byte>, m: int)
    requires Sound(fs) && Sound(g) && 0 <= n < |fs.inodes| && 0 <= m < |fs.inodes| && Wrote(fs, g, n, pos, s)
    requires ZeroTail(fs, m) && fs.inodes[m].size <= MAX_BYTES && g.inodes[m].size <= MAX_BYTES
    ensures Contents(g, m) == if m == n then Spliced(Contents(fs, m), pos, s) else Contents(fs, m)
  {
    hide Sound, Byte;
    var want := if m == n then Spliced(Contents(fs, m), pos, s) else Contents(fs, m);
    assert |Contents(g, m)| == |want|;
    forall p | 0 <= p < |want|
      ensures Contents(g, m)[p] == want[p]
    {
      assert Contents(g, m)[p] == Byte(g, m, p);
    }
  }

  // sys_read's cut at the end of the file.
  function Cut(size: nat, pos: nat, count: int): (c: int)
    ensures c > 0 ==> c <= count && pos + c <= size
  {
    if count + pos > size then size - pos else count
  }

  /** sys_read of a plain file: the stretch of the sequence, shorter at its end, and nothing beyond. */
  lemma LemmaFlatRead(fs: Fs, n: int, pos: nat, count: nat)
    requires Sound(fs) && 0 <= n < |fs.inodes| && fs.inodes[n].size <= MAX_BYTES
    ensures var c := Cut(fs.inodes[n].size, pos, count);
      if c <= 0 then count == 0 || pos >= |Contents(fs, n)|
      else Read(fs, n, pos, c) == Some(Contents(fs, n)[pos..Min(pos + count, |Contents(fs, n)|)])
  {
    hide Sound, Read, Byte;
    var c := Cut(fs.inodes[n].size, pos, count);
    if c > 0 {
      LemmaRead(fs, n, pos, c);
      assert Read(fs, n, pos, c).value == Contents(fs, n)[pos..pos + c];
    }
  }

  // ---------------------------------------------------------------- truncate

  /** truncate of a regular file or directory empties it and leaves the bytes of all the others. */
  lemma LemmaFlatTruncate(fs: Fs, owner: Owner, n: int, m: int)
    requires Inv(fs, owner) && 0 <= n < |fs.inodes| && fs.inodes[n].plain
    requires 0 <= m < |fs.inodes| && fs.inodes[m].size <= MAX_BYTES && ZeroTail(fs, m)
    ensures Truncate(fs, n).Some?
    ensures var g := Truncate(fs, n).value;
      && |g.inodes| == |fs.inodes| && g.inodes[m].size <= MAX_BYTES && ZeroTail(g, m)
      && Contents(g, m) == if m == n then [] else Contents(fs, m)
  {
    LemmaTruncate(fs, owner, n);
    hide Owned, Tables, Numbers, Inodes, Truncate, Byte, At;
    var g := Truncate(fs, n).value;
    forall p | 0 <= p < MAX_BYTES
      ensures Byte(g, m, p) == if m == n then 0 else Byte(fs, m, p)
    {
      LemmaTruncatedByte(fs, g, n, m, p);
    }
    assert m != n ==> Contents(g, m) == Contents(fs, m);
  }

  lemma LemmaTruncatedByte(fs: Fs, g: Fs, n: int, m: int, p: int)
    requires Sound(fs) && Sound(g) && |g.inodes| == |fs.inodes| && g.data == fs.data
    requires 0 <= n < |fs.inodes| && 0 <= m < |fs.inodes| && 0 <= p < MAX_BYTES
    requires forall s :: IsSlot(fs, s) ==> At(g, s) == if s.n == n then 0 else At(fs, s)
    ensures Byte(g, m, p) == if m == n then 0 else Byte(fs, m, p)
  {
    hide Tables, Numbers, Inodes, At;
    assert IsSlot(fs, Leaf(m, p / BLOCK_SIZE));
  }

  // ---------------------------------------------------------------- runs

  datatype FileEvent =
    | Writes(n: int, pos: nat, buf: seq<byte>)
    | Reads(n: int, pos: nat, count: nat)
    | Empties(n: int)

  // One call: the state after it, and what it returns: the bytes read, or those that got written.
  function FileStep(fs: Fs, e: FileEvent): (r: Option<(Fs, seq<byte>)>)
    requires Sound(fs)
    ensures r.Some? ==> Sound(r.value.0)
  {
    if !(0 <= e.n < |fs.inodes|) then Some((fs, []))
    else match e
      case Writes(n, pos, buf) =>
        var (g, done) :- Write(fs, n, pos, buf, 0);
        Some((g, buf[..done]))
      case Reads(n, pos, count) =>
        var c := Cut(fs.inodes[n].size, pos, count);
        if c <= 0 then Some((fs, []))
        else
          var s :- Read(fs, n, pos, c);
          Some((fs, s))
      case Empties(n) =>
        var g :- Truncate(fs, n);
        Some((g, []))
  }

  // The same on plain sequences; done is how much of a write there was room for.
  ghost function FlatStep(files: seq<seq<byte>>, plain: seq<bool>, e: FileEvent, done: nat): (r: (seq<seq<byte>>, seq<byte>))
    requires |plain| == |files| && (e.Writes? ==> done <= |e.buf|)
    ensures |r.0| == |files|
  {
    if !(0 <= e.n < |files|) then (files, [])
    else match e
      case Writes(n, pos, buf) => (files[n := Spliced(files[n], pos, buf[..done])], buf[..done])
      case Reads(n, pos, count) => (files, if pos <= |files[n]| then files[n][pos..Min(pos + count, |files[n]|)] else [])
      case Empties(n) => (if plain[n] then files[n := []] else files, [])
  }

  ghost predicate Represents(fs: Fs, files: seq<seq<byte>>, plain: seq<bool>) {
    && Sound(fs) && |fs.inodes| == |files| == |plain|
    && forall n :: 0 <= n < |files| ==> FileIs(fs, n, files[n], plain[n])
  }

  ghost predicate FileIs(fs: Fs, n: int, file: seq<byte>, plain: bool)
    requires Sound(fs) && 0 <= n < |fs.inodes|
  {
    fs.inodes[n].size <= MAX_BYTES && fs.inodes[n].plain == plain && ZeroTail(fs, n) && Contents(fs, n) == file
  }

  // A call that does not go past the largest file.
  predicate InLimit(e: FileEvent) { e.Writes? ==> e.pos + |e.buf| <= MAX_BYTES }

  lemma LemmaFileStep(fs: Fs, owner: Owner, files: seq<seq<byte>>, plain: seq<bool>, e: FileEvent) returns (owner': Owner, done: nat)
    requires Inv(fs, owner) && Represents(fs, files, plain)
    ensures InLimit(e) ==> FileStep(fs, e).Some?
    ensures e.Writes? ==> done <= |e.buf|
    ensures FileStep(fs, e).Some? ==>
      var (g, out) := FileStep(fs, e).value;
      && Inv(g, owner') && Represents(g, FlatStep(files, plain, e, done).0, plain) && out == FlatStep(files, plain, e, done).1
      && (e.Writes? && done < |e.buf| && 0 <= e.n < |files| ==> FullDevice(g))
  {
    hide Owned, Tables, Numbers, Inodes, Write, Read, Truncate, Byte, ZeroTail, Contents, Spliced;
    owner', done := owner, 0;
    if 0 <= e.n < |files| {
      assert FileIs(fs, e.n, files[e.n], plain[e.n]);
      match e {
        case Writes(n, pos, buf) => owner', done := LemmaWrites(fs, owner, files, plain, n, pos, buf);
        case Reads(n, pos, count) => LemmaFlatRead(fs, n, pos, count);
        case Empties(n) => owner' := LemmaEmpties(fs, owner, files, plain, n);
      }
    }
  }

  lemma LemmaWrites(fs: Fs, owner: Owner, files: seq<seq<byte>>, plain: seq<bool>, n: int, pos: nat, buf: seq<byte>)
    returns (owner': Owner, done: nat)
    requires Inv(fs, owner) && Represents(fs, files, plain) && 0 <= n < |files|
    ensures pos + |buf| <= MAX_BYTES ==> Write(fs, n, pos, buf, 0).Some?
    ensures done <= |buf|
    ensures Write(fs, n, pos, buf, 0).Some? ==>
      var (g, d) := Write(fs, n, pos, buf, 0).value;
      && d == done && Inv(g, owner') && Represents(g, files[n := Spliced(files[n], pos, buf[..done])], plain)
      && (done < |buf| ==> forall y :: g.first <= y < g.nzones ==> Used(g, y))
  {
    hide Owned, Tables, Numbers, Inodes, Write, Byte, ZeroTail, Contents, Spliced, Wrote;
    owner' := LemmaWrite(fs, owner, n, pos, buf, 0);
    done := 0;
    if Write(fs, n, pos, buf, 0).Some? {
      var g := Write(fs, n, pos, buf, 0).value.0;
      done := Write(fs, n, pos, buf, 0).value.1;
      LemmaWroteSameInodes(fs, g, n, pos, buf[0..done]);
      forall m | 0 <= m < |files|
        ensures FileIs(g, m, files[n := Spliced(files[n], pos, buf[..done])][m], plain[m])
      {
        assert FileIs(fs, m, files[m], plain[m]);
        LemmaFlatWrite(fs, owner, n, pos, buf, m);
      }
    }
  }

  lemma LemmaEmpties(fs: Fs, owner: Owner, files: seq<seq<byte>>, plain: seq<bool>, n: int) returns (owner': Owner)
    requires Inv(fs, owner) && Represents(fs, files, plain) && 0 <= n < |files|
    ensures Truncate(fs, n).Some? && Inv(Truncate(fs, n).value, owner')
    ensures Represents(Truncate(fs, n).value, if plain[n] then files[n := []] else files, plain)
  {
    hide Owned, Tables, Numbers, Inodes, Truncate, Byte, ZeroTail, Contents;
    owner' := owner;
    assert FileIs(fs, n, files[n], plain[n]);
    if plain[n] {
      LemmaTruncate(fs, owner, n);
      owner' := owner - ZonesOf(owner, n);
      var g := Truncate(fs, n).value;
      forall m | 0 <= m < |files|
        ensures FileIs(g, m, files[n := []][m], plain[m])
      {
        assert FileIs(fs, m, files[m], plain[m]);
        LemmaFlatTruncate(fs, owner, n, m);
      }
    } else {
      LemmaNotPlain(fs, n);
    }
  }

  // Every zone is in use.
  predicate FullDevice(fs: Fs)
    requires Sound(fs)
  {
    forall y :: fs.first <= y < fs.nzones ==> Used(fs, y)
  }

  // What a call returned, and whether it left the device full.
  datatype Reply = Reply(out: seq<byte>, full: bool)

  // A run: the state after it and the replies.  None is a panic.
  function FileRun(fs: Fs, es: seq<FileEvent>): (r: Option<(Fs, seq<Reply>)>)
    requires Sound(fs)
    ensures r.Some? ==> |r.value.1| == |es|
    decreases es
  {
    if es == [] then Some((fs, []))
    else
      var (g, out) :- FileStep(fs, es[0]);
      var (h, replies) :- FileRun(g, es[1..]);
      Some((h, [Reply(out, FullDevice(g))] + replies))
  }

  // The replies are what the calls return when each file is a sequence, and after is what they leave;
  // a write takes in its bytes from the first on, and all of them unless it finds the device full.
  ghost predicate FlatRun(files: seq<seq<byte>>, plain: seq<bool>, es: seq<FileEvent>, after: seq<seq<byte>>, replies: seq<Reply>)
    requires |plain| == |files| && |replies| == |es|
    decreases es
  {
    if es == [] then after == files
    else
      exists done: nat :: Takes(files, es[0], done, replies[0].full) &&
        var (next, out) := FlatStep(files, plain, es[0], done);
        out == replies[0].out && FlatRun(next, plain, es[1..], after, replies[1..])
  }

  predicate Takes(files: seq<seq<byte>>, e: FileEvent, done: nat, full: bool) {
    e.Writes? ==> done <= |e.buf| && (0 <= e.n < |files| && done < |e.buf| ==> full)
  }

  /** Every run of file_write, file_read and truncate on any files acts as on plain sequences of bytes:
      each call returns what it would there, and the files end up as those sequences, zero beyond
      their sizes; a write is short only on a full device, and there is no panic unless some write goes
      past the largest file. */
  lemma {:induction false} LemmaFiles(fs: Fs, owner: Owner, files: seq<seq<byte>>, plain: seq<bool>, es: seq<FileEvent>)
    returns (owner': Owner, after: seq<seq<byte>>)
    requires Inv(fs, owner) && Represents(fs, files, plain)
    ensures (forall i :: 0 <= i < |es| ==> InLimit(es[i])) ==> FileRun(fs, es).Some?
    ensures FileRun(fs, es).Some? ==>
      var (g, replies) := FileRun(fs, es).value;
      Inv(g, owner') && Represents(g, after, plain) && FlatRun(files, plain, es, after, replies)
    decreases es
  {
    hide Owned, Tables, Numbers, Inodes, FileStep, Represents, FlatStep, FullDevice;
    owner', after := owner, files;
    LemmaSameLength(fs, files, plain);
    if es != [] {
      var e := es[0];
      var owner1, done := LemmaFileStep(fs, owner, files, plain, e);
      if FileStep(fs, e).Some? {
        var (g, out) := FileStep(fs, e).value;
        var (next, o) := FlatStep(files, plain, e, done);
        owner', after := LemmaFiles(g, owner1, next, plain, es[1..]);
        if FileRun(g, es[1..]).Some? {
          var (h, replies) := FileRun(g, es[1..]).value;
          assert Takes(files, e, done, FullDevice(g));
          assert ([Reply(out, FullDevice(g))] + replies)[1..] == replies;
        }
      }
    }
  }

  lemma LemmaSameLength(fs: Fs, files: seq<seq<byte>>, plain: seq<bool>)
    requires Represents(fs, files, plain)
    ensures |plain| == |files|
  {
  }

  // The start of every run: no inode has a zone, so every file is empty.
  lemma LemmaNoFiles(fs: Fs)
    requires Sound(fs) && (forall n, k :: 0 <= n < |fs.inodes| && 0 <= k < 9 && |fs.inodes[n].zone| == 9 ==> fs.inodes[n].zone[k] == 0)
    requires forall j :: 0 < j < |fs.bits| ==> !fs.bits[j]
    requires forall n :: 0 <= n < |fs.inodes| ==> fs.inodes[n].size == 0
    ensures Inv(fs, map[])
    ensures Represents(fs, seq(|fs.inodes|, _ => []), seq(|fs.inodes|, n requires 0 <= n < |fs.inodes| => fs.inodes[n].plain))
  {
    LemmaEmpty(fs);
    hide Owned, Tables, Numbers, Inodes;
    forall n | 0 <= n < |fs.inodes|
      ensures FileIs(fs, n, [], fs.inodes[n].plain)
    {
      forall p | 0 <= p < MAX_BYTES
        ensures Byte(fs, n, p) == 0
      {
        LemmaEmptyAt(fs, Leaf(n, p / BLOCK_SIZE));
      }
    }
  }
}

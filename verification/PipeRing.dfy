/** fs/pipe.c: a pipe is a page used as a ring; what was read and what is in the ring is what was
    written, in order, whoever reads and writes between two sleeps. */
module PipeRing {
  import opened Basics
  import opened Bytes

  // PIPE_HEAD and PIPE_TAIL are where the next byte goes in and comes out.
  datatype Ring = Ring(page: seq<byte>, head: int, tail: int)

  predicate Good(r: Ring) {
    |r.page| == PAGE_SIZE && 0 <= r.head < PAGE_SIZE && 0 <= r.tail < PAGE_SIZE
  }

  // PIPE_SIZE; masking is taking the remainder.
  function PipeSize(head: int, tail: int): int { (head - tail) % PAGE_SIZE }

  function Size(r: Ring): int { PipeSize(r.head, r.tail) }

  function Contents(r: Ring): (s: seq<byte>)
    requires Good(r)
    ensures |s| == Size(r) <= PAGE_SIZE - 1
  {
    seq(Size(r), k requires 0 <= k < Size(r) => r.page[(r.tail + k) % PAGE_SIZE])
  }

  // One chunk goes in: not past the end of the page, and one byte of the page stays unused.
  predicate CanPut(r: Ring, n: int) { 0 <= n <= Min(PAGE_SIZE - r.head, PAGE_SIZE - 1 - Size(r)) }

  function Put(r: Ring, s: seq<byte>): (r': Ring)
    requires Good(r) && CanPut(r, |s|)
    ensures Good(r')
  {
    Ring(r.page[..r.head] + s + r.page[r.head + |s|..], (r.head + |s|) % PAGE_SIZE, r.tail)
  }

  // One chunk comes out, not past the end of the page.
  predicate CanTake(r: Ring, n: int) { 0 <= n <= Min(PAGE_SIZE - r.tail, Size(r)) }

  function Take(r: Ring, n: int): (r': Ring)
    requires Good(r) && CanTake(r, n)
    ensures Good(r')
  {
    r.(tail := (r.tail + n) % PAGE_SIZE)
  }

  /** An empty pipe is one with equal head and tail, and a full one is a byte short of that: the two
      cannot be mistaken for each other. */
  lemma LemmaEmptyOrFull(r: Ring)
    requires Good(r)
    ensures 0 <= Size(r) <= PAGE_SIZE - 1
    ensures Contents(r) == [] <==> r.head == r.tail
    ensures |Contents(r)| == PAGE_SIZE - 1 <==> (r.head + 1) % PAGE_SIZE == r.tail
    ensures (exists n :: n > 0 && CanPut(r, n)) <==> |Contents(r)| < PAGE_SIZE - 1
    ensures (exists n :: n > 0 && CanTake(r, n)) <==> Contents(r) != []
  {
    if |Contents(r)| < PAGE_SIZE - 1 {
      assert CanPut(r, 1);
    }
    if Contents(r) != [] {
      assert CanTake(r, 1);
    }
  }

  lemma LemmaPut(r: Ring, s: seq<byte>)
    requires Good(r) && CanPut(r, |s|)
    ensures Contents(Put(r, s)) == Contents(r) + s
  {
    hide PipeSize, Contents;
    LemmaGrownSize(r, s);
    forall k | 0 <= k < Size(r) + |s|
      ensures Contents(Put(r, s))[k] == (Contents(r) + s)[k]
    {
      LemmaPutAt(r, s, k);
    }
  }

  lemma LemmaGrownSize(r: Ring, s: seq<byte>)
    requires Good(r) && CanPut(r, |s|)
    ensures Size(Put(r, s)) == Size(r) + |s| == |Contents(r) + s|
  {
    LemmaGrown(r.head, r.tail, |s|);
  }

  lemma LemmaPutAt(r: Ring, s: seq<byte>, k: int)
    requires Good(r) && CanPut(r, |s|) && 0 <= k < Size(r) + |s| && Size(Put(r, s)) == Size(r) + |s|
    ensures Contents(Put(r, s))[k] == (Contents(r) + s)[k]
  {
    LemmaPlace(r.head, r.tail, Size(r), k);
  }

  lemma LemmaGrown(head: int, tail: int, n: int)
    requires 0 <= head < PAGE_SIZE && 0 <= tail < PAGE_SIZE && 0 <= n && (head - tail) % PAGE_SIZE + n < PAGE_SIZE && head + n <= PAGE_SIZE
    ensures ((head + n) % PAGE_SIZE - tail) % PAGE_SIZE == (head - tail) % PAGE_SIZE + n
  {
  }

  // Byte k from the tail is before the head if it is one of the n in the ring, else k - n after it.
  lemma LemmaPlace(head: int, tail: int, n: int, k: int)
    requires 0 <= head < PAGE_SIZE && 0 <= tail < PAGE_SIZE && n == (head - tail) % PAGE_SIZE && 0 <= k < PAGE_SIZE
    ensures k >= n && head + (k - n) < PAGE_SIZE ==> (tail + k) % PAGE_SIZE == head + (k - n)
    ensures k < n ==> (tail + k) % PAGE_SIZE < head || (tail <= (tail + k) % PAGE_SIZE && head < tail)
  {
  }

  lemma LemmaTake(r: Ring, n: int)
    requires Good(r) && CanTake(r, n)
    ensures r.page[r.tail..r.tail + n] == Contents(r)[..n] && Contents(Take(r, n)) == Contents(r)[n..]
  {
    var r' := Take(r, n);
    LemmaShrunk(r.head, r.tail, n);
    forall k | 0 <= k < Size(r')
      ensures Contents(r')[k] == Contents(r)[n + k]
    {
      LemmaFurther(r.tail, n, k);
    }
    LemmaChunk(r, n);
  }

  lemma LemmaChunk(r: Ring, n: int)
    requires Good(r) && CanTake(r, n)
    ensures r.page[r.tail..r.tail + n] == Contents(r)[..n]
  {
    forall k | 0 <= k < n
      ensures r.page[r.tail + k] == Contents(r)[k]
    {
      LemmaFurther(r.tail, 0, k);
    }
  }

  lemma LemmaShrunk(head: int, tail: int, n: int)
    requires 0 <= head < PAGE_SIZE && 0 <= tail < PAGE_SIZE && 0 <= n <= (head - tail) % PAGE_SIZE && tail + n <= PAGE_SIZE
    ensures (head - (tail + n) % PAGE_SIZE) % PAGE_SIZE == (head - tail) % PAGE_SIZE - n
  {
  }

  lemma LemmaFurther(tail: int, n: int, k: int)
    requires 0 <= tail < PAGE_SIZE && 0 <= n && 0 <= k && tail + n <= PAGE_SIZE
    ensures ((tail + n) % PAGE_SIZE + k) % PAGE_SIZE == (tail + (n + k)) % PAGE_SIZE
    ensures tail + k < PAGE_SIZE ==> (tail + k) % PAGE_SIZE == tail + k
  {
    if tail + n == PAGE_SIZE {
      assert (tail + (n + k)) % PAGE_SIZE == k % PAGE_SIZE;
    }
  }

  // ---------------------------------------------------------------- runs

  // What anybody does to a pipe between two sleeps: a chunk written, a chunk read, or ends closed and
  // opened, of which ends counts how many there are (i_count).
  datatype Step = Wrote(data: seq<byte>) | Took(n: nat) | Ends(n: nat)

  // The pipe with its past: all that was ever written to it, and all that was ever read from it.
  datatype History = History(ring: Ring, ends: int, written: seq<byte>, taken: seq<byte>)

  ghost predicate Inv(h: History) {
    Good(h.ring) && h.written == h.taken + Contents(h.ring)
  }

  predicate Can(r: Ring, e: Step) {
    match e
    case Wrote(data) => CanPut(r, |data|)
    case Took(n) => CanTake(r, n)
    case Ends(_) => true
  }

  function Next(h: History, e: Step): History
    requires Good(h.ring) && Can(h.ring, e)
  {
    match e
    case Wrote(data) => h.(ring := Put(h.ring, data), written := h.written + data)
    case Took(n) => h.(ring := Take(h.ring, n), taken := h.taken + h.ring.page[h.ring.tail..h.ring.tail + n])
    case Ends(n) => h.(ends := n)
  }

  lemma LemmaNext(h: History, e: Step)
    requires Inv(h) && Can(h.ring, e)
    ensures Inv(Next(h, e))
  {
    hide Contents, Put, Take;
    match e
    case Wrote(data) =>
      LemmaPut(h.ring, data);
      assert h.taken + (Contents(h.ring) + data) == h.written + data;
    case Took(n) =>
      LemmaTake(h.ring, n);
      var s := Contents(h.ring);
      assert h.taken + s == (h.taken + s[..n]) + s[n..];
    case Ends(n) =>
  }

  // Steps one after the other; one that the ring has no room or no bytes for does not happen.
  function After(h: History, es: seq<Step>): (r: History)
    requires Good(h.ring)
    ensures Good(r.ring)
    decreases |es|
  {
    if es == [] then h
    else After(if Can(h.ring, es[0]) then Next(h, es[0]) else h, es[1..])
  }

  /** After any interleaving of chunks, the bytes read so far and then the bytes in the ring are the
      bytes written so far; what was written and read before stays. */
  lemma {:induction false} LemmaFifo(h: History, es: seq<Step>)
    requires Inv(h)
    ensures var r := After(h, es);
      && Inv(r) && h.written <= r.written && h.taken <= r.taken && r.taken <= r.written
      && ((forall i :: 0 <= i < |es| ==> !es[i].Took?) ==> r.taken == h.taken)
      && ((forall i :: 0 <= i < |es| ==> !es[i].Wrote?) ==> r.written == h.written)
    decreases |es|
  {
    if es != [] {
      var g := if Can(h.ring, es[0]) then Next(h, es[0]) else h;
      if Can(h.ring, es[0]) {
        LemmaNext(h, es[0]);
      }
      LemmaFifo(g, es[1..]);
    }
  }

  // ---------------------------------------------------------------- one task's share

  // s is a subsequence of t: t without some of its bytes.
  ghost predicate Sub(s: seq<byte>, t: seq<byte>) {
    s == [] || (t != [] && ((s[|s| - 1] == t[|t| - 1] && Sub(s[..|s| - 1], t[..|t| - 1])) || Sub(s, t[..|t| - 1])))
  }

  lemma {:induction false} LemmaSubMore(s: seq<byte>, t: seq<byte>, u: seq<byte>)
    requires Sub(s, t)
    ensures Sub(s, t + u) && Sub(s + u, t + u)
  {
    if u == [] {
      assert s + u == s && t + u == t;
    } else {
      var v := u[..|u| - 1];
      LemmaSubMore(s, t, v);
      assert (t + u)[..|t + u| - 1] == t + v && (s + u)[..|s + u| - 1] == s + v;
    }
  }

  // ---------------------------------------------------------------- the code

  // Nobody else reads, or writes, whenever this task sleeps.
  ghost predicate NoReader(script: nat -> seq<Step>, patience: nat) {
    forall t, i :: 0 <= t < patience && 0 <= i < |script(t)| ==> !script(t)[i].Took?
  }

  ghost predicate NoWriter(script: nat -> seq<Step>, patience: nat) {
    forall t, i :: 0 <= t < patience && 0 <= i < |script(t)| ==> !script(t)[i].Wrote?
  }

  // From was to now, buf has come out; it is all of what came out if nobody else takes any.
  ghost predicate Share(was: seq<byte>, now: seq<byte>, buf: seq<byte>, sole: bool) {
    was <= now && Sub(buf, now[|was|..]) && (sole ==> now == was + buf)
  }

  lemma LemmaNoShare(was: seq<byte>, sole: bool)
    ensures Share(was, was, [], sole)
  {
  }

  lemma LemmaShareMore(was: seq<byte>, now: seq<byte>, buf: seq<byte>, sole: bool, more: seq<byte>)
    requires Share(was, now, buf, sole)
    ensures Share(was, now + more, buf + more, sole)
  {
    LemmaSubMore(buf, now[|was|..], more);
    assert (now + more)[|was|..] == now[|was|..] + more;
  }

  // Others were at it.
  lemma LemmaShareOthers(was: seq<byte>, now: seq<byte>, buf: seq<byte>, sole: bool, next: seq<byte>)
    requires Share(was, now, buf, sole) && now <= next && (sole ==> next == now)
    ensures Share(was, next, buf, sole)
  {
    LemmaSubMore(buf, now[|was|..], next[|now|..]);
    assert next[|was|..] == now[|was|..] + next[|now|..];
  }

  lemma LemmaEnded(was: History, now: History, got: seq<byte>, soleReader: bool, put: seq<byte>, soleWriter: bool)
    requires Share(was.taken, now.taken, got, soleReader) && Share(was.written, now.written, put, soleWriter) && Inv(now)
    ensures was.taken <= now.taken <= now.written && was.written <= now.written
    ensures |Contents(now.ring)| == Size(now.ring)
  {
  }

  /** A pipe, as one task reads or writes it.  Whenever the task sleeps, others take the steps that
      script says; patience is how often it is woken again. */
  class Pipe {
    const page: array<byte>
    const script: nat -> seq<Step>
    var head: int
    var tail: int
    var ends: int
    var patience: nat
    ghost var written: seq<byte>
    ghost var taken: seq<byte>

    ghost function View(): History
      reads this, page
    {
      History(Ring(page[..], head, tail), ends, written, taken)
    }

    ghost predicate Valid()
      reads this, page
    {
      Inv(View())
    }

    // get_pipe_inode: an empty ring with two ends.
    constructor (script: nat -> seq<Step>, patience: nat)
      ensures Valid() && ends == 2 && written == [] && taken == [] && this.script == script && this.patience == patience
    {
      page := new byte[PAGE_SIZE](_ => 0);
      head, tail, ends := 0, 0, 2;
      this.script, this.patience := script, patience;
      written, taken := [], [];
    }

    // wake_up and sleep_on: the steps of others in between.
    method Sleep()
      requires Valid() && patience > 0
      modifies this, page
      ensures Valid() && patience == old(patience) - 1 && View() == After(old(View()), script(patience))
    {
      ghost var h := View();
      patience := patience - 1;
      var es := script(patience);
      var i := 0;
      while i < |es|
        invariant 0 <= i <= |es| && Valid() && patience == old(patience) - 1
        invariant After(View(), es[i..]) == After(h, es)
      {
        ghost var g := View();
        assert es[i..][1..] == es[i + 1..];
        if Can(Ring(page[..], head, tail), es[i]) {
          LemmaNext(g, es[i]);
          match es[i] {
            case Wrote(data) => WriteChunk(data);
            case Took(n) => var s := ReadChunk(n);
            case Ends(n) => ends := n;
          }
        }
        i := i + 1;
      }
    }

    // The inner loop of read_pipe and what goes with it.
    method ReadChunk(chars: nat) returns (buf: seq<byte>)
      requires Valid() && CanTake(View().ring, chars)
      modifies this`tail, this`taken
      ensures Valid() && View() == Next(old(View()), Took(chars)) && taken == old(taken) + buf && |buf| == chars
    {
      LemmaNext(View(), Took(chars));
      var size := tail;
      tail := (tail + chars) % PAGE_SIZE;
      buf := page[size..size + chars];
      taken := taken + buf;
    }

    method WriteChunk(buf: seq<byte>)
      requires Valid() && CanPut(View().ring, |buf|)
      modifies this`head, this`written, page
      ensures Valid() && View() == Next(old(View()), Wrote(buf))
    {
      ghost var h := View();
      LemmaNext(h, Wrote(buf));
      var size := head;
      head := (head + |buf|) % PAGE_SIZE;
      forall k | 0 <= k < |buf| {
        page[size + k] := buf[k];
      }
      written := written + buf;
      assert page[..] == Put(h.ring, buf).page;
    }

    // Others go on while this task sleeps: what that leaves of its share.
    method SleepSharing(ghost was: History, ghost got: seq<byte>, ghost soleReader: bool, ghost put: seq<byte>, ghost soleWriter: bool)
      requires Valid() && patience > 0
      requires Share(was.taken, taken, got, soleReader) && Share(was.written, written, put, soleWriter)
      requires soleReader ==> NoReader(script, patience)
      requires soleWriter ==> NoWriter(script, patience)
      modifies this, page
      ensures Valid() && patience == old(patience) - 1
      ensures Share(was.taken, taken, got, soleReader) && Share(was.written, written, put, soleWriter)
      ensures (soleReader ==> NoReader(script, patience)) && (soleWriter ==> NoWriter(script, patience))
    {
      hide Share, Inv, After;
      ghost var h := View();
      Sleep();
      LemmaFifo(h, script(patience));
      LemmaShareOthers(was.taken, h.taken, got, soleReader, taken);
      LemmaShareOthers(was.written, h.written, put, soleWriter, written);
    }

    /** read_pipe.  The bytes come out in order from what is taken out of the pipe, and if nobody else
        reads they are all of it; it gives fewer than asked for only when the pipe is empty and an end
        is closed.  awake is false if the task was not woken any more. */
    method ReadPipe(count0: int) returns (buf: seq<byte>, awake: bool)
      requires Valid()
      modifies this, page
      ensures Valid() && old(written) <= written && taken <= written
      ensures Share(old(taken), taken, buf, NoReader(script, old(patience)))
      ensures |buf| < count0 ==> Contents(View().ring) == [] && if awake then ends != 2 else ends == 2 && patience == 0
      ensures |buf| >= count0 ==> awake && |buf| == if count0 > 0 then count0 else 0
    {
      hide Share, NoReader, NoWriter, Next, Sub, Contents;
      ghost var was, sole := View(), NoReader(script, patience);
      LemmaNoShare(taken, sole);
      LemmaNoShare(written, false);
      var count := count0;
      buf, awake := [], true;
      while count > 0
        invariant Valid() && Share(was.taken, taken, buf, sole) && Share(was.written, written, [], false)
        invariant count == count0 - |buf| && (count >= 0 || buf == []) && (sole ==> NoReader(script, patience))
        decreases count
      {
        var size := PipeSize(head, tail);
        while size == 0
          invariant Valid() && Share(was.taken, taken, buf, sole) && Share(was.written, written, [], false)
          invariant size == Size(View().ring) && (sole ==> NoReader(script, patience))
          decreases patience
        {
          if ends != 2 {
            LemmaEnded(was, View(), buf, sole, [], false);
            return;
          }
          if patience == 0 {
            awake := false;
            LemmaEnded(was, View(), buf, sole, [], false);
            return;
          }
          SleepSharing(was, buf, sole, [], false);
          size := PipeSize(head, tail);
        }
        var chars := PAGE_SIZE - tail;
        if chars > count {
          chars := count;
        }
        if chars > size {
          chars := size;
        }
        count := count - chars;
        ghost var h := View();
        var chunk := ReadChunk(chars);
        LemmaShareMore(was.taken, h.taken, buf, sole, chunk);
        buf := buf + chunk;
      }
      LemmaEnded(was, View(), buf, sole, [], false);
    }

    /** write_pipe.  The bytes go in in order among what is written to the pipe, and if nobody else
        writes they are all of it; it stops early only when the pipe is full and an end is closed, and
        then raises SIGPIPE and returns -1 if it wrote nothing. */
    method WritePipe(buf: seq<byte>) returns (result: int, signal: bool, ghost put: seq<byte>, awake: bool)
      requires Valid()
      modifies this, page
      ensures Valid() && old(taken) <= taken && taken <= written && put <= buf
      ensures Share(old(written), written, put, NoWriter(script, old(patience)))
      ensures result == if signal && put == [] then -1 else |put|
      ensures put == buf ==> awake && !signal
      ensures put != buf ==> signal == awake && |Contents(View().ring)| == PAGE_SIZE - 1 && if awake then ends != 2 else ends == 2 && patience == 0
    {
      hide Share, NoReader, NoWriter, Next, Sub, Contents, PipeSize;
      ghost var was, sole := View(), NoWriter(script, patience);
      LemmaNoShare(taken, false);
      LemmaNoShare(written, sole);
      result, signal, put, awake := 0, false, [], true;
      while result < |buf|
        invariant Valid() && Share(was.taken, taken, [], false) && Share(was.written, written, put, sole)
        invariant 0 <= result <= |buf| && put == buf[..result] && awake && (sole ==> NoWriter(script, patience))
      {
        var size;
        size, awake := AwaitRoom(was, put, sole);
        if size == 0 {
          LemmaEnded(was, View(), [], false, put, sole);
          signal := awake;
          result := if signal && result == 0 then -1 else result;
          return;
        }
        var chars := PAGE_SIZE - head;
        if chars > |buf| - result {
          chars := |buf| - result;
        }
        if chars > size {
          chars := size;
        }
        ghost var h := View();
        ghost var chunk := buf[result..result + chars];
        WriteChunk(buf[result..result + chars]);
        LemmaWritten(h, chunk);
        LemmaShareMore(was.written, h.written, put, sole, chunk);
        put := put + chunk;
        result := result + chars;
      }
      LemmaEnded(was, View(), [], false, put, sole);
    }

    // write_pipe's wait for room; 0 if the pipe is full and an end is closed, or the task sleeps on.
    method AwaitRoom(ghost was: History, ghost put: seq<byte>, ghost sole: bool) returns (size: int, awake: bool)
      requires Valid() && Share(was.taken, taken, [], false) && Share(was.written, written, put, sole)
      requires sole ==> NoWriter(script, patience)
      modifies this, page
      ensures Valid() && Share(was.taken, taken, [], false) && Share(was.written, written, put, sole)
      ensures (sole ==> NoWriter(script, patience)) && size == PAGE_SIZE - 1 - Size(View().ring) >= 0
      ensures if size == 0 then if awake then ends != 2 else ends == 2 && patience == 0 else awake
    {
      hide Share, NoReader, NoWriter, Next, Sub, Contents, PipeSize;
      size, awake := PAGE_SIZE - 1 - PipeSize(head, tail), true;
      LemmaEnded(was, View(), [], false, put, sole);
      while size == 0
        invariant Valid() && Share(was.taken, taken, [], false) && Share(was.written, written, put, sole)
        invariant size == PAGE_SIZE - 1 - Size(View().ring) >= 0 && (sole ==> NoWriter(script, patience))
        decreases patience
      {
        if ends != 2 {
          return;
        }
        if patience == 0 {
          awake := false;
          return;
        }
        SleepSharing(was, [], false, put, sole);
        size := PAGE_SIZE - 1 - PipeSize(head, tail);
        LemmaEnded(was, View(), [], false, put, sole);
      }
    }
  }

  lemma LemmaWritten(h: History, chunk: seq<byte>)
    requires Inv(h) && CanPut(h.ring, |chunk|)
    ensures Next(h, Wrote(chunk)).written == h.written + chunk && Next(h, Wrote(chunk)).taken == h.taken
  {
  }
}

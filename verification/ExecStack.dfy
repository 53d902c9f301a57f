/** fs/exec.c as it runs: argument strings copied backwards into pages, the pages made the top of the
    new data segment, and the pointer tables put below them. */
module ExecStack {
  import opened Basics
  import opened Bytes
  import opened ExecArgs
  import opened FreePages
  import opened Wrappers

  const MAX_ARG_PAGES: int := 32
  const TOP: int := PAGE_SIZE * MAX_ARG_PAGES

  // The page table of do_execve, and the memory it is in.
  datatype Area = Area(page: seq<int>, mem: seq<seq<byte>>, used: seq<bool>)

  ghost predicate Good(a: Area) {
    && |a.page| == MAX_ARG_PAGES && |a.mem| == |a.used| && (forall f :: 0 <= f < |a.mem| ==> |a.mem[f]| == PAGE_SIZE)
    && (forall i :: 0 <= i < MAX_ARG_PAGES && a.page[i] != 0 ==> 0 < a.page[i] < |a.mem| && a.used[a.page[i]])
    && (forall i, j :: 0 <= i < j < MAX_ARG_PAGES && a.page[i] != 0 ==> a.page[i] != a.page[j])
  }

  // The byte at offset x of the argument area; pages that are not there yet read as zero.
  ghost function At(a: Area, x: int): byte
    requires Good(a) && 0 <= x < TOP
  {
    if a.page[x / PAGE_SIZE] == 0 then 0 else a.mem[a.page[x / PAGE_SIZE]][x % PAGE_SIZE]
  }

  // b is a with the bytes of s just below p.
  ghost predicate Holding(a: Area, b: Area, p: int, s: seq<byte>) {
    && Good(a) && Good(b) && 0 <= p - |s| <= p <= TOP
    && Spare(b) == Spare(a)
    && forall x :: 0 <= x < TOP ==> At(b, x) == if p - |s| <= x < p then s[x - (p - |s|)] else At(a, x)
  }

  // The pages to be had among the first n.
  function Unused(used: seq<bool>, n: nat): nat
    requires n <= |used|
  {
    if n <= 1 then 0 else Unused(used, n - 1) + if used[n - 1] then 0 else 1
  }

  // The pages that the first n of the area still lack.
  function Lacking(page: seq<int>, n: nat): nat
    requires n <= |page|
  {
    if n == 0 then 0 else Lacking(page, n - 1) + if page[n - 1] == 0 then 1 else 0
  }

  // How many more pages there are than the area lacks.
  function Spare(a: Area): int { Unused(a.used, |a.used|) - Lacking(a.page, |a.page|) }

  lemma {:induction false} LemmaUnused(used: seq<bool>, f: int, n: nat)
    requires 0 < f < |used| && !used[f] && n <= |used|
    ensures Unused(used[f := true], n) == Unused(used, n) - if f < n then 1 else 0
  {
    if n > 1 {
      LemmaUnused(used, f, n - 1);
    }
  }

  lemma {:induction false} LemmaLacking(page: seq<int>, i: int, f: int, n: nat)
    requires 0 <= i < |page| && page[i] == 0 && f != 0 && n <= |page|
    ensures Lacking(page[i := f], n) == Lacking(page, n) - if i < n then 1 else 0
  {
    if n > 0 {
      LemmaLacking(page, i, f, n - 1);
    }
  }

  lemma {:induction false} LemmaNoneUnused(used: seq<bool>, n: nat)
    requires n <= |used| && forall f :: 0 < f < n ==> used[f]
    ensures Unused(used, n) == 0
  {
    if n > 1 {
      LemmaNoneUnused(used, n - 1);
    }
  }

  // A fresh, cleared page is not seen.
  lemma LemmaNewPage(a: Area, b: Area, f: int, i: int)
    requires Good(a) && 0 <= i < MAX_ARG_PAGES && a.page[i] == 0 && 0 < f < |a.mem| && !a.used[f]
    requires b == Area(a.page[i := f], a.mem[f := seq(PAGE_SIZE, _ => 0 as byte)], a.used[f := true])
    ensures Good(b) && Spare(b) == Spare(a) && forall x :: 0 <= x < TOP ==> At(b, x) == At(a, x)
  {
    LemmaUnused(a.used, f, |a.used|);
    LemmaLacking(a.page, i, f, |a.page|);
  }

  // Writing one byte of a page of the area changes the area there only.
  lemma LemmaPutByte(a: Area, b: Area, x: int, c: byte)
    requires Good(a) && 0 <= x < TOP && a.page[x / PAGE_SIZE] != 0
    requires var f := a.page[x / PAGE_SIZE]; 0 < f < |a.mem| && b == a.(mem := a.mem[f := a.mem[f][x % PAGE_SIZE := c]])
    ensures Good(b) && Spare(b) == Spare(a) && forall y :: 0 <= y < TOP ==> At(b, y) == if y == x then c else At(a, y)
  {
    forall y | 0 <= y < TOP
      ensures At(b, y) == if y == x then c else At(a, y)
    {
      if y != x && y / PAGE_SIZE == x / PAGE_SIZE {
        assert y % PAGE_SIZE != x % PAGE_SIZE;
      }
    }
  }

  lemma LemmaPages(a: Area)
    requires Good(a)
    ensures |a.page| == MAX_ARG_PAGES && |a.mem| == |a.used|
  {
  }

  lemma LemmaInArea(a: Area, x: int)
    requires Good(a) && 0 <= x < TOP && a.page[x / PAGE_SIZE] != 0
    ensures 0 < a.page[x / PAGE_SIZE] < |a.mem| && |a.mem[a.page[x / PAGE_SIZE]]| == PAGE_SIZE
  {
  }

  lemma LemmaOneMore(a: Area, b: Area, b': Area, p: int, s: seq<byte>, c: byte)
    requires Holding(a, b, p, s) && 0 < p - |s|
    requires Good(b') && Spare(b') == Spare(b) && forall y :: 0 <= y < TOP ==> At(b', y) == if y == p - |s| - 1 then c else At(b, y)
    ensures Holding(a, b', p, [c] + s)
  {
    hide Good;
  }

  // The strings that the first argc pointers lead to.
  function Strings(m: seq<byte>, ptr: seq<int>, argc: int): (ss: seq<seq<byte>>)
    requires argc <= |ptr| && forall k :: 0 <= k < argc ==> HasString(m, ptr[k])
    ensures |ss| == (if argc < 0 then 0 else argc) && Proper(ss)
  {
    seq(if argc < 0 then 0 else argc, k requires 0 <= k < argc => StringAt(m, ptr[k]))
  }

  predicate Readable(m: seq<byte>, ptr: seq<int>, argc: int) {
    argc <= |ptr| && forall k :: 0 <= k < argc ==> HasString(m, ptr[k])
  }

  // How copy_strings ends: copied (and then p' is 0 only if that fills the area), or out of pages,
  // or past the start of the area, where "p-len < 0" was meant to stop it.
  ghost predicate CopyEnds(a: Area, b: Area, p: int, flat: seq<byte>, p': int, wild: bool) {
    && Good(a) && Good(b) && |b.used| == |a.used|
    && (p == 0 ==> b == a) && (wild ==> p' == 0 && 0 < p < |flat|)
    && (!wild && p' != 0 ==> p' == p - |flat| && Holding(a, b, p, flat))
    && (!wild && p' == 0 ==> p == 0 || Spare(a) <= 0 || (p == |flat| && Holding(a, b, p, flat)))
  }

  /** If there is a page more than the area lacks, copy_strings succeeds exactly if the strings leave at
      least one byte of the area below them, and runs past its start exactly if they are longer than
      the room. */
  lemma LemmaCopyOutcome(a: Area, b: Area, p: int, flat: seq<byte>, p': int, wild: bool)
    requires CopyEnds(a, b, p, flat, p', wild) && 0 < p && Spare(a) > 0
    ensures p' != 0 <==> |flat| < p
    ensures wild <==> |flat| > p
  {
  }

  // One argument of as many letters as there is room for: its terminating zero does not fit.
  lemma LemmaOneTooLong(a: Area, b: Area, p': int, wild: bool)
    requires CopyEnds(a, b, ROOM, Flat([seq(ROOM, _ => 65)]), p', wild) && Spare(a) > 0
    ensures wild && p' == 0
  {
    assert Flat([seq(ROOM, _ => 65)]) == seq(ROOM, _ => 65) + [0];
    LemmaCopyOutcome(a, b, ROOM, Flat([seq(ROOM, _ => 65)]), p', wild);
  }

  // The loop's current page and offset are those of byte p, unless the next byte looks them up.
  ghost predicate Cursor(a: Area, p: int, offset: int, pag: int)
    requires Good(a)
  {
    offset == 0 || (0 <= p < TOP && offset == p % PAGE_SIZE && a.page[p / PAGE_SIZE] == pag != 0)
  }

  class ArgPages {
    const page: array<int>
    const mem: array<seq<byte>>
    const used: array<bool>

    ghost function View(): Area
      reads page, mem, used
    {
      Area(page[..], mem[..], used[..])
    }

    ghost predicate Valid()
      reads page, mem, used
    {
      Good(View())
    }

    // The frame of page number i of the area, got if need be; 0 if there is none to get.
    method PageFor(i: int) returns (pag: int)
      requires Valid() && 0 <= i < MAX_ARG_PAGES
      modifies page, mem, used
      ensures Valid() && Spare(View()) == Spare(old(View()))
      ensures forall x :: 0 <= x < TOP ==> At(View(), x) == At(old(View()), x)
      ensures if pag == 0 then Spare(View()) <= 0 else pag == page[i]
    {
      ghost var a := View();
      pag := page[i];
      if pag == 0 {
        pag := FindFreePage(used);
        if pag == 0 {
          LemmaNoneUnused(used[..], used.Length);
          return;
        }
        page[i], used[pag], mem[pag] := pag, true, seq(PAGE_SIZE, _ => 0);
        LemmaNewPage(a, View(), pag, i);
      }
    }

    // The length of a string, with the terminating zero.
    method Measure(str: seq<byte>, start: int) returns (len: int)
      requires HasString(str, start)
      ensures len == |StringAt(str, start)| + 1
    {
      var tmp := start;
      len := 1;
      while str[tmp] != 0
        invariant HasString(str, tmp) && len + |StringAt(str, tmp)| == |StringAt(str, start)| + 1
        decreases |str| - tmp
      {
        tmp := tmp + 1;
        len := len + 1;
      }
    }

    // The inner loop of copy_strings: the len bytes before end go below p0.  It stops with no page
    // to put a byte in, or, if wild, below the start of the area.
    method CopyString(str: seq<byte>, end: int, length: int, p0: int, offset0: int, pag0: int,
                      ghost a: Area, ghost start: int, ghost copied: seq<byte>)
      returns (p: int, offset: int, pag: int, stop: bool, wild: bool)
      requires 0 <= length <= end <= |str| && Holding(a, View(), start, copied) && p0 == start - |copied|
      requires Cursor(View(), p0, offset0, pag0)
      modifies page, mem, used
      ensures Valid() && (wild ==> stop && p0 < length) && (stop && !wild ==> Spare(a) <= 0)
      ensures !stop ==> p == p0 - length && Holding(a, View(), start, str[end - length..end] + copied) && Cursor(View(), p, offset, pag)
    {
      hide Good;
      p, offset, pag, stop, wild := p0, offset0, pag0, false, false;
      var tmp, len := end, length;
      LemmaPages(View());
      assert str[end..end] + copied == copied;
      while len > 0
        invariant 0 <= len <= length && tmp == end - (length - len) && p == p0 - (length - len)
        invariant Holding(a, View(), start, str[tmp..end] + copied) && Cursor(View(), p, offset, pag)
      {
        LemmaStepBack(p);
        p, tmp, len := (p - 1) % WORD, tmp - 1, len - 1;
        offset := offset - 1;
        if offset < 0 {
          offset := p % PAGE_SIZE;
          if p / PAGE_SIZE >= MAX_ARG_PAGES {
            stop, wild := true, true;
            return;
          }
          ghost var b := View();
          pag := PageFor(p / PAGE_SIZE);
          if pag == 0 {
            stop := true;
            return;
          }
          LemmaSameHolding(a, b, View(), start, str[tmp + 1..end] + copied);
        }
        ghost var c := View();
        LemmaInArea(c, p);
        mem[pag] := mem[pag][offset := str[tmp]];
        LemmaPutByte(c, View(), p, str[tmp]);
        LemmaOneMore(a, c, View(), start, str[tmp + 1..end] + copied, str[tmp]);
        assert [str[tmp]] + (str[tmp + 1..end] + copied) == str[tmp..end] + copied;
      }
    }

    // copy_strings; wild tells that it went below the start of the area.
    method CopyStrings(argc: int, argv: seq<int>, str: seq<byte>, start: int) returns (p: int, wild: bool)
      requires Valid() && 0 <= start <= TOP && Readable(str, argv, argc)
      modifies page, mem, used
      ensures CopyEnds(old(View()), View(), start, Flat(Strings(str, argv, argc)), p, wild)
    {
      hide Good, StringAt, HasString, Flat, Holding, Cursor;
      ghost var a := View();
      ghost var ss := Strings(str, argv, argc);
      LemmaNoneYet(a, start);
      p, wild := start, false;
      if start == 0 {
        return;
      }
      var n, offset, pag := argc, 0, 0;
      ghost var copied: seq<byte> := [];
      assert ss[|ss|..] == [];
      while n > 0
        invariant n <= argc && (if argc >= 0 then n >= 0 else copied == []) && Holding(a, View(), start, copied) && p == start - |copied|
        invariant !wild && Valid() && Cursor(View(), p, offset, pag)
        invariant 0 <= n ==> copied == Flat(ss[n..])
      {
        LemmaHeldIn(a, View(), start, copied);
        n := n - 1;
        var tmp := argv[n];
        var len := Measure(str, tmp);
        LemmaStringEnd(str, tmp);
        LemmaFlatLast(ss, n);
        var stop;
        p, offset, pag, stop, wild := CopyString(str, tmp + len, len, p, offset, pag, a, start, copied);
        if stop {
          p := 0;
          return;
        }
        copied := str[tmp..tmp + len] + copied;
      }
      assert ss[0..] == ss;
      LemmaHeldIn(a, View(), start, copied);
    }

    // One more call of copy_strings; what has gone wrong stays wrong.
    method Enter(argc: int, argv: seq<int>, str: seq<byte>, p0: int, wild0: bool, ghost a: Area, ghost below: seq<seq<byte>>)
      returns (p: int, wild: bool)
      requires Valid() && Readable(str, argv, argc) && Entered(a, View(), p0, wild0, below)
      modifies page, mem, used
      ensures Valid() && Entered(a, View(), p, wild, Strings(str, argv, argc) + below)
    {
      hide Good, HasString, StringAt, Flat, CopyEnds;
      ghost var more := Strings(str, argv, argc);
      LemmaFlatJoined(more, below);
      if wild0 {
        return p0, true;
      }
      ghost var b := View();
      p, wild := CopyStrings(argc, argv, str, p0);
      LemmaEntered(a, b, View(), p0, p, wild, more, below);
    }

    // The strings for an interpreter, as do_execve puts them in after a "#!" line (text, which it
    // finds in data); argc comes back one short if the script was started without even an argv[0].
    method ScriptStrings(argc0: int, argv: seq<int>, envc: int, envp: seq<int>, str: seq<byte>, filename: int, data: seq<byte>)
      returns (p: int, argc: int, wild: bool, ok: bool, ghost text: seq<byte>)
      requires Valid() && 0 <= argc0 && Readable(str, argv, argc0) && Readable(str, envp, envc) && HasString(str, filename)
      requires |data| >= 1024
      modifies page, mem, used
      ensures Valid() && TextOf(data, text) && ok == ParseBang(text).Some?
      ensures ok ==>
        var all := Spliced(ParseBang(text).value, StringAt(str, filename), Strings(str, argv, argc0));
        && argc == |all| - (if argc0 == 0 then 1 else 0)
        && Entered(old(View()), View(), p, wild, all + Strings(str, envp, envc))
    {
      hide Good, HasString, StringAt, ExecArgs.Holds, ParseBang, Strings, Entered;
      ghost var a := View();
      p, argc, wild := ROOM, 0, false;
      var buf;
      buf, text := CopyText(data);
      var interp, name, arg;
      interp, name, arg, ok := ScanBang(buf, text);
      if !ok {
        return;
      }
      ghost var b := ParseBang(text).value;
      ghost var envs := Strings(str, envp, envc);
      ghost var file := StringAt(str, filename);
      LemmaNothingEntered(a);
      p, wild := Enter(envc, envp, str, p, wild, a, []);
      argc := argc0 - 1;
      var rest := if argv == [] then [] else argv[1..];
      ghost var tail := LemmaTail(str, argv, argc0);
      p, wild := Enter(argc, rest, str, p, wild, a, envs + []);
      LemmaOneString(str, filename);
      p, wild := Enter(1, [filename], str, p, wild, a, tail + (envs + []));
      argc := argc + 1;
      ghost var list := [file] + (tail + (envs + []));
      if arg != -1 {
        LemmaOneString(buf[..], arg);
        p, wild := Enter(1, [arg], buf[..], p, wild, a, list);
        argc := argc + 1;
        list := [b.arg.value] + list;
      }
      LemmaOneString(buf[..], name);
      p, wild := Enter(1, [name], buf[..], p, wild, a, list);
      argc := argc + 1;
      LemmaOrder(b, file, Strings(str, argv, argc0), envs);
    }

    // change_ldt: the argument pages become the top of an otherwise empty data segment.
    method ChangeLdt() returns (user: array<byte>)
      requires Valid()
      ensures fresh(user) && user.Length == DATA_LIMIT
      ensures forall x :: 0 <= x < DATA_LIMIT ==> user[x] == if x < DATA_LIMIT - TOP then 0 else At(View(), x - (DATA_LIMIT - TOP))
    {
      user := new byte[DATA_LIMIT](_ => 0);
      var base := DATA_LIMIT;
      var i := MAX_ARG_PAGES - 1;
      while i >= 0
        modifies user
        invariant -1 <= i < MAX_ARG_PAGES && base == DATA_LIMIT - TOP + PAGE_SIZE * (i + 1)
        invariant forall x :: 0 <= x < DATA_LIMIT ==> user[x] == if x < base then 0 else At(View(), x - (DATA_LIMIT - TOP))
      {
        base := base - PAGE_SIZE;
        LemmaOnePage(View(), i);
        if page[i] != 0 {
          var frame := mem[page[i]];
          forall k | 0 <= k < PAGE_SIZE {
            user[base + k] := frame[k];
          }
        }
        i := i - 1;
      }
    }
  }

  const DATA_LIMIT: int := 0x400_0000

  lemma LemmaOnePage(a: Area, i: int)
    requires Good(a) && 0 <= i < MAX_ARG_PAGES
    ensures |a.page| == MAX_ARG_PAGES && (a.page[i] != 0 ==> 0 < a.page[i] < |a.mem| && |a.mem[a.page[i]]| == PAGE_SIZE)
    ensures forall x :: PAGE_SIZE * i <= x < PAGE_SIZE * (i + 1) ==> At(a, x) == if a.page[i] == 0 then 0 else a.mem[a.page[i]][x - PAGE_SIZE * i]
  {
    forall x | PAGE_SIZE * i <= x < PAGE_SIZE * (i + 1)
      ensures At(a, x) == if a.page[i] == 0 then 0 else a.mem[a.page[i]][x - PAGE_SIZE * i]
    {
      assert x / PAGE_SIZE == i && x % PAGE_SIZE == x - PAGE_SIZE * i;
    }
  }

  // ---------------------------------------------------------------- create_tables

  // put_fs_long.
  method PutLong(user: array<byte>, a: int, v: int)
    requires 0 <= a && a + 4 <= user.Length && 0 <= v < WORD
    modifies user
    ensures Long(user[..], a) == v
    ensures SameOutside(old(user[..]), user[..], a, a + 4)
  {
    user[a], user[a + 1], user[a + 2], user[a + 3] := ByteOf(v, 0), ByteOf(v, 1), ByteOf(v, 2), ByteOf(v, 3);
    LemmaLong(user[..], a, v);
  }

  // m' is m outside the addresses from lo to hi.
  ghost predicate SameOutside(m: seq<byte>, m': seq<byte>, lo: int, hi: int) {
    |m'| == |m| && forall x :: 0 <= x < |m| && !(lo <= x < hi) ==> m'[x] == m[x]
  }

  // The pointers at table are those to the first n strings that lie from p on.
  ghost predicate Points(m: seq<byte>, table: int, p: int, ss: seq<seq<byte>>, n: int) {
    && 0 <= n <= |ss| && 0 <= table && table + 4 * n <= |m|
    && forall k :: 0 <= k < n ==> Long(m, table + 4 * k) == p + Offset(ss, k)
  }

  // One of the two loops of create_tables: the pointers to n strings from p0 on, and a null pointer.
  method PutPointers(user: array<byte>, p0: int, n: int, table: int, ghost ss: seq<seq<byte>>) returns (p: int)
    requires user.Length < WORD && LieAt(user[..], p0, ss) && Proper(ss) && n == |ss| && 0 <= table && table + 4 * n + 4 <= p0
    modifies user
    ensures p == p0 + |Flat(ss)| && SameOutside(old(user[..]), user[..], table, table + 4 * n + 4)
    ensures Points(user[..], table, p0, ss, n) && Long(user[..], table + 4 * n) == 0
  {
    hide StringAt, HasString, ByteOf, Flat, LieAt, Offset, Points, Long, SameOutside, Proper;
    ghost var m := user[..];
    LemmaOffsetStart(ss);
    LemmaOffsetEnd(ss);
    LemmaLieIn(m, p0, ss);
    LemmaNoPoints(m, table, p0, ss, table + 4 * n + 4);
    p := p0;
    var i, argv := 0, table;
    while i < n
      invariant 0 <= i <= n && argv == table + 4 * i && p == p0 + Offset(ss, i) < WORD
      invariant SameOutside(m, user[..], table, table + 4 * n + 4) && Points(user[..], table, p0, ss, i)
    {
      ghost var was := user[..];
      PutLong(user, argv, p);
      LemmaPointsMore(was, user[..], table, p0, ss, i);
      LemmaSameTwice(m, was, user[..], table, table + 4 * n + 4, argv, argv + 4);
      argv, i := argv + 4, i + 1;
      LemmaLieStays(m, user[..], p0, ss, table, table + 4 * n + 4);
      LemmaLie(user[..], p0, ss, i - 1);
      p := SkipString(user, p);
    }
    ghost var was := user[..];
    PutLong(user, argv, 0);
    LemmaPointsStay(was, user[..], table, p0, ss, n, argv, argv + 4);
    LemmaSameTwice(m, was, user[..], table, table + 4 * n + 4, argv, argv + 4);
  }

  // while (get_fs_byte(p++)).
  method SkipString(user: array<byte>, p: int) returns (q: int)
    requires HasString(user[..], p)
    ensures q == p + |StringAt(user[..], p)| + 1
  {
    q := p;
    while user[q] != 0
      invariant HasString(user[..], q) && q + |StringAt(user[..], q)| == p + |StringAt(user[..], p)|
      decreases user.Length - q
    {
      q := q + 1;
    }
    q := q + 1;
  }

  // count: the pointers before the null one; none behind a null pointer to them (here []).
  method Count(ptr: seq<int>) returns (n: int)
    requires ptr == [] || 0 in ptr
    ensures n == Pointers(ptr)
  {
    n := 0;
    if ptr != [] {
      while ptr[n] != 0
        invariant 0 <= n < |ptr| && 0 !in ptr[..n]
        decreases |ptr| - n
      {
        assert ptr[..n + 1] == ptr[..n] + [ptr[n]];
        assert ptr[..n + 1] != ptr;
        n := n + 1;
      }
      LemmaPointers(ptr, n);
    }
  }

  function Pointers(ptr: seq<int>): (n: int)
    ensures 0 <= n <= |ptr|
  {
    if ptr == [] || ptr[0] == 0 then 0 else 1 + Pointers(ptr[1..])
  }

  lemma {:induction false} LemmaPointers(ptr: seq<int>, n: int)
    requires 0 <= n < |ptr| && ptr[n] == 0 && 0 !in ptr[..n]
    ensures Pointers(ptr) == n
  {
    if n > 0 {
      assert ptr[0] in ptr[..n];
      assert ptr[1..][..n - 1] == ptr[..n][1..];
      LemmaPointers(ptr[1..], n - 1);
    }
  }

  // Where create_tables puts the stack pointer.
  function StackFor(p: int, n: int): int { p - p % 4 - 4 * (n + 5) }

  /** create_tables: argc, argv and envp at the new stack pointer, and the tables between them and
      the strings, which stay as they are. */
  method CreateTables(user: array<byte>, p0: int, argc: int, envc: int, ghost args: seq<seq<byte>>, ghost envs: seq<seq<byte>>)
    returns (sp: int)
    requires user.Length < WORD && LieAt(user[..], p0, args + envs) && Proper(args) && Proper(envs)
    requires argc == |args| && envc == |envs| && StackFor(p0, argc + envc) >= 0
    modifies user
    ensures sp == StackFor(p0, argc + envc) && sp % 4 == 0 && Started(user[..], sp, args, envs)
    ensures SameOutside(old(user[..]), user[..], sp, p0 - p0 % 4)
  {
    hide Flat, LieAt, Points, Long, SameOutside, Proper, TableOf, Started;
    ghost var m := user[..];
    LemmaLieParts(m, p0, args, envs);
    LemmaLieIn(m, p0, args + envs);
    sp := p0 - p0 % 4;
    sp := sp - 4 * (envc + 1);
    var envp := sp;
    sp := sp - 4 * (argc + 1);
    var argv := sp;
    sp := sp - 4;
    PutLong(user, sp, envp);
    sp := sp - 4;
    ghost var m1 := user[..];
    PutLong(user, sp, argv);
    sp := sp - 4;
    ghost var m2 := user[..];
    PutLong(user, sp, argc);
    ghost var m3 := user[..];
    LemmaHead(m, m1, m2, m3, sp);
    LemmaLieStays(m, m3, p0, args, sp, sp + 12);
    var p := PutPointers(user, p0, argc, argv, args);
    ghost var m4 := user[..];
    LemmaLieStays(m, m3, p, envs, sp, sp + 12);
    LemmaLieStays(m3, m4, p, envs, argv, envp);
    p := PutPointers(user, p, envc, envp, envs);
    LemmaBuilt(m, m3, m4, user[..], p0, args, envs, sp, argv, envp, p0 - p0 % 4);
  }

  // Writing the three words below the tables keeps the ones written before.
  lemma LemmaHead(m: seq<byte>, m1: seq<byte>, m2: seq<byte>, m3: seq<byte>, sp: int)
    requires 0 <= sp && sp + 12 <= |m|
    requires SameOutside(m, m1, sp + 8, sp + 12) && SameOutside(m1, m2, sp + 4, sp + 8) && SameOutside(m2, m3, sp, sp + 4)
    ensures SameOutside(m, m3, sp, sp + 12) && Long(m3, sp + 4) == Long(m2, sp + 4) && Long(m3, sp + 8) == Long(m1, sp + 8)
  {
  }

  lemma LemmaSameLonger(m: seq<byte>, m': seq<byte>, m'': seq<byte>, lo: int, mid: int, hi: int)
    requires lo <= mid <= hi && SameOutside(m, m', lo, mid) && SameOutside(m', m'', mid, hi)
    ensures SameOutside(m, m'', lo, hi) && |m''| == |m'| == |m|
  {
  }

  lemma LemmaLongStays(m: seq<byte>, m': seq<byte>, a: int, lo: int, hi: int)
    requires SameOutside(m, m', lo, hi) && 0 <= a && a + 4 <= |m| && (a + 4 <= lo || hi <= a)
    ensures |m'| == |m| && Long(m', a) == Long(m, a)
  {
  }

  // All of the stack, from its parts.
  lemma LemmaBuilt(m: seq<byte>, m3: seq<byte>, m4: seq<byte>, m5: seq<byte>, p0: int, args: seq<seq<byte>>, envs: seq<seq<byte>>,
                   sp: int, argv: int, envp: int, hi: int)
    requires LieAt(m, p0, args) && LieAt(m, p0 + |Flat(args)|, envs) && Proper(args) && Proper(envs)
    requires 0 <= sp && argv == sp + 12 && envp == argv + 4 * |args| + 4 && hi == envp + 4 * |envs| + 4 <= p0
    requires SameOutside(m, m3, sp, sp + 12) && SameOutside(m3, m4, argv, envp) && SameOutside(m4, m5, envp, hi)
    requires Long(m3, sp) == |args| && Long(m3, sp + 4) == argv && Long(m3, sp + 8) == envp
    requires Points(m4, argv, p0, args, |args|) && Long(m4, argv + 4 * |args|) == 0
    requires Points(m5, envp, p0 + |Flat(args)|, envs, |envs|) && Long(m5, envp + 4 * |envs|) == 0
    ensures Started(m5, sp, args, envs) && SameOutside(m, m5, sp, hi)
  {
    hide Flat, Points, Proper, LieAt, TableOf, Long, SameOutside;
    LemmaLieIn(m, p0, args);
    LemmaSameLonger(m, m3, m5, sp, argv, hi) by { LemmaSameLonger(m3, m4, m5, argv, envp, hi); }
    LemmaSameLonger(m3, m4, m5, argv, envp, hi);
    LemmaLongStays(m4, m5, argv + 4 * |args|, envp, hi);
    LemmaLongStays(m3, m5, sp, argv, hi);
    LemmaLongStays(m3, m5, sp + 4, argv, hi);
    LemmaLongStays(m3, m5, sp + 8, argv, hi);
    LemmaPointsStay(m4, m5, argv, p0, args, |args|, envp, hi);
    LemmaLieStays(m, m5, p0, args, sp, hi);
    LemmaLieStays(m, m5, p0 + |Flat(args)|, envs, sp, hi);
    LemmaTable(m5, argv, p0, args);
    LemmaTable(m5, envp, p0 + |Flat(args)|, envs);
  }

  lemma LemmaNoPoints(m: seq<byte>, table: int, p: int, ss: seq<seq<byte>>, hi: int)
    requires 0 <= table <= |m|
    ensures Points(m, table, p, ss, 0) && SameOutside(m, m, table, hi)
  {
  }

  lemma LemmaSameTwice(m: seq<byte>, m': seq<byte>, m'': seq<byte>, lo: int, hi: int, a: int, b: int)
    requires SameOutside(m, m', lo, hi) && SameOutside(m', m'', a, b) && lo <= a && b <= hi
    ensures SameOutside(m, m'', lo, hi)
  {
  }

  lemma LemmaOffsetStart(ss: seq<seq<byte>>)
    ensures Offset(ss, 0) == 0
  {
  }

  lemma LemmaLieIn(m: seq<byte>, p: int, ss: seq<seq<byte>>)
    requires LieAt(m, p, ss)
    ensures 0 <= p && p + |Flat(ss)| <= |m|
  {
  }

  lemma LemmaLieStays(m: seq<byte>, m': seq<byte>, p: int, ss: seq<seq<byte>>, lo: int, hi: int)
    requires LieAt(m, p, ss) && SameOutside(m, m', lo, hi) && hi <= p
    ensures LieAt(m', p, ss)
  {
    assert m'[p..p + |Flat(ss)|] == m[p..p + |Flat(ss)|];
  }

  lemma LemmaPointsStay(m: seq<byte>, m': seq<byte>, table: int, p: int, ss: seq<seq<byte>>, n: int, lo: int, hi: int)
    requires Points(m, table, p, ss, n) && SameOutside(m, m', lo, hi) && (hi <= table || table + 4 * n <= lo)
    ensures Points(m', table, p, ss, n)
  {
    forall k | 0 <= k < n ensures Long(m', table + 4 * k) == Long(m, table + 4 * k) {
    }
  }

  lemma LemmaSameSize(m: seq<byte>, m': seq<byte>, lo: int, hi: int)
    requires SameOutside(m, m', lo, hi)
    ensures |m'| == |m|
  {
  }

  lemma LemmaPointsMore(m: seq<byte>, m': seq<byte>, table: int, p: int, ss: seq<seq<byte>>, n: int)
    requires Points(m, table, p, ss, n) && n < |ss| && table + 4 * n + 4 <= |m| && SameOutside(m, m', table + 4 * n, table + 4 * n + 4)
    requires Long(m', table + 4 * n) == p + Offset(ss, n)
    ensures Points(m', table, p, ss, n + 1)
  {
    hide Long, Offset, SameOutside;
    LemmaPointsStay(m, m', table, p, ss, n, table + 4 * n, table + 4 * n + 4);
    LemmaSameSize(m, m', table + 4 * n, table + 4 * n + 4);
  }

  // Pointers to strings that lie there make a table of them.
  lemma LemmaTable(m: seq<byte>, table: int, p: int, ss: seq<seq<byte>>)
    requires LieAt(m, p, ss) && Proper(ss) && Points(m, table, p, ss, |ss|) && table + 4 * |ss| + 4 <= |m| && Long(m, table + 4 * |ss|) == 0 && p > 0
    ensures TableOf(m, table, ss)
  {
    hide Long, HasString, StringAt, Flat, Offset;
    forall k | 0 <= k < |ss|
      ensures Entry(m, table, k, ss[k])
    {
      LemmaLie(m, p, ss, k);
    }
  }

  lemma LemmaLieParts(m: seq<byte>, p: int, s: seq<seq<byte>>, t: seq<seq<byte>>)
    requires LieAt(m, p, s + t)
    ensures LieAt(m, p, s) && LieAt(m, p + |Flat(s)|, t)
  {
    hide Flat;
    LemmaFlatJoined(s, t);
    var u, v := Flat(s), Flat(t);
    var f := m[p..p + |u| + |v|];
    assert f == u + v;
    assert m[p..p + |u|] == f[..|u|];
    assert m[p + |u|..p + |u| + |v|] == f[|u|..];
  }

  const ROOM: int := TOP - 4

  // The strings ss are in the area, below its last word; p is 0 if they do not fit, or no page was left.
  ghost predicate Entered(a: Area, b: Area, p: int, wild: bool, ss: seq<seq<byte>>) {
    && Good(a) && Good(b)
    && if wild then |Flat(ss)| > ROOM
       else if p == 0 then Spare(a) <= 0 || |Flat(ss)| >= ROOM
       else p == ROOM - |Flat(ss)| && Holding(a, b, ROOM, Flat(ss))
  }

  lemma LemmaNothingEntered(a: Area)
    requires Good(a)
    ensures Entered(a, a, ROOM, false, [])
  {
  }

  lemma LemmaEntered(a: Area, b: Area, c: Area, p: int, p': int, wild: bool, more: seq<seq<byte>>, below: seq<seq<byte>>)
    requires Entered(a, b, p, false, below) && CopyEnds(b, c, p, Flat(more), p', wild)
    ensures Entered(a, c, p', wild, more + below)
  {
    hide Good, Flat;
    LemmaFlatJoined(more, below);
    if p != 0 && !wild && Holding(b, c, p, Flat(more)) {
      assert Holding(a, c, ROOM, Flat(more) + Flat(below));
    }
  }

  lemma LemmaTail(str: seq<byte>, argv: seq<int>, argc: int) returns (tail: seq<seq<byte>>)
    requires 0 <= argc && Readable(str, argv, argc)
    ensures var rest := if argv == [] then [] else argv[1..];
      Readable(str, rest, argc - 1) && tail == Strings(str, rest, argc - 1)
    ensures var args := Strings(str, argv, argc); tail == if args == [] then [] else args[1..]
    ensures |Strings(str, argv, argc)| == argc
  {
    tail := Strings(str, if argv == [] then [] else argv[1..], argc - 1);
  }

  lemma LemmaOneString(str: seq<byte>, p: int)
    requires HasString(str, p)
    ensures Readable(str, [p], 1) && Strings(str, [p], 1) == [StringAt(str, p)]
  {
  }

  lemma LemmaStepBack(p: int)
    requires 0 <= p <= TOP
    ensures p % PAGE_SIZE > 0 ==> (p - 1) / PAGE_SIZE == p / PAGE_SIZE && (p - 1) % PAGE_SIZE == p % PAGE_SIZE - 1
    ensures if p == 0 then (p - 1) % WORD / PAGE_SIZE >= MAX_ARG_PAGES else (p - 1) % WORD == p - 1
  {
  }

  lemma LemmaSameHolding(a: Area, b: Area, b': Area, p: int, s: seq<byte>)
    requires Holding(a, b, p, s) && Good(b') && Spare(b') == Spare(b) && forall x :: 0 <= x < TOP ==> At(b', x) == At(b, x)
    ensures Holding(a, b', p, s)
  {
    hide Good;
  }

  lemma LemmaNoneYet(a: Area, start: int)
    requires Good(a) && 0 <= start <= TOP
    ensures Holding(a, a, start, []) && Cursor(a, start, 0, 0) && Flat([]) == []
  {
  }

  lemma LemmaHeldIn(a: Area, b: Area, p: int, s: seq<byte>)
    requires Holding(a, b, p, s)
    ensures Good(a) && Good(b) && 0 <= p - |s|
  {
  }

  lemma LemmaStringEnd(m: seq<byte>, a: int)
    requires HasString(m, a)
    ensures 0 <= a && a + |StringAt(m, a)| + 1 <= |m| && m[a..a + |StringAt(m, a)| + 1] == StringAt(m, a) + [0]
  {
  }

  // The strings from n on start with string n; all of them are at least as long.
  lemma LemmaFlatLast(ss: seq<seq<byte>>, n: int)
    requires 0 <= n < |ss|
    ensures Flat(ss[n..]) == ss[n] + [0] + Flat(ss[n + 1..]) && |Flat(ss[n..])| <= |Flat(ss)|
  {
    assert ss[n..][1..] == ss[n + 1..];
    LemmaFlatJoined(ss[..n], ss[n..]);
    assert ss[..n] + ss[n..] == ss;
  }

  // ---------------------------------------------------------------- do_execve

  // NotExec: no interpreter name; Wild: a copy went below the start of the area.
  datatype Outcome = NotExec | NoMemory | Wild | Running(sp: int)

  // The argument list the new program is meant to get.
  function Wanted(script: bool, text: seq<byte>, file: seq<byte>, args: seq<seq<byte>>): seq<seq<byte>> {
    if script && ParseBang(text).Some? then Spliced(ParseBang(text).value, file, args) else args
  }

  // How it went: all is every string that went in, the first argc of them as arguments.
  ghost predicate Ends(a: Area, m: seq<byte>, r: Outcome, all: seq<seq<byte>>, argc: int, envc: int) {
    && (r.Wild? ==> |Flat(all)| > ROOM)
    && (r.NoMemory? ==> |Flat(all)| >= ROOM || Spare(a) <= 0)
    && (r.Running? ==>
          && |Flat(all)| < ROOM && 0 <= argc && 0 <= envc && argc + envc <= |all|
          && r.sp % 4 == 0 && Started(m, r.sp, all[..argc], all[argc..argc + envc]))
  }

  /** The argument part of do_execve, for a program (script is None) or for a script whose first block
      starts with "#!" (and whose interpreter is a program): the new stack. */
  method DoExecve(area: ArgPages, argv: seq<int>, envp: seq<int>, str: seq<byte>, filename: int, script: Option<seq<byte>>)
    returns (r: Outcome, user: array<byte>, ghost text: seq<byte>)
    requires area.Valid() && forall i :: 0 <= i < area.page.Length ==> area.page[i] == 0
    requires (argv == [] || 0 in argv) && Readable(str, argv, Pointers(argv))
    requires (envp == [] || 0 in envp) && Readable(str, envp, Pointers(envp))
    requires HasString(str, filename) && (script.Some? ==> |script.value| >= 1024)
    modifies area.page, area.mem, area.used
    ensures script.Some? ==> TextOf(script.value, text)
    ensures r.NotExec? <==> script.Some? && ParseBang(text).None?
    ensures !r.NotExec? ==>
      var args, envs := Strings(str, argv, Pointers(argv)), Strings(str, envp, Pointers(envp));
      var want := Wanted(script.Some?, text, StringAt(str, filename), args);
      Ends(old(area.View()), user[..], r, want + envs, |want| - (if script.Some? && args == [] then 1 else 0), |envs|)
  {
    hide Good, HasString, StringAt, Flat, ParseBang, Strings, TextOf, Entered, Started, Holding;
    user, text := new byte[0], [];
    ghost var a := area.View();
    var argc := Count(argv);
    var envc := Count(envp);
    ghost var all;
    var p, wild, ok;
    p, argc, wild, ok, text, all := EnterStrings(area, argc, argv, envc, envp, str, filename, script);
    if !ok {
      return NotExec, user, text;
    }
    LemmaEnteredMeans(a, area.View(), p, wild, all);
    if wild {
      r := Wild;
    } else if p == 0 {
      r := NoMemory;
    } else {
      var sp;
      user, sp := Launch(area, p, argc, envc, a, all);
      r := Running(sp);
    }
  }

  // The strings of a program, or those for the interpreter of a script; all is what goes in.
  method EnterStrings(area: ArgPages, argc0: int, argv: seq<int>, envc: int, envp: seq<int>, str: seq<byte>, filename: int, script: Option<seq<byte>>)
    returns (p: int, argc: int, wild: bool, ok: bool, ghost text: seq<byte>, ghost all: seq<seq<byte>>)
    requires area.Valid() && 0 <= argc0 && 0 <= envc && Readable(str, argv, argc0) && Readable(str, envp, envc)
    requires HasString(str, filename) && (script.Some? ==> |script.value| >= 1024)
    modifies area.page, area.mem, area.used
    ensures area.Valid() && (script.Some? ==> TextOf(script.value, text)) && ok == (script.Some? ==> ParseBang(text).Some?)
    ensures ok ==>
      var args, envs := Strings(str, argv, argc0), Strings(str, envp, envc);
      var want := Wanted(script.Some?, text, StringAt(str, filename), args);
      && all == want + envs && Proper(all) && |envs| == envc
      && 0 <= argc == |want| - (if script.Some? && args == [] then 1 else 0)
      && Entered(old(area.View()), area.View(), p, wild, all)
  {
    hide Good, HasString, StringAt, Flat, ParseBang, Strings, TextOf, Entered, Holding, Spliced;
    ghost var a := area.View();
    ghost var args, envs := Strings(str, argv, argc0), Strings(str, envp, envc);
    text, all := [], args + envs;
    if script.Some? {
      p, argc, wild, ok, text := area.ScriptStrings(argc0, argv, envc, envp, str, filename, script.value);
      if ok {
        LemmaSplicedStrings(script.value, text, str, filename, args);
        all := Wanted(true, text, StringAt(str, filename), args) + envs;
      }
      return;
    }
    LemmaNothingEntered(a);
    p, wild := area.Enter(envc, envp, str, ROOM, false, a, []);
    p, wild := area.Enter(argc0, argv, str, p, wild, a, envs + []);
    assert args + (envs + []) == args + envs;
    argc, ok := argc0, true;
  }

  // The new data segment, and the stack in it.
  method Launch(area: ArgPages, p0: int, argc: int, envc: int, ghost a: Area, ghost all: seq<seq<byte>>)
    returns (user: array<byte>, sp: int)
    requires area.Valid() && Holding(a, area.View(), ROOM, Flat(all)) && p0 == ROOM - |Flat(all)|
    requires Proper(all) && 0 <= argc && 0 <= envc && argc + envc <= |all|
    ensures fresh(user) && sp % 4 == 0 && Started(user[..], sp, all[..argc], all[argc..argc + envc])
  {
    hide Good, Flat, LieAt, Started, Proper, SameOutside;
    user := area.ChangeLdt();
    LemmaMoved(a, area.View(), user[..], p0, all);
    var p := p0 + DATA_LIMIT - TOP;
    LemmaPrefix(user[..], p, all, argc, argc + envc);
    sp := CreateTables(user, p, argc, envc, all[..argc], all[argc..argc + envc]);
  }

  lemma LemmaSplicedStrings(data: seq<byte>, text: seq<byte>, str: seq<byte>, filename: int, args: seq<seq<byte>>)
    requires |data| >= 1024 && TextOf(data, text) && ParseBang(text).Some? && HasString(str, filename) && Proper(args)
    ensures Proper(Wanted(true, text, StringAt(str, filename), args)) && |Wanted(true, text, StringAt(str, filename), args)| > 0
  {
    LemmaSplicedProper(text, StringAt(str, filename), args);
  }

  lemma LemmaEnteredMeans(a: Area, b: Area, p: int, wild: bool, all: seq<seq<byte>>)
    requires Entered(a, b, p, wild, all)
    ensures wild ==> |Flat(all)| > ROOM
    ensures !wild && p == 0 ==> Spare(a) <= 0 || |Flat(all)| >= ROOM
    ensures !wild && p != 0 ==> |Flat(all)| < ROOM && p == ROOM - |Flat(all)| && Holding(a, b, ROOM, Flat(all))
  {
  }

  lemma LemmaMoved(a: Area, b: Area, m: seq<byte>, p: int, all: seq<seq<byte>>)
    requires Holding(a, b, ROOM, Flat(all)) && p == ROOM - |Flat(all)| && |m| == DATA_LIMIT
    requires forall x :: 0 <= x < DATA_LIMIT ==> m[x] == if x < DATA_LIMIT - TOP then 0 else At(b, x - (DATA_LIMIT - TOP))
    ensures LieAt(m, p + DATA_LIMIT - TOP, all)
  {
    hide Flat, Good;
    var q := p + DATA_LIMIT - TOP;
    forall i | 0 <= i < |Flat(all)| ensures m[q..q + |Flat(all)|][i] == Flat(all)[i] {
      assert m[q + i] == At(b, p + i);
    }
  }

  lemma LemmaPrefix(m: seq<byte>, p: int, all: seq<seq<byte>>, argc: int, n: int)
    requires LieAt(m, p, all) && Proper(all) && 0 <= argc <= n <= |all| && p >= DATA_LIMIT - TOP && p <= DATA_LIMIT && |m| == DATA_LIMIT
    ensures LieAt(m, p, all[..argc] + all[argc..n]) && Proper(all[..argc]) && Proper(all[argc..n]) && StackFor(p, n) >= 0
  {
    LemmaOffsetEnd(all);
    LemmaLieParts(m, p, all[..n], all[n..]) by { assert all[..n] + all[n..] == all; }
    assert all[..argc] + all[argc..n] == all[..n];
  }

  /** What do_execve makes of the strings is right exactly unless a script is started without an
      argv[0]: then the program loses its last argument, the script's own name, to the front of the
      environment, which loses its last string. */
  lemma LemmaWhoGetsWhat(script: bool, text: seq<byte>, file: seq<byte>, args: seq<seq<byte>>, envs: seq<seq<byte>>)
    requires script ==> ParseBang(text).Some?
    ensures var want := Wanted(script, text, file, args);
      var argc := |want| - (if script && args == [] then 1 else 0);
      var all := want + envs;
      && 0 <= argc && argc + |envs| <= |all|
      && (all[..argc] == want && all[argc..argc + |envs|] == envs <==> !(script && args == []))
      && (script && args == [] ==>
            && want == all[..argc] + [file]
            && all[argc..argc + |envs|] == if envs == [] then [] else [file] + envs[..|envs| - 1])
  {
    hide ParseBang;
    var want := Wanted(script, text, file, args);
    var argc := |want| - (if script && args == [] then 1 else 0);
    assert (want + envs)[..|want|] == want;
    assert |(want + envs)[..argc]| == argc;
  }

  // A script of "/bin/sh" called "f" and started with no arguments and the environment string "A".
  lemma LemmaScriptLosesItsName()
    ensures var text := [47, 98, 105, 110, 47, 115, 104, 10];
      var all := Wanted(true, text, [102], []) + [[65]];
      all[..1] == [[115, 104]] && all[1..2] == [[102]]
  {
    LemmaShell();
  }

  lemma LemmaShell()
    ensures ParseBang([47, 98, 105, 110, 47, 115, 104, 10]) == Some(Bang([47, 98, 105, 110, 47, 115, 104], [115, 104], None))
  {
    hide FirstOf, BlanksIn, WordIn, BaseOf;
    var text: seq<byte> := [47, 98, 105, 110, 47, 115, 104, 10];
    var line: seq<byte> := [47, 98, 105, 110, 47, 115, 104];
    LemmaShellLine(text, line);
    LemmaShellName(line);
    assert text[0..7] == line && line[..7] == line;
  }

  lemma LemmaShellLine(text: seq<byte>, line: seq<byte>)
    requires text == line + [10] && line == [47, 98, 105, 110, 47, 115, 104]
    ensures FirstOf(text, NEWLINE) == 7 && text[..7] == line && BlanksIn(line) == 0 && WordIn(line) == 7
  {
    hide FirstOf, WordIn;
    var n := FirstOf(text, NEWLINE);
    assert text[..8][7] == NEWLINE;
    assert text[..7] == line;
    assert forall j :: 0 <= j < 7 ==> !Blank(line[j]);
  }

  lemma LemmaShellName(line: seq<byte>)
    requires line == [47, 98, 105, 110, 47, 115, 104]
    ensures line[BaseOf(line)..] == [115, 104]
  {
    hide BaseOf;
    var k := BaseOf(line);
    var j := if k <= 4 then k else 4;
    assert line[j..][4 - j] == SLASH;
    assert k == 5;
  }
}

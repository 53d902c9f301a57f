/** fs/exec.c as a matter of strings: how argument lists lie in memory, how they are read back from
    there, and what a "#!" line makes of them. */
module ExecArgs {
  import opened Basics
  import opened Bytes
  import opened Wrappers

  // ---------------------------------------------------------------- strings in memory

  // A string that ends somewhere starts at a.
  predicate HasString(m: seq<byte>, a: int)
    decreases |m| - a
  {
    0 <= a < |m| && (m[a] == 0 || HasString(m, a + 1))
  }

  function StringAt(m: seq<byte>, a: int): (s: seq<byte>)
    requires HasString(m, a)
    ensures a + |s| < |m| && m[a..a + |s|] == s && m[a + |s|] == 0 && 0 !in s
    decreases |m| - a
  {
    if m[a] == 0 then [] else
      var t := StringAt(m, a + 1);
      assert m[a..a + 1 + |t|] == [m[a]] + t;
      [m[a]] + t
  }

  predicate Proper(ss: seq<seq<byte>>) {
    forall k :: 0 <= k < |ss| ==> 0 !in ss[k]
  }

  // The strings one after the other, each with its terminating zero.
  function Flat(ss: seq<seq<byte>>): seq<byte> {
    if ss == [] then [] else ss[0] + [0] + Flat(ss[1..])
  }

  // Where string k starts in there.
  function Offset(ss: seq<seq<byte>>, k: int): nat
    requires 0 <= k <= |ss|
  {
    if k == 0 then 0 else |ss[0]| + 1 + Offset(ss[1..], k - 1)
  }

  lemma {:induction false} LemmaFlatJoined(s: seq<seq<byte>>, t: seq<seq<byte>>)
    ensures Flat(s + t) == Flat(s) + Flat(t)
  {
    if s == [] {
      assert s + t == t;
    } else {
      LemmaFlatJoined(s[1..], t);
      assert (s + t)[1..] == s[1..] + t;
    }
  }

  lemma {:induction false} LemmaOffset(ss: seq<seq<byte>>, k: int)
    requires 0 <= k < |ss|
    ensures Offset(ss, k) + |ss[k]| + 1 == Offset(ss, k + 1) <= |Flat(ss)|
    ensures Flat(ss)[Offset(ss, k)..Offset(ss, k) + |ss[k]|] == ss[k] && Flat(ss)[Offset(ss, k) + |ss[k]|] == 0
  {
    var head := ss[0] + [0];
    if k == 0 {
      assert Flat(ss) == head + Flat(ss[1..]);
      assert Flat(ss)[..|ss[0]|] == ss[0];
    } else {
      LemmaOffset(ss[1..], k - 1);
      var o := Offset(ss[1..], k - 1);
      assert Flat(ss)[|head| + o..|head| + o + |ss[k]|] == Flat(ss[1..])[o..o + |ss[k]|];
    }
  }

  lemma {:induction false} LemmaOffsetEnd(ss: seq<seq<byte>>)
    ensures Offset(ss, |ss|) == |Flat(ss)| && |ss| <= |Flat(ss)|
  {
    if ss != [] {
      LemmaOffsetEnd(ss[1..]);
    }
  }

  // What lies at a and ends in a zero is the string there.
  lemma {:induction false} LemmaStringAt(m: seq<byte>, a: int, s: seq<byte>)
    requires 0 <= a && a + |s| < |m| && m[a..a + |s|] == s && m[a + |s|] == 0 && 0 !in s
    ensures HasString(m, a) && StringAt(m, a) == s
    decreases |s|
  {
    if s != [] {
      assert m[a] == s[0];
      assert s[0] in s;
      assert m[a + 1..a + 1 + |s[1..]|] == s[1..];
      LemmaStringAt(m, a + 1, s[1..]);
    }
  }

  // The strings of ss lie one after the other from p on.
  predicate LieAt(m: seq<byte>, p: int, ss: seq<seq<byte>>) {
    0 <= p && p + |Flat(ss)| <= |m| && m[p..p + |Flat(ss)|] == Flat(ss)
  }

  lemma LemmaLie(m: seq<byte>, p: int, ss: seq<seq<byte>>, k: int)
    requires LieAt(m, p, ss) && Proper(ss) && 0 <= k < |ss|
    ensures Offset(ss, k) + |ss[k]| + 1 == Offset(ss, k + 1) <= |Flat(ss)|
    ensures HasString(m, p + Offset(ss, k)) && StringAt(m, p + Offset(ss, k)) == ss[k]
  {
    hide Flat, Offset, StringAt, HasString;
    LemmaOffset(ss, k);
    var o := Offset(ss, k);
    LemmaWindow(m, p, Flat(ss), o, o + |ss[k]|);
    LemmaStringAt(m, p + o, ss[k]);
  }

  lemma LemmaWindow(m: seq<byte>, p: int, f: seq<byte>, lo: int, hi: int)
    requires 0 <= p && p + |f| <= |m| && m[p..p + |f|] == f && 0 <= lo <= hi < |f|
    ensures m[p + lo..p + hi] == f[lo..hi] && m[p + hi] == f[hi]
  {
    forall i | lo <= i <= hi ensures m[p + i] == f[i] {
      assert m[p..p + |f|][i] == f[i];
    }
  }

  // ---------------------------------------------------------------- words in memory

  function ByteOf(v: int, i: int): byte
    requires 0 <= v && 0 <= i < 4
  {
    (if i == 0 then v % 256 else if i == 1 then v / 0x100 % 256 else if i == 2 then v / 0x1_0000 % 256 else v / 0x100_0000 % 256) as byte
  }

  // The little-endian word at a.
  function Long(m: seq<byte>, a: int): int
    requires 0 <= a && a + 4 <= |m|
  {
    m[a] as int + 0x100 * m[a + 1] as int + 0x1_0000 * m[a + 2] as int + 0x100_0000 * m[a + 3] as int
  }

  lemma LemmaLong(m: seq<byte>, a: int, v: int)
    requires 0 <= a && a + 4 <= |m| && 0 <= v < WORD
    requires m[a] == ByteOf(v, 0) && m[a + 1] == ByteOf(v, 1) && m[a + 2] == ByteOf(v, 2) && m[a + 3] == ByteOf(v, 3)
    ensures Long(m, a) == v
  {
    LemmaBytes(v);
  }

  lemma LemmaBytes(v: int)
    requires 0 <= v < WORD
    ensures v % 256 + 0x100 * (v / 0x100 % 256) + 0x1_0000 * (v / 0x1_0000 % 256) + 0x100_0000 * (v / 0x100_0000 % 256) == v
  {
    var b, c := v / 0x100, v / 0x1_0000;
    assert c == b / 256 && v / 0x100_0000 == c / 256 < 256;
    assert v == v % 256 + 0x100 * b && b == b % 256 + 0x100 * c && c == c % 256 + 0x100 * (c / 256);
  }

  // ---------------------------------------------------------------- what a program finds on its stack

  // A table at t of pointers to the strings of ss, ended by a null pointer.
  predicate TableOf(m: seq<byte>, t: int, ss: seq<seq<byte>>) {
    && 0 <= t && t + 4 * |ss| + 4 <= |m|
    && (forall k :: 0 <= k < |ss| ==> Entry(m, t, k, ss[k]))
    && Long(m, t + 4 * |ss|) == 0
  }

  // Pointer k of the table at t is not null and leads to s.
  predicate Entry(m: seq<byte>, t: int, k: int, s: seq<byte>)
    requires 0 <= t && 0 <= k && t + 4 * k + 4 <= |m|
  {
    Long(m, t + 4 * k) != 0 && HasString(m, Long(m, t + 4 * k)) && StringAt(m, Long(m, t + 4 * k)) == s
  }

  // The stack pointer of a new program: argc, argv and envp.
  predicate Started(m: seq<byte>, sp: int, args: seq<seq<byte>>, envs: seq<seq<byte>>) {
    && 0 <= sp && sp + 12 <= |m| && Long(m, sp) == |args|
    && TableOf(m, Long(m, sp + 4), args) && TableOf(m, Long(m, sp + 8), envs)
  }

  lemma LemmaNoNull(m: seq<byte>, t: int, ss: seq<seq<byte>>, k: int)
    requires TableOf(m, t, ss) && 0 <= k < |ss|
    ensures Long(m, t + 4 * k) != 0
  {
    assert Entry(m, t, k, ss[k]);
  }

  // A null pointer ends a table, so it has one list of strings.
  lemma LemmaOneTable(m: seq<byte>, t: int, ss: seq<seq<byte>>, ss': seq<seq<byte>>)
    requires TableOf(m, t, ss) && TableOf(m, t, ss')
    ensures ss == ss'
  {
    hide Long, HasString, StringAt;
    if |ss| < |ss'| {
      LemmaNoNull(m, t, ss', |ss|);
    } else if |ss'| < |ss| {
      LemmaNoNull(m, t, ss, |ss'|);
    }
    forall k | 0 <= k < |ss| && k < |ss'| ensures ss[k] == ss'[k] {
      assert Entry(m, t, k, ss[k]) && Entry(m, t, k, ss'[k]);
    }
  }

  /** The strings that a stack pointer leads to are determined: no two different argument lists or
      environments lie behind the same stack. */
  lemma LemmaStartedOnce(m: seq<byte>, sp: int, args: seq<seq<byte>>, envs: seq<seq<byte>>, args': seq<seq<byte>>, envs': seq<seq<byte>>)
    requires Started(m, sp, args, envs) && Started(m, sp, args', envs')
    ensures args == args' && envs == envs'
  {
    hide TableOf, Long;
    LemmaOneTable(m, Long(m, sp + 4), args, args');
    LemmaOneTable(m, Long(m, sp + 8), envs, envs');
  }

  // ---------------------------------------------------------------- the "#!" line

  const NEWLINE: byte := 10
  const SLASH: byte := 47

  predicate Blank(c: byte) { c == 32 || c == 9 }

  function FirstOf(s: seq<byte>, c: byte): (k: int)
    ensures 0 <= k <= |s| && c !in s[..k] && (k < |s| ==> s[k] == c)
  {
    if s == [] || s[0] == c then 0 else
      var k := FirstOf(s[1..], c);
      assert s[..k + 1] == [s[0]] + s[1..][..k];
      k + 1
  }

  function BlanksIn(s: seq<byte>): (k: int)
    ensures 0 <= k <= |s| && (forall j :: 0 <= j < k ==> Blank(s[j])) && (k < |s| ==> !Blank(s[k]))
  {
    if s == [] || !Blank(s[0]) then 0 else 1 + BlanksIn(s[1..])
  }

  function WordIn(s: seq<byte>): (k: int)
    ensures 0 <= k <= |s| && (forall j :: 0 <= j < k ==> !Blank(s[j])) && (k < |s| ==> Blank(s[k]))
  {
    if s == [] || Blank(s[0]) then 0 else 1 + WordIn(s[1..])
  }

  // Where the last component of a path starts.
  function BaseOf(s: seq<byte>): (k: int)
    ensures 0 <= k <= |s| && SLASH !in s[k..] && (k > 0 ==> s[k - 1] == SLASH)
  {
    if s == [] || s[|s| - 1] == SLASH then |s| else
      var t := s[..|s| - 1];
      assert s[BaseOf(t)..] == t[BaseOf(t)..] + [s[|s| - 1]];
      BaseOf(t)
  }

  // The interpreter of a script, its last component, and the argument for it.
  datatype Bang = Bang(interp: seq<byte>, name: seq<byte>, arg: Option<seq<byte>>)

  // The text after "#!", up to a zero byte; None is the error for no interpreter name.
  function ParseBang(text: seq<byte>): Option<Bang> {
    var n := FirstOf(text, NEWLINE);
    if n == |text| then None
    else
      var s := text[BlanksIn(text[..n])..n];
      if s == [] then None
      else
        var k := WordIn(s);
        Some(Bang(s[..k], s[..k][BaseOf(s[..k])..], if k < |s| then Some(s[k + 1..]) else None))
  }

  /** The line in full: blanks, the interpreter, and after one more blank all of the rest. */
  lemma LemmaParse(text: seq<byte>) returns (lead: seq<byte>, rest: seq<byte>, dir: seq<byte>)
    requires ParseBang(text).Some?
    ensures var b := ParseBang(text).value;
      && (forall c :: c in lead ==> Blank(c)) && b.interp != [] && (forall c :: c in b.interp ==> !Blank(c))
      && (forall c :: c in lead + b.interp + rest ==> c != NEWLINE)
      && lead + b.interp + rest + [NEWLINE] <= text
      && (match b.arg case None => rest == [] case Some(a) => rest != [] && Blank(rest[0]) && rest[1..] == a)
      && b.interp == dir + b.name && SLASH !in b.name && (dir != [] ==> dir[|dir| - 1] == SLASH)
  {
    hide FirstOf, BlanksIn, WordIn, BaseOf;
    var n := FirstOf(text, NEWLINE);
    var line := text[..n];
    var o := BlanksIn(line);
    var s := text[o..n];
    var k := WordIn(s);
    var b := ParseBang(text).value;
    hide ParseBang;
    lead, rest := line[..o], s[k..];
    dir := b.interp[..BaseOf(b.interp)];
    assert lead + b.interp + rest == line by { LemmaThree(text, o, k, n); }
    assert line + [NEWLINE] == text[..n + 1];
    assert s[0] == line[o];
  }

  /** A script is refused exactly if it has no newline, or only blanks before the first one. */
  lemma LemmaNoInterpreter(text: seq<byte>)
    ensures ParseBang(text).None? <==>
      NEWLINE !in text || exists n :: 0 <= n < |text| && text[n] == NEWLINE && forall k :: 0 <= k < n ==> Blank(text[k])
  {
    var n := FirstOf(text, NEWLINE);
    if n < |text| {
      var line := text[..n];
      assert forall k :: 0 <= k < n ==> line[k] == text[k] && line[k] in line;
      assert forall m :: 0 <= m < |text| && text[m] == NEWLINE ==> n <= m;
    }
  }

  lemma LemmaThree(text: seq<byte>, o: int, k: int, n: int)
    requires 0 <= o <= n <= |text| && 0 <= k <= n - o
    ensures text[..n][..o] + text[o..n][..k] + text[o..n][k..] == text[..n]
  {
  }

  // The argument list of an interpreter: its name, its argument, the script, the script's arguments.
  function Spliced(b: Bang, script: seq<byte>, args: seq<seq<byte>>): seq<seq<byte>> {
    [b.name] + (if b.arg.Some? then [b.arg.value] else []) + [script] + if args == [] then [] else args[1..]
  }

  lemma LemmaSplicedProper(text: seq<byte>, script: seq<byte>, args: seq<seq<byte>>)
    requires ParseBang(text).Some? && 0 !in text && 0 !in script && Proper(args)
    ensures Proper(Spliced(ParseBang(text).value, script, args))
  {
    hide WordIn, BaseOf, BlanksIn, FirstOf;
    var n := FirstOf(text, NEWLINE);
    var o := BlanksIn(text[..n]);
    LemmaNoZero(text, o, n);
    var s := text[o..n];
    var k := WordIn(s);
    LemmaNoZero(s, 0, k);
    LemmaNoZero(s[..k], BaseOf(s[..k]), k);
    if k < |s| {
      LemmaNoZero(s, k + 1, |s|);
    }
  }

  lemma LemmaNoZero(s: seq<byte>, lo: int, hi: int)
    requires 0 <= lo <= hi <= |s| && 0 !in s
    ensures 0 !in s[lo..hi] && (lo == 0 ==> 0 !in s[..hi]) && (hi == |s| ==> 0 !in s[lo..])
  {
    assert forall i :: 0 <= i < hi - lo ==> s[lo..hi][i] == s[lo + i];
    assert lo == 0 ==> s[lo..hi] == s[..hi];
    assert hi == |s| ==> s[lo..hi] == s[lo..];
  }

  // The order in which do_execve puts the strings in, from the environment on down.
  lemma LemmaOrder(b: Bang, script: seq<byte>, args: seq<seq<byte>>, envs: seq<seq<byte>>)
    ensures var list := [script] + ((if args == [] then [] else args[1..]) + (envs + []));
      [b.name] + (if b.arg.Some? then [b.arg.value] + list else list) == Spliced(b, script, args) + envs
  {
  }

  // The buffer of do_execve holds a text, and zeros after it.
  ghost predicate Holds(m: seq<byte>, text: seq<byte>) {
    |text| < |m| && 0 !in text && forall i :: 0 <= i < |m| ==> m[i] == if i < |text| then text[i] else 0
  }

  // The text after the first two bytes of a block, up to a zero byte.
  ghost predicate TextOf(data: seq<byte>, text: seq<byte>)
    requires |data| >= 1024
  {
    text <= data[2..1024] && 0 !in text && (|text| < 1022 ==> data[2 + |text|] == 0)
  }

  // strncpy of the rest of the block into a buffer with a zero at its end.
  method CopyText(data: seq<byte>) returns (buf: array<byte>, ghost text: seq<byte>)
    requires |data| >= 1024
    ensures fresh(buf) && buf.Length == 1023 && Holds(buf[..], text)
    ensures TextOf(data, text)
  {
    buf := new byte[1023](_ => 0);
    var i := 0;
    while i < 1022 && data[2 + i] != 0
      invariant 0 <= i <= 1022 && 0 !in data[2..2 + i]
      invariant forall k :: 0 <= k < 1023 ==> buf[k] == if k < i then data[2 + k] else 0
    {
      buf[i] := data[2 + i];
      assert data[2..2 + i + 1] == data[2..2 + i] + [data[2 + i]];
      i := i + 1;
    }
    text := data[2..2 + i];
  }

  // The scan of the "#!" line in place: where the interpreter, its name and its argument are in the
  // buffer (arg is -1 for none); false is the error.
  method ScanBang(buf: array<byte>, ghost text: seq<byte>) returns (interp: int, name: int, arg: int, ok: bool)
    requires Holds(buf[..], text)
    modifies buf
    ensures ok == ParseBang(text).Some?
    ensures ok ==> Found(buf[..], interp, name, arg, ParseBang(text).value)
  {
    hide WordIn, BaseOf, FirstOf, BlanksIn, ParseBang, Found, Holds, CutAt;
    interp, name, arg := 0, 0, -1;
    LemmaHeld(buf[..], text);
    var n := FindNewline(buf, text);
    LemmaParsed(text);
    if n == -1 {
      return 0, 0, -1, false;
    }
    LemmaHeldLine(buf[..], text, n);
    buf[n] := 0;
    var cp := SkipBlanks(buf, text[..n]);
    LemmaCutRest(buf[..], text, n, cp);
    if buf[cp] == 0 {
      return 0, 0, -1, false;
    }
    interp := cp;
    ghost var s := text[cp..n];
    cp, name := ScanWord(buf, interp, s);
    LemmaCutWord(buf[..], interp, s, cp - interp);
    if buf[cp] != 0 {
      buf[cp] := 0;
      cp := cp + 1;
      arg := cp;
    }
    LemmaFound(buf[..], interp, s);
    ok := true;
  }

  // The strings of a "#!" line are at these places of the buffer.
  ghost predicate Found(m: seq<byte>, interp: int, name: int, arg: int, b: Bang) {
    && HasString(m, interp) && StringAt(m, interp) == b.interp
    && HasString(m, name) && StringAt(m, name) == b.name
    && (match b.arg case None => arg == -1 case Some(a) => arg != -1 && HasString(m, arg) && StringAt(m, arg) == a)
  }

  // The bytes of s are in the buffer from o on, number k overwritten by a zero.
  ghost predicate CutAt(m: seq<byte>, o: int, s: seq<byte>, k: int) {
    && 0 <= o && o + |s| < |m| && m[o + |s|] == 0 && 0 !in s
    && forall i :: 0 <= i < |s| ==> m[o + i] == if i == k then 0 else s[i]
  }

  lemma LemmaHeld(m: seq<byte>, text: seq<byte>)
    requires Holds(m, text)
    ensures |text| < |m|
  {
  }

  lemma LemmaHeldLine(m: seq<byte>, text: seq<byte>, n: int)
    requires Holds(m, text) && 0 <= n < |text|
    ensures CutAt(m[n := 0], 0, text[..n], n)
  {
    LemmaNoZero(text, 0, n);
  }

  lemma LemmaCutRest(m: seq<byte>, text: seq<byte>, n: int, o: int)
    requires 0 <= o <= n <= |text| && CutAt(m, 0, text[..n], n)
    ensures n < |m| && CutAt(m, o, text[o..n], n - o) && (m[o] == 0 <==> o == n)
  {
    var line := text[..n];
    LemmaNoZero(line, o, n);
    assert line[o..n] == text[o..n];
    assert o < n ==> m[0 + o] == line[o] && line[o] in line;
  }

  lemma LemmaCutWord(m: seq<byte>, o: int, s: seq<byte>, k: int)
    requires CutAt(m, o, s, |s|) && 0 <= k <= |s|
    ensures 0 <= o && o + |s| < |m| && (m[o + k] != 0 <==> k < |s|) && CutAt(m[o + k := 0], o, s, k) && (k == |s| ==> CutAt(m, o, s, k))
  {
    assert k < |s| ==> m[o + k] == s[k] && s[k] in s;
  }

  lemma LemmaFound(m: seq<byte>, o: int, s: seq<byte>)
    requires CutAt(m, o, s, WordIn(s))
    ensures var k := WordIn(s);
      Found(m, o, o + BaseOf(s[..k]), if k < |s| then o + k + 1 else -1,
            Bang(s[..k], s[..k][BaseOf(s[..k])..], if k < |s| then Some(s[k + 1..]) else None))
  {
    hide WordIn, BaseOf, StringAt, HasString, CutAt, Found;
    var k := WordIn(s);
    var j := BaseOf(s[..k]);
    assert s[..k][j..] == s[j..k];
    LemmaPieces(m, o, s, k, j);
  }

  lemma LemmaPieces(m: seq<byte>, o: int, s: seq<byte>, k: int, j: int)
    requires CutAt(m, o, s, k) && 0 <= j <= k <= |s|
    ensures Found(m, o, o + j, if k < |s| then o + k + 1 else -1, Bang(s[..k], s[j..k], if k < |s| then Some(s[k + 1..]) else None))
  {
    hide StringAt, HasString, CutAt;
    LemmaPiece(m, o, s, k, 0, k);
    LemmaPiece(m, o, s, k, j, k);
    if k < |s| {
      LemmaPiece(m, o, s, k, k + 1, |s|);
    }
    assert s[0..k] == s[..k];
    assert k < |s| ==> s[k + 1..|s|] == s[k + 1..];
  }

  lemma LemmaPiece(m: seq<byte>, o: int, s: seq<byte>, k: int, lo: int, hi: int)
    requires CutAt(m, o, s, k) && 0 <= lo <= hi <= |s| && !(lo <= k < hi) && (hi == k || hi == |s|)
    ensures o >= 0 && HasString(m, o + lo) && StringAt(m, o + lo) == s[lo..hi]
  {
    assert m[o + lo..o + hi] == s[lo..hi];
    var t := s[lo..hi];
    assert hi < |s| ==> s[hi] in s && m[o + hi] == 0;
    assert forall i :: 0 <= i < |t| ==> t[i] == s[lo + i];
    LemmaStringAt(m, o + lo, t);
  }

  // The loop over leading blanks.
  method SkipBlanks(buf: array<byte>, ghost line: seq<byte>) returns (cp: int)
    requires CutAt(buf[..], 0, line, |line|)
    ensures cp == BlanksIn(line)
  {
    hide BlanksIn;
    assert line[0..] == line;
    cp := 0;
    while Blank(buf[cp])
      invariant 0 <= cp <= |line| && BlanksIn(line) == cp + BlanksIn(line[cp..])
      decreases |line| - cp
    {
      LemmaBlanks(line, cp);
      cp := cp + 1;
    }
    LemmaBlanks(line, cp);
  }

  lemma LemmaParsed(text: seq<byte>)
    ensures var n := FirstOf(text, NEWLINE);
      if n == |text| then ParseBang(text).None?
      else
        var s := text[BlanksIn(text[..n])..n];
        var k := WordIn(s);
        ParseBang(text) == if s == [] then None
          else Some(Bang(s[..k], s[..k][BaseOf(s[..k])..], if k < |s| then Some(s[k + 1..]) else None))
  {
  }

  lemma LemmaBlanks(s: seq<byte>, k: int)
    requires 0 <= k <= |s|
    ensures BlanksIn(s[k..]) == if k == |s| || !Blank(s[k]) then 0 else 1 + BlanksIn(s[k + 1..])
  {
    if k < |s| {
      assert s[k..][1..] == s[k + 1..];
    }
  }

  // The loop over the interpreter's path: its end, and where its last component starts.
  method ScanWord(buf: array<byte>, interp: int, ghost s: seq<byte>) returns (cp: int, name: int)
    requires CutAt(buf[..], interp, s, |s|)
    ensures cp == interp + WordIn(s) && name == interp + BaseOf(s[..WordIn(s)])
  {
    hide WordIn, BaseOf, BlanksIn, FirstOf, CutAt, Blank;
    LemmaWordStart(s);
    cp, name := interp, interp;
    LemmaCutByte(buf[..], interp, s, 0);
    while buf[cp] != 0 && !Blank(buf[cp])
      invariant interp <= cp <= interp + |s| && WordIn(s) == cp - interp + WordIn(s[cp - interp..])
      invariant name == interp + BaseOf(s[..cp - interp]) && 0 <= cp < buf.Length
      invariant buf[cp] != 0 ==> cp - interp < |s| && buf[cp] == s[cp - interp]
      invariant buf[cp] == 0 ==> cp - interp == |s|
      decreases interp + |s| - cp
    {
      LemmaWord(s, cp - interp);
      LemmaBase(s, cp - interp + 1);
      if buf[cp] == SLASH {
        name := cp + 1;
      }
      cp := cp + 1;
      LemmaCutByte(buf[..], interp, s, cp - interp);
    }
    LemmaWord(s, cp - interp);
  }

  lemma LemmaWordStart(s: seq<byte>)
    ensures WordIn(s) == 0 + WordIn(s[0..]) && BaseOf(s[..0]) == 0
  {
    assert s[0..] == s;
    LemmaBase(s, 0);
  }

  lemma LemmaCutByte(m: seq<byte>, o: int, s: seq<byte>, k: int)
    requires CutAt(m, o, s, |s|) && 0 <= k <= |s|
    ensures 0 <= o && o + k < |m| && (if m[o + k] != 0 then k < |s| && m[o + k] == s[k] else k == |s|)
  {
    if k < |s| {
      assert s[k] in s;
    }
  }

  lemma LemmaWord(s: seq<byte>, k: int)
    requires 0 <= k <= |s|
    ensures WordIn(s[k..]) == if k == |s| || Blank(s[k]) then 0 else 1 + WordIn(s[k + 1..])
  {
    if k < |s| {
      assert s[k..][1..] == s[k + 1..];
    }
  }

  lemma LemmaBase(s: seq<byte>, k: int)
    requires 0 <= k <= |s|
    ensures BaseOf(s[..k]) == if k == 0 || s[k - 1] == SLASH then k else BaseOf(s[..k - 1])
  {
    if k > 0 {
      assert s[..k][..k - 1] == s[..k - 1];
    }
  }

  // strchr for a newline; -1 for none.
  method FindNewline(buf: array<byte>, ghost text: seq<byte>) returns (n: int)
    requires Holds(buf[..], text)
    ensures n == if FirstOf(text, NEWLINE) < |text| then FirstOf(text, NEWLINE) else -1
  {
    n := 0;
    while buf[n] != 0 && buf[n] != NEWLINE
      invariant 0 <= n <= |text| && FirstOf(text, NEWLINE) == n + FirstOf(text[n..], NEWLINE)
      decreases |text| - n
    {
      n := n + 1;
    }
    if buf[n] == 0 {
      n := -1;
    }
  }
}

/** kernel/chr_drv/console.c as a screen: cells, a cursor, a scroll region and the state of the escape
    sequence, with no video memory.  Feed is con_write. */
module Terminal {
  import opened Basics

  const BLANK: int := 0x0720
  const NPAR: int := 16

  datatype Term = Term(cols: int, lines: int, cells: seq<int>, x: int, y: int, top: int, bottom: int,
                       state: int, npar: int, par: seq<int>, ques: bool, attr: int, savedX: int, savedY: int)

  predicate Fits(cols: int, lines: int) {
    4 <= cols < 0x1_0000 && cols % 2 == 0 && 0 < lines < 0x1_0000
  }

  /** The cursor is on the screen, or right after a line; the scroll region is a stretch of lines. */
  predicate Good(t: Term) {
    && Fits(t.cols, t.lines) && |t.cells| == t.cols * t.lines
    && 0 <= t.x <= t.cols && 0 <= t.y < t.lines && 0 <= t.top < t.bottom <= t.lines
    && 0 <= t.state <= 3 && 0 <= t.npar < NPAR == |t.par| && (forall i :: 0 <= i < NPAR ==> 0 <= t.par[i] < WORD)
    && 0 <= t.attr < 256 && 0 <= t.savedX && 0 <= t.savedY
  }

  // ---------------------------------------------------------------- cells

  function Blanks(n: nat): seq<int> { seq(n, _ => BLANK) }

  // The cells from lo to hi move n places towards lo; blanks come in at the end.
  function ShiftUp(s: seq<int>, lo: int, hi: int, n: nat): (r: seq<int>)
    requires 0 <= lo <= hi <= |s|
    ensures |r| == |s|
  {
    var k := Min(n, hi - lo);
    s[..lo] + s[lo + k..hi] + Blanks(k) + s[hi..]
  }

  // The cells from lo to hi move n places towards hi; blanks come in at the start.
  function ShiftDown(s: seq<int>, lo: int, hi: int, n: nat): (r: seq<int>)
    requires 0 <= lo <= hi <= |s|
    ensures |r| == |s|
  {
    var k := Min(n, hi - lo);
    s[..lo] + Blanks(k) + s[lo..hi - k] + s[hi..]
  }

  function Erase(s: seq<int>, lo: int, hi: int): (r: seq<int>)
    requires 0 <= lo <= hi <= |s|
    ensures |r| == |s|
  {
    s[..lo] + Blanks(hi - lo) + s[hi..]
  }

  lemma LemmaShiftAt(s: seq<int>, lo: int, hi: int, n: nat, i: int)
    requires 0 <= lo <= hi <= |s| && 0 <= i < |s|
    ensures ShiftUp(s, lo, hi, n)[i] == if lo <= i < hi - n then s[i + n] else if lo <= i < hi then BLANK else s[i]
    ensures ShiftDown(s, lo, hi, n)[i] == if lo + n <= i < hi then s[i - n] else if lo <= i < hi then BLANK else s[i]
  {
  }

  lemma LemmaShiftUpTwice(s: seq<int>, lo: int, hi: int, m: nat, n: nat)
    requires 0 <= lo <= hi <= |s|
    ensures ShiftUp(ShiftUp(s, lo, hi, m), lo, hi, n) == ShiftUp(s, lo, hi, m + n)
  {
    hide ShiftUp, ShiftDown;
    var t := ShiftUp(s, lo, hi, m);
    var r, want := ShiftUp(t, lo, hi, n), ShiftUp(s, lo, hi, m + n);
    forall i | 0 <= i < |s| ensures r[i] == want[i] {
      LemmaShiftAt(t, lo, hi, n, i);
      LemmaShiftAt(s, lo, hi, m + n, i);
      LemmaShiftAt(s, lo, hi, m, if lo <= i < hi - n then i + n else i);
    }
  }

  lemma LemmaShiftDownTwice(s: seq<int>, lo: int, hi: int, m: nat, n: nat)
    requires 0 <= lo <= hi <= |s|
    ensures ShiftDown(ShiftDown(s, lo, hi, m), lo, hi, n) == ShiftDown(s, lo, hi, m + n)
  {
    hide ShiftUp, ShiftDown;
    var t := ShiftDown(s, lo, hi, m);
    var r, want := ShiftDown(t, lo, hi, n), ShiftDown(s, lo, hi, m + n);
    forall i | 0 <= i < |s| ensures r[i] == want[i] {
      LemmaShiftAt(t, lo, hi, n, i);
      LemmaShiftAt(s, lo, hi, m + n, i);
      LemmaShiftAt(s, lo, hi, m, if lo + n <= i < hi then i - n else i);
    }
  }

  lemma LemmaEraseAt(s: seq<int>, lo: int, hi: int, i: int)
    requires 0 <= lo <= hi <= |s| && 0 <= i < |s|
    ensures Erase(s, lo, hi)[i] == if lo <= i < hi then BLANK else s[i]
  {
  }

  /** Deleting what was inserted brings back all but what the insertion pushed out. */
  lemma LemmaUndone(s: seq<int>, lo: int, hi: int, n: nat)
    requires 0 <= lo <= hi <= |s|
    ensures ShiftUp(ShiftDown(s, lo, hi, n), lo, hi, n) == Erase(s, hi - Min(n, hi - lo), hi)
    ensures ShiftDown(ShiftUp(s, lo, hi, n), lo, hi, n) == Erase(s, lo, lo + Min(n, hi - lo))
  {
    hide ShiftUp, ShiftDown, Erase;
    var t, u := ShiftDown(s, lo, hi, n), ShiftUp(s, lo, hi, n);
    var r, want := ShiftUp(t, lo, hi, n), Erase(s, hi - Min(n, hi - lo), hi);
    forall i | 0 <= i < |s| ensures r[i] == want[i] {
      LemmaShiftAt(t, lo, hi, n, i);
      LemmaShiftAt(s, lo, hi, n, if lo <= i < hi - n then i + n else i);
      LemmaEraseAt(s, hi - Min(n, hi - lo), hi, i);
    }
    var r', want' := ShiftDown(u, lo, hi, n), Erase(s, lo, lo + Min(n, hi - lo));
    forall i | 0 <= i < |s| ensures r'[i] == want'[i] {
      LemmaShiftAt(u, lo, hi, n, i);
      LemmaShiftAt(s, lo, hi, n, if lo + n <= i < hi then i - n else i);
      LemmaEraseAt(s, lo, lo + Min(n, hi - lo), i);
    }
  }

  // ---------------------------------------------------------------- lines

  lemma LemmaRows(cols: int, a: int, b: int)
    requires 0 <= cols && 0 <= a < b
    ensures 0 <= a * cols && a * cols + cols <= b * cols
  {
    var c := b - a - 1;
    assert c * cols >= 0;
    assert b * cols == (a + 1 + c) * cols == a * cols + cols + c * cols;
  }

  lemma LemmaLine(t: Term, a: int)
    requires Good(t) && 0 <= a <= t.lines
    ensures 0 <= a * t.cols <= |t.cells| && (a < t.lines ==> a * t.cols + t.cols <= |t.cells|)
  {
    LemmaRows(t.cols, a, t.lines + 1);
    if a < t.lines {
      LemmaRows(t.cols, a, t.lines);
    }
  }

  // Where the cursor is in the cells.
  function At(t: Term): (a: int)
    requires Good(t)
    ensures 0 <= a <= |t.cells| && 0 <= t.y * t.cols && t.y * t.cols + t.cols <= |t.cells|
    ensures a == t.y * t.cols + t.x && (t.x < t.cols ==> a < |t.cells|)
  {
    LemmaLine(t, t.y);
    t.y * t.cols + t.x
  }

  // scrup and scrdown over the lines from top to bottom, n times.
  function Scrup(t: Term, top: int, bottom: int, n: nat): (r: Term)
    requires Good(t) && 0 <= top < bottom <= t.lines
    ensures Good(r)
  {
    LemmaLine(t, top);
    LemmaLine(t, bottom);
    LemmaRows(t.cols, top, bottom);
    t.(cells := ShiftUp(t.cells, top * t.cols, bottom * t.cols, n * t.cols))
  }

  function Scrdown(t: Term, top: int, bottom: int, n: nat): (r: Term)
    requires Good(t) && 0 <= top < bottom <= t.lines
    ensures Good(r)
  {
    LemmaLine(t, top);
    LemmaLine(t, bottom);
    LemmaRows(t.cols, top, bottom);
    t.(cells := ShiftDown(t.cells, top * t.cols, bottom * t.cols, n * t.cols))
  }

  // ---------------------------------------------------------------- the cursor

  function Gotoxy(t: Term, x: int, y: int): (r: Term)
    requires Good(t) && 0 <= x && 0 <= y
    ensures Good(r)
  {
    if x > t.cols || y >= t.lines then t else t.(x := x, y := y)
  }

  function Lf(t: Term): (r: Term)
    requires Good(t)
    ensures Good(r)
  {
    if t.y + 1 < t.bottom then t.(y := t.y + 1) else Scrup(t, t.top, t.bottom, 1)
  }

  function Ri(t: Term): (r: Term)
    requires Good(t)
    ensures Good(r)
  {
    if t.y > t.top then t.(y := t.y - 1) else Scrdown(t, t.top, t.bottom, 1)
  }

  function Del(t: Term): (r: Term)
    requires Good(t)
    ensures Good(r)
  {
    if t.x > 0 then t.(x := t.x - 1, cells := t.cells[At(t) - 1 := BLANK]) else t
  }

  // ---------------------------------------------------------------- control sequences

  function CsiJ(t: Term, par: int): (r: Term)
    requires Good(t)
    ensures Good(r)
  {
    match par
    case 0 => t.(cells := Erase(t.cells, At(t), |t.cells|))
    case 1 => t.(cells := Erase(t.cells, 0, At(t)))
    case 2 => t.(cells := Blanks(|t.cells|))
    case _ => t
  }

  function CsiK(t: Term, par: int): (r: Term)
    requires Good(t)
    ensures Good(r)
  {
    var start := At(t) - t.x;
    match par
    case 0 => if t.x >= t.cols then t else t.(cells := Erase(t.cells, At(t), start + t.cols))
    case 1 => t.(cells := Erase(t.cells, start, start + Min(t.x, t.cols)))
    case 2 => t.(cells := Erase(t.cells, start, start + t.cols))
    case _ => t
  }

  function Attribute(attr: int, par: int): (r: int)
    requires 0 <= attr < 256
    ensures 0 <= r < 256
  {
    match par
    case 0 => 0x07
    case 1 => 0x0f
    case 4 => 0x0f
    case 7 => 0x70
    case 27 => 0x07
    case _ => attr
  }

  // The loop of csi_m from parameter i on.
  function Attributes(attr: int, par: seq<int>, npar: int, i: int): (r: int)
    requires 0 <= attr < 256 && 0 <= i && npar < |par|
    ensures 0 <= r < 256
    decreases npar - i
  {
    if i > npar then attr else Attributes(Attribute(attr, par[i]), par, npar, i + 1)
  }

  // How often a repeated command runs.
  function Times(nr: int, most: int): (n: nat)
    requires 0 <= nr && 0 < most
    ensures 1 <= n <= most
  {
    if nr > most then most else if nr == 0 then 1 else nr
  }

  function CsiAt(t: Term, nr: int): (r: Term)
    requires Good(t) && 0 <= nr
    ensures Good(r)
  {
    t.(cells := ShiftDown(t.cells, At(t), At(t) - t.x + t.cols, Times(nr, t.cols)))
  }

  function CsiP(t: Term, nr: int): (r: Term)
    requires Good(t) && 0 <= nr
    ensures Good(r)
  {
    t.(cells := ShiftUp(t.cells, At(t), At(t) - t.x + t.cols, Times(nr, t.cols)))
  }

  function CsiL(t: Term, nr: int): (r: Term)
    requires Good(t) && 0 <= nr
    ensures Good(r)
  {
    Scrdown(t, t.y, t.lines, Times(nr, t.lines))
  }

  function CsiM(t: Term, nr: int): (r: Term)
    requires Good(t) && 0 <= nr
    ensures Good(r)
  {
    Scrup(t, t.y, t.lines, Times(nr, t.lines))
  }

  // Setting the scroll region to the lines from p to q; p counts from 1, and q is 0 for the last line.
  function CsiR(t: Term): (r: Term)
    requires Good(t)
    ensures Good(r)
  {
    var p := if t.par[0] > 0 then t.par[0] - 1 else 0;
    var q := if t.par[1] == 0 then t.lines else t.par[1];
    var u := t.(par := t.par[0 := p][1 := q]);
    if p < q <= t.lines then u.(top := p, bottom := q) else u
  }

  function CsiH(t: Term): (r: Term)
    requires Good(t)
    ensures Good(r)
  {
    var p := if t.par[0] > 0 then t.par[0] - 1 else 0;
    var q := if t.par[1] > 0 then t.par[1] - 1 else 0;
    Gotoxy(t.(par := t.par[0 := p][1 := q]), q, p)
  }

  // The final byte of a control sequence.
  function Csi(t: Term, c: char): (r: Term)
    requires Good(t)
    ensures Good(r)
  {
    var p := t.par[0];
    var less, more := if p > 0 then p - 1 else 0, if p == 0 then 1 else p;
    var down, up := t.(par := t.par[0 := less]), t.(par := t.par[0 := more]);
    match c
    case 'G' => Gotoxy(down, less, t.y)
    case '`' => Gotoxy(down, less, t.y)
    case 'A' => Gotoxy(up, t.x, (t.y - more) % WORD)
    case 'B' => Gotoxy(up, t.x, (t.y + more) % WORD)
    case 'e' => Gotoxy(up, t.x, (t.y + more) % WORD)
    case 'C' => Gotoxy(up, (t.x + more) % WORD, t.y)
    case 'a' => Gotoxy(up, (t.x + more) % WORD, t.y)
    case 'D' => Gotoxy(up, (t.x - more) % WORD, t.y)
    case 'E' => Gotoxy(up, 0, (t.y + more) % WORD)
    case 'F' => Gotoxy(up, 0, (t.y - more) % WORD)
    case 'd' => Gotoxy(down, t.x, less)
    case 'H' => CsiH(t)
    case 'f' => CsiH(t)
    case 'J' => CsiJ(t, p)
    case 'K' => CsiK(t, p)
    case 'L' => CsiL(t, p)
    case 'M' => CsiM(t, p)
    case 'P' => CsiP(t, p)
    case '@' => CsiAt(t, p)
    case 'm' => t.(attr := Attributes(t.attr, t.par, t.npar, 0))
    case 'r' => CsiR(t)
    case 's' => t.(savedX := t.x, savedY := t.y)
    case 'u' => Gotoxy(t, t.savedX, t.savedY)
    case _ => t
  }

  // ---------------------------------------------------------------- con_write

  // A printable byte, after wrapping the cursor to the next line if need be.
  function Show(t: Term, c: char): (r: Term)
    requires Good(t) && 31 < c as int < 127
    ensures Good(r)
  {
    var u := if t.x >= t.cols then Lf(t.(x := t.x - t.cols)) else t;
    u.(cells := u.cells[At(u) := u.attr * 256 + c as int], x := u.x + 1)
  }

  function Tab(t: Term): (r: Term)
    requires Good(t)
    ensures Good(r)
  {
    var x := t.x + 8 - t.x % 8;
    if x > t.cols then Lf(t.(x := x - t.cols)) else t.(x := x)
  }

  function Plain(t: Term, c: char, erase: char): (r: Term)
    requires Good(t)
    ensures Good(r)
  {
    var b := c as int;
    if 31 < b < 127 then Show(t, c)
    else if b == 27 then t.(state := 1)
    else if b == 10 || b == 11 || b == 12 then Lf(t)
    else if b == 13 then t.(x := 0)
    else if c == erase && b < 128 then Del(t)
    else if b == 8 then (if t.x > 0 then t.(x := t.x - 1) else t)
    else if b == 9 then Tab(t)
    else t
  }

  // After an escape; the two tests against '7' and '8' are on the cursor column, not on the byte.
  function Escape(t: Term, c: char): (r: Term)
    requires Good(t)
    ensures Good(r)
  {
    var u := t.(state := 0);
    if c == '[' then t.(state := 2)
    else if c == 'E' then Gotoxy(u, 0, t.y + 1)
    else if c == 'M' then Ri(u)
    else if c == 'D' then Lf(u)
    else if c == 'Z' then u
    else if t.x == '7' as int then u.(savedX := t.x, savedY := t.y)
    else if t.x == '8' as int then Gotoxy(u, t.savedX, t.savedY)
    else u
  }

  function Params(t: Term, c: char): (r: Term)
    requires Good(t)
    ensures Good(r)
  {
    if c == ';' && t.npar < NPAR - 1 then t.(npar := t.npar + 1)
    else if '0' <= c <= '9' then
      t.(par := t.par[t.npar := (10 * t.par[t.npar] + c as int - '0' as int) % WORD])
    else Csi(t.(state := 0), c)
  }

  function Put(t: Term, c: char, erase: char): (r: Term)
    requires Good(t)
    ensures Good(r)
  {
    match t.state
    case 0 => Plain(t, c, erase)
    case 1 => Escape(t, c)
    case 2 =>
      var u := t.(par := seq(NPAR, _ => 0), npar := 0, state := 3, ques := c == '?');
      if c == '?' then u else Params(u, c)
    case _ => Params(t, c)
  }

  // Saving and restoring the cursor, as the escape sequences 7 and 8 mean.
  function Saved(t: Term): Term { t.(state := 0, savedX := t.x, savedY := t.y) }

  function Restored(t: Term): Term
    requires Good(t)
  {
    Gotoxy(t.(state := 0), t.savedX, t.savedY)
  }

  // The byte after an escape is none of those with a meaning that the code tests for.
  predicate Other(c: char) { c !in "[EMDZ" }

  // The saved place is on the screen, and not where the cursor is.
  predicate Elsewhere(t: Term) {
    t.savedX <= t.cols && t.savedY < t.lines && (t.savedX, t.savedY) != (t.x, t.y)
  }

  /** What saves and restores the cursor is its column: 55 saves and 56 restores, whatever the byte, and
      any other column does nothing.  So the sequences 7 and 8 do what they mean exactly in those
      columns, unless there is nothing to be seen of it. */
  lemma LemmaSaveRestore(t: Term, c: char, erase: char)
    requires Good(t) && t.state == 1 && Other(c)
    ensures var r := Put(t, c, erase);
      && (t.x != 55 && t.x != 56 ==> r == t.(state := 0))
      && (Elsewhere(t) ==> (r == Saved(t) <==> t.x == 55) && (r == Restored(t) <==> t.x == 56))
    ensures Put(t, '7', erase) == Saved(t) <==> t.x == 55 || (t.savedX, t.savedY) == (t.x, t.y)
    ensures Put(t, '8', erase) == Restored(t) <==>
      || t.x == 56 || (t.savedX, t.savedY) == (t.x, t.y)
      || (t.x != 55 && !(t.savedX <= t.cols && t.savedY < t.lines))
  {
  }

  // A cursor in the first column of line 3 is not saved, and the place of the one saved before stays.
  lemma LemmaNothingSaved(erase: char)
    ensures var t := Term(80, 25, Blanks(2000), 0, 3, 0, 25, 0, 0, seq(NPAR, _ => 0), false, 0x07, 0, 0);
      Good(t) && Feed(t, [27 as char, '7'], erase) == t && Saved(t) != t
  {
    var t := Term(80, 25, Blanks(2000), 0, 3, 0, 25, 0, 0, seq(NPAR, _ => 0), false, 0x07, 0, 0);
    assert [27 as char, '7'][1..] == ['7'] && ['7'][1..] == [];
    assert Put(t, 27 as char, erase) == t.(state := 1);
    LemmaSaveRestore(t.(state := 1), '7', erase);
  }

  /** con_write of a string: from every input, the cursor and the scroll region stay where they may be. */
  function Feed(t: Term, s: seq<char>, erase: char): (r: Term)
    requires Good(t)
    ensures Good(r)
    decreases |s|
  {
    if s == [] then t else Feed(Put(t, s[0], erase), s[1..], erase)
  }

  lemma {:induction false} LemmaFeedJoined(t: Term, a: seq<char>, b: seq<char>, erase: char)
    requires Good(t)
    ensures Feed(t, a + b, erase) == Feed(Feed(t, a, erase), b, erase)
    decreases |a|
  {
    hide Good, Put;
    if a == [] {
      assert a + b == b;
    } else {
      assert (a + b)[1..] == a[1..] + b;
      LemmaGoodPut(t, a[0], erase);
      LemmaFeedJoined(Put(t, a[0], erase), a[1..], b, erase);
    }
  }

  lemma LemmaGoodPut(t: Term, c: char, erase: char)
    requires Good(t)
    ensures Good(Put(t, c, erase))
  {
  }

  // ---------------------------------------------------------------- cursor addressing

  function Digit(d: int): (c: char)
    requires 0 <= d < 10
    ensures '0' <= c <= '9' && c as int == d + '0' as int
  {
    (d + '0' as int) as char
  }

  // A number as a program would print it.
  function Dec(n: nat): (s: seq<char>)
    ensures s != []
  {
    if n < 10 then [Digit(n)] else Dec(n / 10) + [Digit(n % 10)]
  }

  lemma {:induction false} LemmaDec(t: Term, n: nat, erase: char)
    requires Good(t) && t.state == 3 && t.par[t.npar] == 0 && n < WORD
    ensures Feed(t, Dec(n), erase) == t.(par := t.par[t.npar := n])
    decreases n
  {
    hide Put, Feed;
    if n < 10 {
      LemmaFeedOne(t, Digit(n), erase);
      LemmaDigit(t, n, erase);
    } else {
      LemmaDec(t, n / 10, erase);
      var u := t.(par := t.par[t.npar := n / 10]);
      LemmaFeedJoined(t, Dec(n / 10), [Digit(n % 10)], erase);
      LemmaFeedOne(u, Digit(n % 10), erase);
      LemmaDigit(u, n % 10, erase);
      assert u.par[t.npar := n] == t.par[t.npar := n];
    }
  }

  lemma LemmaDigit(t: Term, d: int, erase: char)
    requires Good(t) && t.state == 3 && 0 <= d < 10 && 10 * t.par[t.npar] + d < WORD
    ensures Put(t, Digit(d), erase) == t.(par := t.par[t.npar := 10 * t.par[t.npar] + d])
  {
  }

  lemma LemmaFeedOne(t: Term, c: char, erase: char)
    requires Good(t)
    ensures Feed(t, [c], erase) == Put(t, c, erase)
  {
    assert [c][1..] == [];
    assert Feed(Put(t, c, erase), [], erase) == Put(t, c, erase);
  }

  /** The sequence that addresses the cursor moves it to the line and column it names, counted from 1
      (the column after the last included), and does nothing to the screen; any other address, it
      ignores. */
  lemma LemmaAddress(t: Term, line: nat, column: nat, erase: char)
    requires Good(t) && t.state == 0 && 1 <= line < WORD && 1 <= column < WORD
    ensures var r := Feed(t, [27 as char, '['] + Dec(line) + [';'] + Dec(column) + ['H'], erase);
      && r.cells == t.cells && r.state == 0 && (r.top, r.bottom, r.attr) == (t.top, t.bottom, t.attr)
      && (r.x, r.y) == if line <= t.lines && column <= t.cols + 1 then (column - 1, line - 1) else (t.x, t.y)
  {
    var a, b, c, d, e := [27 as char, '['], Dec(line), [';'], Dec(column), ['H'];
    LemmaFeedJoined(t, a + b + c + d, e, erase);
    LemmaFeedJoined(t, a + b + c, d, erase);
    LemmaFeedJoined(t, a + b, c, erase);
    LemmaFeedJoined(t, a, b, erase);
    var t1 := Feed(t, a, erase);
    LemmaFeedJoined(t, [27 as char], ['['], erase);
    assert a == [27 as char] + ['['];
    LemmaFeedOne(t, 27 as char, erase);
    LemmaFeedOne(t.(state := 1), '[', erase);
    assert t1 == t.(state := 2);
    LemmaFirstParam(t, line, erase);
    var t2 := t.(par := seq(NPAR, _ => 0)[0 := line], npar := 0, state := 3, ques := false);
    assert Feed(t1, b, erase) == t2;
    LemmaFeedOne(t2, ';', erase);
    var t3 := t2.(npar := 1);
    LemmaDec(t3, column, erase);
    LemmaFeedOne(t3.(par := t3.par[1 := column]), 'H', erase);
  }

  // The first digit both clears the parameters and counts.
  lemma LemmaFirstParam(t: Term, n: nat, erase: char)
    requires Good(t) && t.state == 0 && n < WORD
    ensures Feed(t.(state := 2), Dec(n), erase) == t.(par := seq(NPAR, _ => 0)[0 := n], npar := 0, state := 3, ques := false)
  {
    var t2 := t.(state := 2);
    var t3 := t.(par := seq(NPAR, _ => 0), npar := 0, state := 3, ques := false);
    LemmaDec(t3, n, erase);
    LemmaFirstDigit(n);
    var s := Dec(n);
    assert Put(t2, s[0], erase) == Put(t3, s[0], erase);
  }

  lemma {:induction false} LemmaFirstDigit(n: nat)
    ensures '0' <= Dec(n)[0] <= '9'
  {
    if n >= 10 {
      LemmaFirstDigit(n / 10);
    }
  }

  // ---------------------------------------------------------------- text

  predicate Printable(s: seq<char>) {
    forall i :: 0 <= i < |s| ==> 31 < s[i] as int < 127
  }

  /** Text that fits on the line goes into the cells from the cursor on, and nowhere else. */
  lemma {:induction false} LemmaText(t: Term, s: seq<char>, erase: char)
    requires Good(t) && t.state == 0 && Printable(s) && t.x + |s| <= t.cols
    ensures var r := Feed(t, s, erase);
      && r == t.(cells := r.cells, x := t.x + |s|)
      && forall i :: 0 <= i < |t.cells| ==>
           r.cells[i] == if At(t) <= i < At(t) + |s| then t.attr * 256 + s[i - At(t)] as int else t.cells[i]
    decreases |s|
  {
    if s != [] {
      var u := Put(t, s[0], erase);
      assert At(u) == At(t) + 1;
      LemmaText(u, s[1..], erase);
    }
  }

  predicate Unescaped(s: seq<char>) {
    forall i :: 0 <= i < |s| ==> s[i] as int != 27
  }

  // The cursor is in the scroll region, and the cells outside of it are those of t.
  predicate Inside(t: Term, r: Term) {
    && Good(t) && Good(r) && r == t.(cells := r.cells, x := r.x, y := r.y) && t.top <= r.y < t.bottom
    && forall i :: 0 <= i < |t.cells| && !(t.top * t.cols <= i < t.bottom * t.cols) ==> r.cells[i] == t.cells[i]
  }

  lemma LemmaInside(t: Term, r: Term, c: char, erase: char)
    requires Inside(t, r) && t.state == 0 && c as int != 27
    ensures Inside(t, Put(r, c, erase))
  {
    hide Lf, Show, Tab, Del, Escape, Params;
    LemmaInsideLf(t, r);
    LemmaInsideTab(t, r);
    LemmaInsideDel(t, r);
    if 31 < c as int < 127 {
      LemmaInsideShow(t, r, c);
    }
  }

  lemma LemmaInsideShow(t: Term, r: Term, c: char)
    requires Inside(t, r) && 31 < c as int < 127
    ensures Inside(t, Show(r, c))
  {
    hide Lf;
    var u := r;
    if r.x >= r.cols {
      u := Lf(r.(x := r.x - r.cols));
      LemmaInsideLf(t, r.(x := r.x - r.cols));
    }
    LemmaInsideCell(t, u, At(u), u.attr * 256 + c as int);
  }

  lemma LemmaInsideTab(t: Term, r: Term)
    requires Inside(t, r)
    ensures Inside(t, Tab(r))
  {
    hide Lf;
    var x := r.x + 8 - r.x % 8;
    if x > r.cols {
      LemmaInsideLf(t, r.(x := x - r.cols));
    }
  }

  lemma LemmaInsideDel(t: Term, r: Term)
    requires Inside(t, r)
    ensures Inside(t, Del(r))
  {
    if r.x > 0 {
      LemmaInsideCell(t, r, At(r) - 1, BLANK);
    }
  }

  lemma LemmaInsideLf(t: Term, r: Term)
    requires Inside(t, r)
    ensures Inside(t, Lf(r)) && Lf(r).x == r.x
  {
    LemmaLine(t, t.top);
    LemmaLine(t, t.bottom);
  }

  lemma LemmaInsideCell(t: Term, r: Term, a: int, cell: int)
    requires Inside(t, r) && r.y * t.cols <= a < r.y * t.cols + t.cols && 0 <= a < |r.cells|
    ensures Inside(t, r.(cells := r.cells[a := cell]))
  {
    LemmaRowsBetween(t.cols, t.top, r.y, t.bottom);
  }

  lemma LemmaRowsBetween(cols: int, top: int, y: int, bottom: int)
    requires 0 <= cols && 0 <= top <= y < bottom
    ensures top * cols <= y * cols && y * cols + cols <= bottom * cols
  {
    LemmaRows(cols, y, bottom);
    if top < y {
      LemmaRows(cols, top, y);
    }
  }

  /** Whatever is written without escapes from inside the scroll region stays inside it. */
  lemma {:induction false} LemmaRegion(t: Term, r: Term, s: seq<char>, erase: char)
    requires Inside(t, r) && t.state == 0 && Unescaped(s)
    ensures Inside(t, Feed(r, s, erase))
    decreases |s|
  {
    hide Put;
    if s != [] {
      LemmaInside(t, r, s[0], erase);
      LemmaRegion(t, Put(r, s[0], erase), s[1..], erase);
    }
  }
}

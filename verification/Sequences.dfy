/** What each control character and escape sequence shows: statements about con_write (Feed) of the
    bytes themselves, by line and column of the screen. */
module Sequences {
  import opened Basics
  import opened Terminal

  // The cell in column x of line y.
  function Cell(t: Term, x: int, y: int): int
    requires Good(t) && 0 <= x < t.cols && 0 <= y < t.lines
  {
    LemmaLine(t, y);
    t.cells[y * t.cols + x]
  }

  predicate OnScreen(t: Term, x: int, y: int) { 0 <= x < t.cols && 0 <= y < t.lines }

  // Only cursor and cells may differ.
  predicate SameModes(t: Term, r: Term) {
    && Good(t) && Good(r) && (r.cols, r.lines) == (t.cols, t.lines) && r.state == 0
    && (r.top, r.bottom, r.attr, r.savedX, r.savedY) == (t.top, t.bottom, t.attr, t.savedX, t.savedY)
  }

  // The cursor goes to (x, y), if that is on the screen or right after a line; no cell changes.
  predicate Goes(t: Term, r: Term, x: int, y: int) {
    && SameModes(t, r) && r.cells == t.cells
    && (r.x, r.y) == if 0 <= x <= t.cols && 0 <= y < t.lines then (x, y) else (t.x, t.y)
  }

  // The cursor stays.
  predicate Stays(t: Term, r: Term) { SameModes(t, r) && (r.x, r.y) == (t.x, t.y) }

  // ---------------------------------------------------------------- lines and cells

  lemma LemmaLower(cols: int, a: int, b: int)
    requires 0 <= cols && a < b
    ensures a * cols + cols <= b * cols
  {
    var c := b - a - 1;
    assert c * cols >= 0;
    assert b * cols == (a + 1 + c) * cols == a * cols + cols + c * cols;
  }

  lemma LemmaPlace(cols: int, x: int, y: int, x0: int, y0: int)
    requires 0 <= x < cols && 0 <= x0 <= cols
    ensures y * cols + x < y0 * cols + x0 <==> y < y0 || (y == y0 && x < x0)
  {
    if y < y0 {
      LemmaLower(cols, y, y0);
    } else if y > y0 {
      LemmaLower(cols, y0, y);
    }
  }

  lemma LemmaDown(cols: int, y: int, n: int)
    ensures (y + n) * cols == y * cols + n * cols && (y - n) * cols == y * cols - n * cols
  {
  }

  // The lines from top to bottom n places up, or down, with blank lines behind them.
  function Up(t: Term, top: int, bottom: int, n: nat, x: int, y: int): int
    requires Good(t) && 0 <= top < bottom <= t.lines && OnScreen(t, x, y)
  {
    if !(top <= y < bottom) then Cell(t, x, y) else if y + n < bottom then Cell(t, x, y + n) else BLANK
  }

  function Down(t: Term, top: int, bottom: int, n: nat, x: int, y: int): int
    requires Good(t) && 0 <= top < bottom <= t.lines && OnScreen(t, x, y)
  {
    if !(top <= y < bottom) then Cell(t, x, y) else if top <= y - n then Cell(t, x, y - n) else BLANK
  }

  lemma LemmaSameShape(t: Term, r: Term, x: int, y: int)
    requires Good(t) && Good(r) && (r.cols, r.lines) == (t.cols, t.lines) && OnScreen(t, x, y)
    ensures 0 <= y * t.cols + x < |t.cells| == |r.cells| && Cell(r, x, y) == r.cells[y * t.cols + x]
  {
    LemmaLine(t, y);
  }

  lemma LemmaRow(cols: int, x: int, y: int, a: int)
    requires 0 <= x < cols
    ensures y * cols + x < a * cols <==> y < a
  {
    LemmaPlace(cols, x, y, 0, a);
  }

  lemma LemmaRowDown(cols: int, x: int, y: int, n: int, a: int)
    requires 0 <= x < cols
    ensures (y + n) * cols + x == y * cols + x + n * cols
    ensures y * cols + x < a * cols - n * cols <==> y + n < a
  {
    LemmaDown(cols, y, n);
    LemmaRow(cols, x, y + n, a);
  }

  lemma LemmaRowUp(cols: int, x: int, y: int, n: int, a: int)
    requires 0 <= x < cols
    ensures (y - n) * cols + x == y * cols + x - n * cols
    ensures a * cols + n * cols <= y * cols + x <==> a <= y - n
  {
    LemmaDown(cols, y, n);
    LemmaRow(cols, x, y - n, a);
  }

  // Where a cell is in a stretch of lines.
  lemma LemmaInStretch(t: Term, top: int, bottom: int, n: nat, x: int, y: int)
    requires Good(t) && 0 <= top < bottom <= t.lines && OnScreen(t, x, y)
    ensures var i, lo, hi, m := y * t.cols + x, top * t.cols, bottom * t.cols, n * t.cols;
      && 0 <= lo <= hi <= |t.cells| && 0 <= i < |t.cells| && 0 <= m
      && (lo <= i <==> top <= y) && (i < hi <==> y < bottom)
      && (i < hi - m <==> y + n < bottom) && (lo + m <= i <==> top <= y - n)
      && (y + n) * t.cols + x == i + m && (y - n) * t.cols + x == i - m
  {
    LemmaScrollIs(t, top, bottom, n);
    hide Good;
    LemmaSameShape(t, t, x, y);
    LemmaRow(t.cols, x, y, top);
    LemmaRow(t.cols, x, y, bottom);
    LemmaRowDown(t.cols, x, y, n, bottom);
    LemmaRowUp(t.cols, x, y, n, top);
  }

  // What scrolling a stretch of lines shows.
  lemma LemmaScrolled(t: Term, top: int, bottom: int, n: nat, x: int, y: int)
    requires Good(t) && 0 <= top < bottom <= t.lines && OnScreen(t, x, y)
    ensures Cell(Scrup(t, top, bottom, n), x, y) == Up(t, top, bottom, n, x, y)
    ensures Cell(Scrdown(t, top, bottom, n), x, y) == Down(t, top, bottom, n, x, y)
  {
    LemmaScrolledUp(t, top, bottom, n, x, y);
    LemmaScrolledDown(t, top, bottom, n, x, y);
  }

  lemma LemmaScrolledUp(t: Term, top: int, bottom: int, n: nat, x: int, y: int)
    requires Good(t) && 0 <= top < bottom <= t.lines && OnScreen(t, x, y)
    ensures Cell(Scrup(t, top, bottom, n), x, y) == Up(t, top, bottom, n, x, y)
  {
    hide Good, ShiftUp, ShiftDown, Scrup, Scrdown, Cell;
    LemmaInStretch(t, top, bottom, n, x, y);
    LemmaScrollIs(t, top, bottom, n);
    LemmaShiftAt(t.cells, top * t.cols, bottom * t.cols, n * t.cols, y * t.cols + x);
    LemmaSameShape(t, Scrup(t, top, bottom, n), x, y);
    LemmaSameShape(t, t, x, y);
    if top <= y && y + n < bottom {
      LemmaSameShape(t, t, x, y + n);
    }
  }

  lemma LemmaScrolledDown(t: Term, top: int, bottom: int, n: nat, x: int, y: int)
    requires Good(t) && 0 <= top < bottom <= t.lines && OnScreen(t, x, y)
    ensures Cell(Scrdown(t, top, bottom, n), x, y) == Down(t, top, bottom, n, x, y)
  {
    hide Good, ShiftUp, ShiftDown, Scrup, Scrdown, Cell;
    LemmaInStretch(t, top, bottom, n, x, y);
    LemmaScrollIs(t, top, bottom, n);
    LemmaShiftAt(t.cells, top * t.cols, bottom * t.cols, n * t.cols, y * t.cols + x);
    LemmaSameShape(t, Scrdown(t, top, bottom, n), x, y);
    LemmaSameShape(t, t, x, y);
    if y < bottom && top <= y - n {
      LemmaSameShape(t, t, x, y - n);
    }
  }

  lemma LemmaScrollIs(t: Term, top: int, bottom: int, n: nat)
    requires Good(t) && 0 <= top < bottom <= t.lines
    ensures 0 <= top * t.cols <= bottom * t.cols <= |t.cells| && 0 <= n * t.cols
    ensures Scrup(t, top, bottom, n) == t.(cells := ShiftUp(t.cells, top * t.cols, bottom * t.cols, n * t.cols))
    ensures Scrdown(t, top, bottom, n) == t.(cells := ShiftDown(t.cells, top * t.cols, bottom * t.cols, n * t.cols))
  {
    hide ShiftUp, ShiftDown;
    LemmaLine(t, top);
    LemmaLine(t, bottom);
    LemmaRows(t.cols, top, bottom);
  }

  // ---------------------------------------------------------------- control characters

  // Carriage return: the first column of the line.
  lemma LemmaCarriageReturn(t: Term, erase: char)
    requires Good(t) && t.state == 0
    ensures Goes(t, Feed(t, [13 as char], erase), 0, t.y)
  {
    LemmaFeedOne(t, 13 as char, erase);
  }

  // One line down, and on the last line of the scroll region the region goes up instead.
  ghost predicate LineFed(t: Term, r: Term) {
    && SameModes(t, r) && r.x == t.x
    && if t.y + 1 < t.bottom then r.y == t.y + 1 && r.cells == t.cells
       else r.y == t.y && forall x, y :: OnScreen(t, x, y) ==> Cell(r, x, y) == Up(t, t.top, t.bottom, 1, x, y)
  }

  lemma LemmaLf(t: Term)
    requires Good(t) && t.state == 0
    ensures LineFed(t, Lf(t))
  {
    hide Scrup, Scrdown, Cell, Up, Down;
    LemmaScrollKeeps(t);
    if t.y + 1 >= t.bottom {
      forall x, y | OnScreen(t, x, y)
        ensures Cell(Lf(t), x, y) == Up(t, t.top, t.bottom, 1, x, y)
      {
        LemmaScrolled(t, t.top, t.bottom, 1, x, y);
      }
    }
  }

  lemma LemmaScrollKeeps(t: Term)
    requires Good(t)
    ensures Scrup(t, t.top, t.bottom, 1) == t.(cells := Scrup(t, t.top, t.bottom, 1).cells)
    ensures Scrdown(t, t.top, t.bottom, 1) == t.(cells := Scrdown(t, t.top, t.bottom, 1).cells)
  {
  }

  // Line feed, vertical tab and form feed, and the escape sequence D.
  lemma LemmaLineFeed(t: Term, c: char, erase: char)
    requires Good(t) && t.state == 0 && 10 <= c as int <= 12
    ensures LineFed(t, Feed(t, [c], erase)) && LineFed(t, Feed(t, [27 as char, 'D'], erase))
  {
    hide Lf, LineFed;
    LemmaFeedOne(t, c, erase);
    LemmaEscape(t, 'D', erase);
    LemmaLf(t);
    assert t.(state := 0) == t;
  }

  // One line up; on the first line of the scroll region the region goes down instead.
  ghost predicate LineBack(t: Term, r: Term) {
    && SameModes(t, r) && r.x == t.x
    && if t.y > t.top then r.y == t.y - 1 && r.cells == t.cells
       else r.y == t.y && forall x, y :: OnScreen(t, x, y) ==> Cell(r, x, y) == Down(t, t.top, t.bottom, 1, x, y)
  }

  lemma LemmaReverseFeed(t: Term, erase: char)
    requires Good(t) && t.state == 0
    ensures LineBack(t, Feed(t, [27 as char, 'M'], erase))
  {
    hide Scrup, Scrdown, Cell, Up, Down;
    LemmaEscape(t, 'M', erase);
    assert t.(state := 0) == t;
    LemmaScrollKeeps(t);
    if t.y <= t.top {
      forall x, y | OnScreen(t, x, y)
        ensures Cell(Ri(t), x, y) == Down(t, t.top, t.bottom, 1, x, y)
      {
        LemmaScrolled(t, t.top, t.bottom, 1, x, y);
      }
    }
  }

  // The escape sequence E: the start of the next line, without scrolling.
  lemma LemmaNextLine(t: Term, erase: char)
    requires Good(t) && t.state == 0
    ensures Goes(t, Feed(t, [27 as char, 'E'], erase), 0, t.y + 1)
  {
    LemmaEscape(t, 'E', erase);
  }

  lemma LemmaEscape(t: Term, c: char, erase: char)
    requires Good(t) && t.state == 0
    ensures Feed(t, [27 as char, c], erase) == Escape(t.(state := 1), c)
  {
    hide Escape;
    LemmaFeedJoined(t, [27 as char], [c], erase);
    assert [27 as char] + [c] == [27 as char, c];
    LemmaFeedOne(t, 27 as char, erase);
    LemmaFeedOne(t.(state := 1), c, erase);
  }

  // Backspace: one column back, but not before the line.
  lemma LemmaBackspace(t: Term, erase: char)
    requires Good(t) && t.state == 0 && erase as int != 8
    ensures Goes(t, Feed(t, [8 as char], erase), t.x - 1, t.y)
  {
    LemmaFeedOne(t, 8 as char, erase);
  }

  lemma LemmaSetCellAt(t: Term, r: Term, x0: int, y0: int, cell: int, x: int, y: int)
    requires Good(t) && Good(r) && (r.cols, r.lines) == (t.cols, t.lines) && OnScreen(t, x0, y0) && OnScreen(t, x, y)
    requires 0 <= y0 * t.cols + x0 < |t.cells| && r.cells == t.cells[y0 * t.cols + x0 := cell]
    ensures Cell(r, x, y) == if (x, y) == (x0, y0) then cell else Cell(t, x, y)
  {
    LemmaPlace(t.cols, x, y, x0, y0);
    LemmaPlace(t.cols, x0, y0, x, y);
    LemmaLine(t, y);
  }

  // Writing one cell changes that one.
  lemma LemmaSetCell(t: Term, r: Term, x0: int, y0: int, cell: int)
    requires Good(t) && Good(r) && (r.cols, r.lines) == (t.cols, t.lines) && OnScreen(t, x0, y0)
    requires 0 <= y0 * t.cols + x0 < |t.cells| && r.cells == t.cells[y0 * t.cols + x0 := cell]
    ensures forall x, y :: OnScreen(t, x, y) ==> Cell(r, x, y) == if (x, y) == (x0, y0) then cell else Cell(t, x, y)
  {
    hide Cell;
    forall x, y | OnScreen(t, x, y)
      ensures Cell(r, x, y) == if (x, y) == (x0, y0) then cell else Cell(t, x, y)
    {
      LemmaSetCellAt(t, r, x0, y0, cell, x, y);
    }
  }

  // The erase character, unless it means something else: one column back, and that cell is blank.
  lemma LemmaErase(t: Term, erase: char)
    requires Good(t) && t.state == 0 && (erase as int < 10 || 13 < erase as int < 32 || erase as int == 127) && erase as int != 27
    ensures var r := Feed(t, [erase], erase);
      && SameModes(t, r) && r.y == t.y && r.x == Max(t.x - 1, 0)
      && forall x, y :: OnScreen(t, x, y) ==> Cell(r, x, y) == if (x, y) == (t.x - 1, t.y) then BLANK else Cell(t, x, y)
  {
    LemmaFeedOne(t, erase, erase);
    hide Feed;
    if t.x > 0 {
      LemmaSetCell(t, Del(t), t.x - 1, t.y, BLANK);
    }
  }

  lemma LemmaStop(x: int)
    ensures (x + 8 - x % 8) % 8 == 0
  {
  }

  // Tab: the next column that is a multiple of 8; past the line, as far into the next one.
  lemma LemmaTab(t: Term, erase: char) returns (x: int)
    requires Good(t) && t.state == 0 && erase as int != 9
    ensures var r := Feed(t, [9 as char], erase);
      t.x < x <= t.x + 8 && x % 8 == 0 && if x <= t.cols then Goes(t, r, x, t.y) else LineFed(t.(x := x - t.cols), r)
  {
    hide Lf, LineFed;
    LemmaFeedOne(t, 9 as char, erase);
    x := t.x + 8 - t.x % 8;
    LemmaStop(t.x);
    if x > t.cols {
      LemmaLf(t.(x := x - t.cols));
    }
  }

  // All other control characters, and those from 127 on, show nothing.
  lemma LemmaIgnored(t: Term, c: char, erase: char)
    requires Good(t) && t.state == 0 && c != erase
    requires c as int < 8 || 13 < c as int < 27 || 27 < c as int < 32 || 127 <= c as int
    ensures Feed(t, [c], erase) == t
  {
    LemmaFeedOne(t, c, erase);
  }

  /** A printable character after the end of a line: a line feed to u, and the character at its start. */
  lemma LemmaWrap(t: Term, c: char, erase: char) returns (u: Term)
    requires Good(t) && t.state == 0 && t.x == t.cols && 31 < c as int < 127
    ensures LineFed(t.(x := 0), u)
    ensures var r := Feed(t, [c], erase);
      && SameModes(t, r) && (r.x, r.y) == (1, u.y)
      && forall x, y :: OnScreen(t, x, y) ==> Cell(r, x, y) == if (x, y) == (0, u.y) then t.attr * 256 + c as int else Cell(u, x, y)
  {
    hide Lf, LineFed, Feed, Cell;
    LemmaFeedOne(t, c, erase);
    u := Lf(t.(x := 0));
    LemmaLf(t.(x := 0));
    assert SameModes(t, u) && u.x == 0 by { LemmaFedModes(t.(x := 0), u); }
    LemmaSetCell(u, Show(t, c), 0, u.y, t.attr * 256 + c as int);
  }

  lemma LemmaFedModes(t: Term, r: Term)
    requires Good(t) && LineFed(t, r)
    ensures SameModes(t, r) && r.x == t.x
  {
  }

  // ---------------------------------------------------------------- reading the numbers

  // Numbers as a program prints them, with semicolons in between.
  function Joined(ns: seq<nat>): seq<char> {
    if |ns| == 0 then []
    else if |ns| == 1 then Dec(ns[0])
    else Joined(ns[..|ns| - 1]) + [';'] + Dec(ns[|ns| - 1])
  }

  function Sequence(q: bool, ns: seq<nat>, c: char): seq<char> {
    [27 as char, '['] + (if q then ['?'] else []) + Joined(ns) + [c]
  }

  predicate Numbers(ns: seq<nat>) {
    |ns| <= NPAR && forall i :: 0 <= i < |ns| ==> ns[i] < WORD
  }

  function Padded(ns: seq<nat>): (par: seq<int>)
    requires |ns| <= NPAR
    ensures |par| == NPAR
  {
    seq(NPAR, i requires 0 <= i < NPAR => if i < |ns| then ns[i] else 0)
  }

  predicate Final(c: char) { c != ';' && c != '?' && !('0' <= c <= '9') }

  // Number i, 0 if there is none.
  function Nth(ns: seq<nat>, i: nat): nat { if i < |ns| then ns[i] else 0 }

  // t with the numbers read.
  function With(t: Term, q: bool, ns: seq<nat>): (u: Term)
    requires Good(t) && Numbers(ns)
    ensures Good(u) && u.par[0] == Nth(ns, 0) && u.par[1] == Nth(ns, 1)
  {
    t.(par := Padded(ns), npar := if ns == [] then 0 else |ns| - 1, state := 0, ques := q)
  }

  // Reading the numbers from a cleared list.
  lemma {:induction false} LemmaJoined(t: Term, ns: seq<nat>, erase: char)
    requires Good(t) && t.state == 3 && Numbers(ns) && t.par == Padded([]) && t.npar == 0
    ensures Feed(t, Joined(ns), erase) == t.(par := Padded(ns), npar := if ns == [] then 0 else |ns| - 1)
    decreases |ns|
  {
    hide Put, Feed, Good;
    LemmaGoodList(t);
    if |ns| == 0 {
      LemmaFeedNone(t, erase);
    } else if |ns| == 1 {
      LemmaDec(t, ns[0], erase);
      assert Padded([])[0 := ns[0]] == Padded(ns);
    } else {
      var init, n := ns[..|ns| - 1], ns[|ns| - 1];
      LemmaJoined(t, init, erase);
      var u := t.(par := Padded(init), npar := |init| - 1);
      var v := u.(npar := |init|);
      LemmaGoodWith(t, init, |init| - 1);
      LemmaGoodWith(t, init, |init|);
      LemmaFeedJoined(t, Joined(init) + [';'], Dec(n), erase);
      LemmaFeedJoined(t, Joined(init), [';'], erase);
      LemmaFeedOne(u, ';', erase);
      LemmaSemicolon(u, erase);
      LemmaDec(v, n, erase);
      assert Padded(init)[|init| := n] == Padded(ns);
    }
  }

  lemma LemmaGoodList(t: Term)
    requires Good(t)
    ensures |t.par| == NPAR && 0 <= t.npar < NPAR
  {
  }

  lemma LemmaGoodWith(t: Term, ns: seq<nat>, k: int)
    requires Good(t) && Numbers(ns) && 0 <= k < NPAR
    ensures Good(t.(par := Padded(ns), npar := k))
  {
  }

  lemma LemmaFeedNone(t: Term, erase: char)
    requires Good(t)
    ensures Feed(t, [], erase) == t
  {
  }

  lemma LemmaSemicolon(t: Term, erase: char)
    requires Good(t) && t.state == 3 && t.npar < NPAR - 1
    ensures Put(t, ';', erase) == t.(npar := t.npar + 1)
  {
  }

  lemma {:induction false} LemmaJoinedFirst(ns: seq<nat>)
    requires ns != []
    ensures Joined(ns) != [] && '0' <= Joined(ns)[0] <= '9'
    decreases |ns|
  {
    if |ns| == 1 {
      LemmaFirstDigit(ns[0]);
    } else {
      LemmaJoinedFirst(ns[..|ns| - 1]);
    }
  }

  /** A control sequence with any numbers, in either form, means what its last byte does with them. */
  lemma LemmaSequence(t: Term, q: bool, ns: seq<nat>, c: char, erase: char)
    requires Good(t) && t.state == 0 && Numbers(ns) && Final(c)
    ensures Feed(t, Sequence(q, ns, c), erase) == Csi(With(t, q, ns), c)
  {
    hide Put, Feed, Csi, Good;
    LemmaStates(t);
    var a, b := [27 as char, '['], if q then ['?'] else [];
    LemmaFeedJoined(t, a + b + Joined(ns), [c], erase);
    LemmaFeedJoined(t, a + b, Joined(ns), erase);
    LemmaFeedJoined(t, a, b, erase);
    LemmaIntroduced(t, erase);
    var t2, t3 := t.(state := 2), t.(par := Padded([]), npar := 0, state := 3, ques := q);
    LemmaGoodWith(t.(state := 3, ques := q), [], 0);
    LemmaJoined(t3, ns, erase);
    var t4 := t3.(par := Padded(ns), npar := if ns == [] then 0 else |ns| - 1);
    LemmaGoodWith(t.(state := 3, ques := q), ns, t4.npar);
    LemmaFeedOne(t4, c, erase);
    LemmaLastByte(t4, c, erase);
    assert t4.(state := 0) == With(t, q, ns);
    if q {
      LemmaFeedOne(t2, '?', erase);
      LemmaFirstByte(t2, '?', erase);
    } else {
      LemmaFeedNone(t2, erase);
      if ns == [] {
        LemmaFeedNone(t2, erase);
        LemmaFeedOne(t2, c, erase);
        LemmaFirstByte(t2, c, erase);
      } else {
        LemmaJoinedFirst(ns);
        LemmaFeedFrom(t2, t3, Joined(ns), erase);
      }
    }
  }

  lemma LemmaStates(t: Term)
    requires Good(t)
    ensures Good(t.(state := 1)) && Good(t.(state := 2)) && forall q :: Good(t.(state := 3, ques := q))
  {
  }

  lemma LemmaIntroduced(t: Term, erase: char)
    requires Good(t) && t.state == 0
    ensures Feed(t, [27 as char, '['], erase) == t.(state := 2)
  {
    LemmaEscape(t, '[', erase);
  }

  lemma LemmaLastByte(t: Term, c: char, erase: char)
    requires Good(t) && t.state == 3 && Final(c)
    ensures Put(t, c, erase) == Csi(t.(state := 0), c)
  {
    hide Csi;
  }

  lemma LemmaFirstByte(t: Term, c: char, erase: char)
    requires Good(t) && t.state == 2 && c != ';'
    ensures var u := t.(par := Padded([]), npar := 0, state := 3, ques := c == '?');
      Good(u) && Put(t, c, erase) == if c == '?' then u else Put(u, c, erase)
  {
    hide Csi;
    assert Padded([]) == seq(NPAR, _ => 0);
  }

  lemma LemmaFeedFrom(t2: Term, t3: Term, s: seq<char>, erase: char)
    requires Good(t2) && t2.state == 2 && t3 == t2.(par := Padded([]), npar := 0, state := 3, ques := false) && Good(t3)
    requires s != [] && '0' <= s[0] <= '9'
    ensures Feed(t2, s, erase) == Feed(t3, s, erase)
  {
    hide Put;
    LemmaFirstByte(t2, s[0], erase);
  }

  // ---------------------------------------------------------------- moving the cursor

  /** The sequences that move the cursor: by the number, which counts as 1 if it is 0 or missing, or to
      the column or line of that number, counted from 1.  Places off the screen are ignored. */
  lemma LemmaMoves(t: Term, q: bool, ns: seq<nat>, c: char, erase: char)
    requires Good(t) && t.state == 0 && Numbers(ns) && c in "ABCDEFGade`"
    ensures var r := Feed(t, Sequence(q, ns, c), erase);
      var k := Max(Nth(ns, 0), 1);
      && (c == 'A' ==> Goes(t, r, t.x, (t.y - k) % WORD))
      && (c == 'B' || c == 'e' ==> Goes(t, r, t.x, (t.y + k) % WORD))
      && (c == 'C' || c == 'a' ==> Goes(t, r, (t.x + k) % WORD, t.y))
      && (c == 'D' ==> Goes(t, r, (t.x - k) % WORD, t.y))
      && (c == 'E' ==> Goes(t, r, 0, (t.y + k) % WORD))
      && (c == 'F' ==> Goes(t, r, 0, (t.y - k) % WORD))
      && (c == 'G' || c == '`' ==> Goes(t, r, k - 1, t.y))
      && (c == 'd' ==> Goes(t, r, t.x, k - 1))
  {
    hide Feed, Sequence, Csi, Padded;
    LemmaSequence(t, q, ns, c, erase);
    LemmaAcross(With(t, q, ns), c);
    LemmaAlong(With(t, q, ns), c);
  }

  lemma LemmaAcross(t: Term, c: char)
    requires Good(t) && t.state == 0
    ensures var r, k := Csi(t, c), Max(t.par[0], 1);
      && (c == 'A' ==> Goes(t, r, t.x, (t.y - k) % WORD))
      && (c == 'B' || c == 'e' ==> Goes(t, r, t.x, (t.y + k) % WORD))
      && (c == 'E' ==> Goes(t, r, 0, (t.y + k) % WORD))
      && (c == 'F' ==> Goes(t, r, 0, (t.y - k) % WORD))
      && (c == 'd' ==> Goes(t, r, t.x, k - 1))
  {
    hide CsiH, CsiJ, CsiK, CsiL, CsiM, CsiP, CsiAt, CsiR, Attributes;
  }

  lemma LemmaAlong(t: Term, c: char)
    requires Good(t) && t.state == 0
    ensures var r, k := Csi(t, c), Max(t.par[0], 1);
      && (c == 'C' || c == 'a' ==> Goes(t, r, (t.x + k) % WORD, t.y))
      && (c == 'D' ==> Goes(t, r, (t.x - k) % WORD, t.y))
      && (c == 'G' || c == '`' ==> Goes(t, r, k - 1, t.y))
  {
    hide CsiH, CsiJ, CsiK, CsiL, CsiM, CsiP, CsiAt, CsiR, Attributes;
  }

  // The address of line and column, counted from 1, 0 or a missing number being the first.
  lemma LemmaAddresses(t: Term, q: bool, ns: seq<nat>, c: char, erase: char)
    requires Good(t) && t.state == 0 && Numbers(ns) && c in "Hf"
    ensures Goes(t, Feed(t, Sequence(q, ns, c), erase), Max(Nth(ns, 1), 1) - 1, Max(Nth(ns, 0), 1) - 1)
  {
    LemmaSequence(t, q, ns, c, erase);
    hide Feed, Sequence;
  }

  // Saving the cursor, and going back to where it was saved.
  lemma LemmaSaves(t: Term, q: bool, ns: seq<nat>, erase: char)
    requires Good(t) && t.state == 0 && Numbers(ns)
    ensures var r := Feed(t, Sequence(q, ns, 's'), erase);
      (r.savedX, r.savedY) == (t.x, t.y) && r.cells == t.cells && Stays(t.(savedX := t.x, savedY := t.y), r)
    ensures Goes(t, Feed(t, Sequence(q, ns, 'u'), erase), t.savedX, t.savedY)
  {
    LemmaSequence(t, q, ns, 's', erase);
    LemmaSequence(t, q, ns, 'u', erase);
    hide Feed, Sequence;
  }

  // ---------------------------------------------------------------- region and rendition

  // The scroll region is set to the lines from the first to the second number, if there are such lines.
  lemma LemmaSetsRegion(t: Term, q: bool, ns: seq<nat>, erase: char)
    requires Good(t) && t.state == 0 && Numbers(ns)
    ensures var r := Feed(t, Sequence(q, ns, 'r'), erase);
      var top, bottom := Max(Nth(ns, 0), 1) - 1, if Nth(ns, 1) == 0 then t.lines else Nth(ns, 1);
      r.cells == t.cells && Stays(if top < bottom <= t.lines then t.(top := top, bottom := bottom) else t, r)
  {
    LemmaSequence(t, q, ns, 'r', erase);
    hide Feed, Sequence;
  }

  // The numbers that mean an attribute, and which: normal, bright (also for underline) or reverse.
  predicate Means(n: nat) { n in {0, 1, 4, 7, 27} }

  function Meaning(n: nat): int
    requires Means(n)
  {
    if n == 7 then 0x70 else if n == 1 || n == 4 then 0x0f else 0x07
  }

  /** The last number that means an attribute sets it; no number counts as a 0. */
  lemma LemmaRendition(t: Term, q: bool, ns: seq<nat>, erase: char)
    requires Good(t) && t.state == 0 && Numbers(ns)
    ensures var r := Feed(t, Sequence(q, ns, 'm'), erase);
      && r.cells == t.cells && Stays(t.(attr := r.attr), r)
      && (ns == [] ==> r.attr == 0x07)
      && (ns != [] && (forall i :: 0 <= i < |ns| ==> !Means(ns[i])) ==> r.attr == t.attr)
      && forall i :: 0 <= i < |ns| && Means(ns[i]) && (forall j :: i < j < |ns| ==> !Means(ns[j])) ==> r.attr == Meaning(ns[i])
  {
    LemmaSequence(t, q, ns, 'm', erase);
    hide Feed, Sequence;
    if ns == [] {
      LemmaOneAttribute(t);
    } else {
      LemmaAttributes(t.attr, ns, 0);
    }
  }

  lemma LemmaOneAttribute(t: Term)
    requires Good(t)
    ensures Attributes(t.attr, Padded([]), 0, 0) == 0x07
  {
    assert Padded([])[0] == 0;
  }

  lemma {:induction false} LemmaAttributes(attr: int, ns: seq<nat>, k: nat)
    requires 0 <= attr < 256 && 0 < |ns| <= NPAR && k <= |ns|
    ensures var r := Attributes(attr, Padded(ns), |ns| - 1, k);
      && ((forall i :: k <= i < |ns| ==> !Means(ns[i])) ==> r == attr)
      && forall i :: k <= i < |ns| && Means(ns[i]) && (forall j :: i < j < |ns| ==> !Means(ns[j])) ==> r == Meaning(ns[i])
    decreases |ns| - k
  {
    if k < |ns| {
      LemmaAttributes(Attribute(attr, ns[k]), ns, k + 1);
    }
  }

  // ---------------------------------------------------------------- erasing

  // (x, y) is before the cursor in the order of writing.
  predicate Before(t: Term, x: int, y: int) { y < t.y || (y == t.y && x < t.x) }

  // From the cursor on, up to it, or everything: of the screen for J, of the line for K.
  predicate Wiped(t: Term, c: char, n: nat, x: int, y: int) {
    && (c == 'K' ==> y == t.y)
    && (if n == 0 then !Before(t, x, y) else if n == 1 then Before(t, x, y) else n == 2)
  }

  lemma LemmaWipes(t: Term, q: bool, ns: seq<nat>, c: char, erase: char)
    requires Good(t) && t.state == 0 && Numbers(ns) && c in "JK"
    ensures var r := Feed(t, Sequence(q, ns, c), erase);
      && Stays(t, r)
      && forall x, y :: OnScreen(t, x, y) ==> Cell(r, x, y) == if Wiped(t, c, Nth(ns, 0), x, y) then BLANK else Cell(t, x, y)
  {
    hide Feed, Sequence, Cell;
    LemmaSequence(t, q, ns, c, erase);
    var u, r := With(t, q, ns), Csi(With(t, q, ns), c);
    LemmaErasingStays(u, c);
    forall x, y | OnScreen(t, x, y)
      ensures Cell(r, x, y) == if Wiped(t, c, Nth(ns, 0), x, y) then BLANK else Cell(t, x, y)
    {
      LemmaSameCell(t, u, x, y);
      if c == 'J' {
        LemmaCsiJ(u, x, y);
      } else {
        LemmaCsiK(u, x, y);
      }
    }
  }

  lemma LemmaErasingStays(t: Term, c: char)
    requires Good(t) && t.state == 0 && c in "JKLMP@"
    ensures Stays(t, Csi(t, c)) && Csi(t, c) == match c
      case 'J' => CsiJ(t, t.par[0])
      case 'K' => CsiK(t, t.par[0])
      case 'L' => CsiL(t, t.par[0])
      case 'M' => CsiM(t, t.par[0])
      case 'P' => CsiP(t, t.par[0])
      case _ => CsiAt(t, t.par[0])
  {
  }

  lemma LemmaSameCell(t: Term, u: Term, x: int, y: int)
    requires Good(t) && Good(u) && u.cells == t.cells && (u.cols, u.lines) == (t.cols, t.lines) && OnScreen(t, x, y)
    ensures Cell(u, x, y) == Cell(t, x, y)
  {
  }

  lemma LemmaCsiJ(t: Term, x: int, y: int)
    requires Good(t) && OnScreen(t, x, y)
    ensures Cell(CsiJ(t, t.par[0]), x, y) == if Wiped(t, 'J', t.par[0], x, y) then BLANK else Cell(t, x, y)
  {
    LemmaPlace(t.cols, x, y, t.x, t.y);
    LemmaLine(t, y);
    hide Erase;
    LemmaEraseAt(t.cells, At(t), |t.cells|, y * t.cols + x);
    LemmaEraseAt(t.cells, 0, At(t), y * t.cols + x);
  }

  lemma LemmaRanges(t: Term)
    requires Good(t)
    ensures 0 <= t.x <= t.cols && 0 <= At(t) - t.x && At(t) - t.x + t.cols <= |t.cells|
  {
  }

  // csi_K, by the place in the cells.
  lemma LemmaLineWiped(t: Term, i: int)
    requires Good(t) && 0 <= i < |t.cells|
    ensures var start, n := At(t) - t.x, t.par[0];
      && (CsiK(t, n).cols, CsiK(t, n).lines) == (t.cols, t.lines) && |CsiK(t, n).cells| == |t.cells|
      && CsiK(t, n).cells[i] ==
        if start <= i < start + t.cols && (if n == 0 then At(t) <= i else if n == 1 then i < At(t) else n == 2) then BLANK
        else t.cells[i]
  {
    var start := At(t) - t.x;
    LemmaRanges(t);
    hide Erase, Good, At;
    if t.x < t.cols {
      LemmaEraseAt(t.cells, At(t), start + t.cols, i);
    }
    LemmaEraseAt(t.cells, start, start + t.x, i);
    LemmaEraseAt(t.cells, start, start + t.cols, i);
  }

  // Where a cell is in relation to the cursor.
  lemma LemmaCell(t: Term, x: int, y: int)
    requires Good(t) && OnScreen(t, x, y)
    ensures var i := y * t.cols + x;
      && 0 <= i < |t.cells| && Cell(t, x, y) == t.cells[i]
      && (i < At(t) <==> Before(t, x, y))
      && (At(t) - t.x <= i < At(t) - t.x + t.cols <==> y == t.y)
      && (y == t.y ==> i == At(t) - t.x + x)
  {
    LemmaPlace(t.cols, x, y, t.x, t.y);
    LemmaPlace(t.cols, x, y, 0, t.y);
    LemmaPlace(t.cols, x, y, t.cols, t.y);
    LemmaLine(t, y);
  }

  lemma LemmaCsiK(t: Term, x: int, y: int)
    requires Good(t) && OnScreen(t, x, y)
    ensures Cell(CsiK(t, t.par[0]), x, y) == if Wiped(t, 'K', t.par[0], x, y) then BLANK else Cell(t, x, y)
  {
    hide Cell, CsiK, At;
    LemmaCell(t, x, y);
    LemmaLineWiped(t, y * t.cols + x);
    LemmaSameShape(t, CsiK(t, t.par[0]), x, y);
  }

  // ---------------------------------------------------------------- inserting and deleting

  // The rest of the cursor's line, k columns to the right or to the left, with blanks behind it.
  function Shifted(t: Term, c: char, k: nat, x: int, y: int): int
    requires Good(t) && OnScreen(t, x, y)
  {
    if y != t.y || x < t.x then Cell(t, x, y)
    else if c == '@' then if x - k >= t.x then Cell(t, x - k, y) else BLANK
    else if x + k < t.cols then Cell(t, x + k, y) else BLANK
  }

  // csi_at and csi_P, by the place in the cells.
  lemma LemmaCharsMoved(t: Term, i: int)
    requires Good(t) && 0 <= i < |t.cells|
    ensures var end, k := At(t) - t.x + t.cols, Max(t.par[0], 1);
      && CsiAt(t, t.par[0]) == t.(cells := CsiAt(t, t.par[0]).cells) && CsiP(t, t.par[0]) == t.(cells := CsiP(t, t.par[0]).cells)
      && |CsiAt(t, t.par[0]).cells| == |t.cells| == |CsiP(t, t.par[0]).cells|
      && CsiAt(t, t.par[0]).cells[i] ==
           (if !(At(t) <= i < end) then t.cells[i] else if i - k >= At(t) then t.cells[i - k] else BLANK)
      && CsiP(t, t.par[0]).cells[i] ==
           (if !(At(t) <= i < end) then t.cells[i] else if i + k < end then t.cells[i + k] else BLANK)
  {
    hide ShiftUp, ShiftDown;
    LemmaShiftAt(t.cells, At(t), At(t) - t.x + t.cols, Times(t.par[0], t.cols), i);
  }

  lemma LemmaCsiChars(t: Term, x: int, y: int)
    requires Good(t) && OnScreen(t, x, y)
    ensures var k := Max(t.par[0], 1);
      && Cell(CsiAt(t, t.par[0]), x, y) == Shifted(t, '@', k, x, y)
      && Cell(CsiP(t, t.par[0]), x, y) == Shifted(t, 'P', k, x, y)
  {
    hide Cell, At, CsiAt, CsiP;
    LemmaCell(t, x, y);
    LemmaCharsMoved(t, y * t.cols + x);
    LemmaSameShape(t, CsiAt(t, t.par[0]), x, y);
    LemmaSameShape(t, CsiP(t, t.par[0]), x, y);
    if y == t.y && x >= t.x {
      var k := Max(t.par[0], 1);
      if x - k >= t.x {
        LemmaCell(t, x - k, y);
      }
      if x + k < t.cols {
        LemmaCell(t, x + k, y);
      }
    }
  }

  /** Inserting and deleting lines moves the cursor's line and all below it; inserting and deleting
      characters moves the rest of the cursor's line.  A missing number or 0 is 1. */
  lemma LemmaInserts(t: Term, q: bool, ns: seq<nat>, c: char, erase: char)
    requires Good(t) && t.state == 0 && Numbers(ns) && c in "LM@P"
    ensures var r := Feed(t, Sequence(q, ns, c), erase);
      var k := Max(Nth(ns, 0), 1);
      && Stays(t, r)
      && forall x, y :: OnScreen(t, x, y) ==>
           && (c == 'L' ==> Cell(r, x, y) == Down(t, t.y, t.lines, k, x, y))
           && (c == 'M' ==> Cell(r, x, y) == Up(t, t.y, t.lines, k, x, y))
           && (c == '@' || c == 'P' ==> Cell(r, x, y) == Shifted(t, c, k, x, y))
  {
    hide Feed, Sequence, Cell, Up, Down, Shifted;
    LemmaSequence(t, q, ns, c, erase);
    var u, r, k := With(t, q, ns), Csi(With(t, q, ns), c), Max(Nth(ns, 0), 1);
    LemmaErasingStays(u, c);
    forall x, y | OnScreen(t, x, y)
      ensures c == 'L' ==> Cell(r, x, y) == Down(t, t.y, t.lines, k, x, y)
      ensures c == 'M' ==> Cell(r, x, y) == Up(t, t.y, t.lines, k, x, y)
      ensures c == '@' || c == 'P' ==> Cell(r, x, y) == Shifted(t, c, k, x, y)
    {
      LemmaSamePicture(t, u, c, k, x, y);
      if c == 'L' || c == 'M' {
        LemmaScrolled(u, u.y, u.lines, Times(u.par[0], u.lines), x, y);
        LemmaFarEnough(u, u.y, k, x, y);
      } else {
        LemmaCsiChars(u, x, y);
      }
    }
  }

  // More lines than there are make no difference.
  lemma LemmaFarEnough(t: Term, top: int, k: nat, x: int, y: int)
    requires Good(t) && 0 <= top < t.lines && OnScreen(t, x, y)
    ensures Up(t, top, t.lines, Min(k, t.lines), x, y) == Up(t, top, t.lines, k, x, y)
    ensures Down(t, top, t.lines, Min(k, t.lines), x, y) == Down(t, top, t.lines, k, x, y)
  {
  }

  lemma LemmaSamePicture(t: Term, u: Term, c: char, k: nat, x: int, y: int)
    requires Good(t) && Good(u) && u.cells == t.cells && (u.cols, u.lines, u.x, u.y) == (t.cols, t.lines, t.x, t.y) && OnScreen(t, x, y)
    ensures Up(u, u.y, u.lines, k, x, y) == Up(t, t.y, t.lines, k, x, y)
    ensures Down(u, u.y, u.lines, k, x, y) == Down(t, t.y, t.lines, k, x, y)
    ensures Shifted(u, c, k, x, y) == Shifted(t, c, k, x, y)
  {
  }

  // Any other final byte shows nothing.
  lemma LemmaUnknown(t: Term, q: bool, ns: seq<nat>, c: char, erase: char)
    requires Good(t) && t.state == 0 && Numbers(ns) && Final(c) && c !in "ABCDEFGade`HfJKLMP@mrsu"
    ensures var r := Feed(t, Sequence(q, ns, c), erase); r.cells == t.cells && Stays(t, r)
  {
    LemmaSequence(t, q, ns, c, erase);
    hide Feed, Sequence;
  }
}

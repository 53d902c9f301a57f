/** kernel/chr_drv/console.c as it runs, on video memory that an EGA scrolls by moving the origin.  On
    every kind of display, what is visible is the screen of Terminal. */
module Console {
  import opened Basics
  import opened Terminal

  class Display {
    // Video memory in cells; addresses are relative to its start, and its length is video_mem_end.
    const vram: array<int>
    const cols: int
    const lines: int
    const ega: bool
    const par: array<int>
    var origin: int
    var scrEnd: int
    var pos: int
    var x: int
    var y: int
    var top: int
    var bottom: int
    var state: int
    var npar: int
    var ques: bool
    var attr: int
    var savedX: int
    var savedY: int

    // The screen shows the cells from the origin on.
    ghost predicate Placed()
      reads this, vram, par
    {
      && vram != par && par.Length == NPAR && Fits(cols, lines) && 0 <= origin && scrEnd == origin + cols * lines <= vram.Length
      && pos == origin + y * cols + x
    }

    ghost function View(): Term
      requires 0 <= origin <= scrEnd <= vram.Length
      reads this, vram, par
    {
      Term(cols, lines, vram[origin..scrEnd], x, y, top, bottom, state, npar, par[..], ques, attr, savedX, savedY)
    }

    ghost predicate Valid()
      reads this, vram, par
    {
      Placed() && 0 <= origin <= scrEnd && Good(View())
    }

    // con_init: the cursor goes to (cx, cy) if that is on the screen.
    constructor (memory: array<int>, columns: int, rows: int, moving: bool, cx: nat, cy: nat)
      requires Fits(columns, rows) && columns * rows <= memory.Length
      ensures vram == memory && fresh(par) && cols == columns && lines == rows && ega == moving
      ensures Valid() && origin == 0 && state == 0 && top == 0 && bottom == rows
      ensures (x, y) == if cx <= columns && cy < rows then (cx, cy) else (0, 0)
    {
      vram, cols, lines, ega, par := memory, columns, rows, moving, new int[NPAR](_ => 0);
      origin, scrEnd, x, y, top, bottom := 0, columns * rows, 0, 0, 0, rows;
      state, npar, ques, attr, savedX, savedY := 0, 0, false, 0x07, 0, 0;
      pos := 0;
      new;
      Gotoxy(cx, cy);
    }

    method Gotoxy(newX: int, newY: int)
      requires Placed() && 0 <= newX && 0 <= newY
      modifies this`x, this`y, this`pos
      ensures Placed() && (x, y) == if newX > cols || newY >= lines then old((x, y)) else (newX, newY)
    {
      if newX > cols || newY >= lines {
        return;
      }
      x, y := newX, newY;
      pos := origin + y * cols + x;
    }

    // ---------------------------------------------------------------- string instructions

    // cld; rep movsl: where the destination ends.
    method Movsl(dst: int, src: int, count: int) returns (edi: int)
      requires 0 <= dst && dst + 2 <= src && 0 <= count && src + 2 * count <= vram.Length
      modifies vram
      ensures edi == dst + 2 * count && CopiedIn(old(vram[..]), vram[..], dst, edi, src - dst)
    {
      hide CopiedIn;
      ghost var m := vram[..];
      LemmaNoneCopied(m, dst, src - dst);
      var esi := src;
      edi := dst;
      for n := 0 to count
        invariant edi == dst + 2 * n && esi == src + 2 * n && CopiedIn(m, vram[..], dst, edi, src - dst)
      {
        ghost var w := vram[..];
        vram[edi], vram[edi + 1] := vram[esi], vram[esi + 1];
        LemmaCopiedMore(m, w, vram[..], dst, edi, edi, edi + 2, src - dst);
        edi, esi := edi + 2, esi + 2;
      }
    }

    // std; rep movsl, from the last doubleword down.
    method MovslDown(dst: int, src: int, count: int) returns (edi: int)
      requires src + 2 <= dst && dst + 2 <= vram.Length && 0 <= count && src - 2 * count + 2 >= 0
      modifies vram
      ensures edi == dst - 2 * count && CopiedIn(old(vram[..]), vram[..], edi + 2, dst + 2, src - dst)
    {
      hide CopiedIn;
      ghost var m := vram[..];
      LemmaNoneCopied(m, dst + 2, src - dst);
      var esi := src;
      edi := dst;
      for n := 0 to count
        invariant edi == dst - 2 * n && esi == src - 2 * n && CopiedIn(m, vram[..], edi + 2, dst + 2, src - dst)
      {
        ghost var w := vram[..];
        vram[edi], vram[edi + 1] := vram[esi], vram[esi + 1];
        LemmaCopiedMore(m, w, vram[..], edi + 2, dst + 2, edi, edi, src - dst);
        edi, esi := edi - 2, esi - 2;
      }
    }

    // rep stosw of the erase character, count cells from edi on.
    method Stosw(edi: int, count: int)
      requires 0 <= edi && 0 <= count && edi + count <= vram.Length
      modifies vram
      ensures Filled(old(vram[..]), vram[..], edi, edi + count)
    {
      ghost var m := vram[..];
      for n := 0 to count
        invariant Filled(m, vram[..], edi, edi + n)
      {
        vram[edi + n] := BLANK;
      }
    }

    // The same with the direction flag set: count cells from edi down.
    method StoswDown(edi: int, count: int)
      requires 0 <= count && 0 <= edi + 1 - count && edi < vram.Length
      modifies vram
      ensures Filled(old(vram[..]), vram[..], edi + 1 - count, edi + 1)
    {
      ghost var m := vram[..];
      for n := 0 to count
        invariant Filled(m, vram[..], edi + 1 - n, edi + 1)
      {
        vram[edi - n] := BLANK;
      }
    }

    // ---------------------------------------------------------------- scrolling

    // scrup of a part of the screen, or of all of it on a display that does not move the origin.
    method ScrupCopy()
      requires Valid()
      modifies vram
      ensures Valid() && View() == Scrup(old(View()), top, bottom, 1) && Confined(old(vram[..]), vram[..], origin, scrEnd)
    {
      hide Good, ShiftUp, ShiftDown, Scrup, Scrdown, CopiedIn, Filled, Confined;
      ghost var m, t := vram[..], View();
      LemmaRegionCells(t, top, bottom);
      var edi := Movsl(origin + cols * top, origin + cols * (top + 1), (bottom - top - 1) * cols / 2);
      ghost var m1 := vram[..];
      Stosw(edi, cols);
      LemmaUp(m, m1, vram[..], origin, origin, cols * lines, cols * top, cols * bottom, cols);
      LemmaScrolled(t, View());
    }

    // scrup of the whole screen on an EGA: the origin moves, or wraps to the start of video memory.
    method ScrupOrigin()
      requires Valid() && top == 0 && bottom == lines
      modifies this`origin, this`pos, this`scrEnd, vram
      ensures Valid() && View() == Scrup(old(View()), top, bottom, 1) && Confined(old(vram[..]), vram[..], origin, scrEnd)
    {
      hide Good, ShiftUp, ShiftDown, Scrup, Scrdown, CopiedIn, Filled, Confined;
      ghost var t := View();
      LemmaRegionCells(t, top, bottom);
      MoveOrigin(t, cols * lines);
      LemmaScrolled(t, View());
    }

    method MoveOrigin(ghost t: Term, ghost size: int)
      requires Valid() && View() == t && size == cols * lines == |t.cells|
      requires Fits(cols, lines) && size == (lines - 1) * cols + cols && (lines - 1) * cols / 2 * 2 == (lines - 1) * cols >= 0
      modifies this`origin, this`pos, this`scrEnd, vram
      ensures Placed() && View() == t.(cells := ShiftUp(t.cells, 0, size, cols))
      ensures Confined(old(vram[..]), vram[..], origin, scrEnd)
    {
      hide Good, ShiftUp, ShiftDown, CopiedIn, Filled, Confined;
      ghost var m, o := vram[..], origin;
      origin, pos, scrEnd := origin + cols, pos + cols, scrEnd + cols;
      if scrEnd > vram.Length {
        WrapOrigin(o, size);
      } else {
        Stosw(scrEnd - cols, cols);
        LemmaUpMoved(m, vram[..], o, size, cols);
      }
    }

    // The branch of scrup for an origin that is past the last place the screen fits.
    method WrapOrigin(ghost o: int, ghost size: int)
      requires Fits(cols, lines) && size == cols * lines == (lines - 1) * cols + cols && (lines - 1) * cols / 2 * 2 == (lines - 1) * cols >= 0
      requires 0 <= o && origin == o + cols && scrEnd == origin + size && o + size <= vram.Length
      modifies this`origin, this`pos, this`scrEnd, vram
      ensures origin == 0 && scrEnd == size && pos == old(pos) - old(origin)
      ensures size <= vram.Length && cols <= size
      ensures vram[origin..scrEnd] == ShiftUp(old(vram[o..o + size]), 0, size, cols) && Confined(old(vram[..]), vram[..], origin, scrEnd)
    {
      hide ShiftUp, CopiedIn, Filled, Confined;
      ghost var m := vram[..];
      var edi := Movsl(0, origin, (lines - 1) * cols / 2);
      ghost var m1 := vram[..];
      Stosw(edi, cols);
      scrEnd := scrEnd - origin;
      pos := pos - origin;
      origin := 0;
      LemmaUp(m, m1, vram[..], o, 0, size, 0, size, cols);
      assert vram[0..size] == vram[..][0..0 + size];
      assert old(vram[o..o + size]) == m[o..o + size];
    }

    method ScrollUp()
      requires Valid()
      modifies this`origin, this`pos, this`scrEnd, vram
      ensures Valid() && View() == Scrup(old(View()), top, bottom, 1) && Confined(old(vram[..]), vram[..], origin, scrEnd)
      ensures !(ega && top == 0 && bottom == lines) ==> origin == old(origin)
    {
      if ega {
        if top == 0 && bottom == lines {
          ScrupOrigin();
        } else {
          ScrupCopy();
        }
      } else {
        ScrupCopy();
      }
    }

    method ScrollDown()
      requires Valid()
      modifies vram
      ensures Valid() && View() == Scrdown(old(View()), top, bottom, 1) && Confined(old(vram[..]), vram[..], origin, scrEnd)
    {
      hide Good, ShiftUp, ShiftDown, Scrup, Scrdown, CopiedIn, Filled, Confined;
      ghost var m, t := vram[..], View();
      LemmaRegionCells(t, top, bottom);
      var edi := MovslDown(origin + cols * bottom - 2, origin + cols * (bottom - 1) - 2, (bottom - top - 1) * cols / 2);
      ghost var m1 := vram[..];
      StoswDown(edi + 1, cols);
      LemmaDown(m, m1, vram[..], origin, cols * lines, cols * top, cols * bottom, cols);
      LemmaScrolled(t, View());
    }

    // ---------------------------------------------------------------- moving the cursor

    method Lf()
      requires Valid()
      modifies this`y, this`pos, this`origin, this`scrEnd, vram
      ensures Valid() && View() == Terminal.Lf(old(View()))
      ensures Confined(old(vram[..]), vram[..], origin, scrEnd)
      ensures !ega ==> origin == old(origin)
    {
      hide Scrup, ShiftUp;
      if y + 1 < bottom {
        LemmaNextRow(cols, y);
        y := y + 1;
        pos := pos + cols;
        return;
      }
      ScrollUp();
    }

    method Ri()
      requires Valid()
      modifies this`y, this`pos, vram
      ensures Valid() && View() == Terminal.Ri(old(View()))
      ensures Confined(old(vram[..]), vram[..], origin, scrEnd)
    {
      hide Scrdown, ShiftDown;
      if y > top {
        LemmaNextRow(cols, y - 1);
        y := y - 1;
        pos := pos - cols;
        return;
      }
      ScrollDown();
    }

    method Cr()
      requires Valid()
      modifies this`x, this`pos
      ensures Valid() && View() == old(View()).(x := 0)
    {
      pos := pos - x;
      x := 0;
    }

    method Del()
      requires Valid()
      modifies this`x, this`pos, vram
      ensures Valid() && View() == Terminal.Del(old(View()))
      ensures Confined(old(vram[..]), vram[..], origin, scrEnd)
    {
      if x != 0 {
        ghost var t, a := View(), At(View());
        LemmaSizes(t);
        pos := pos - 1;
        x := x - 1;
        vram[pos] := BLANK;
        assert vram[origin..scrEnd] == t.cells[a - 1 := BLANK];
      }
    }

    // ---------------------------------------------------------------- erasing

    // rep stosw over cells of the screen.
    method EraseCells(start: int, count: int)
      requires Valid() && origin <= start && 0 <= count && start + count <= scrEnd
      modifies vram
      ensures Valid() && View() == old(View()).(cells := Erase(old(View()).cells, start - origin, start - origin + count))
      ensures Confined(old(vram[..]), vram[..], origin, scrEnd)
    {
      ghost var t := View();
      Stosw(start, count);
      assert vram[origin..scrEnd] == Erase(t.cells, start - origin, start - origin + count);
    }

    method CsiJ(p: int)
      requires Valid()
      modifies vram
      ensures Valid() && View() == Terminal.CsiJ(old(View()), p)
      ensures Confined(old(vram[..]), vram[..], origin, scrEnd)
    {
      hide Good, At, Erase;
      ghost var t, a := View(), At(View());
      LemmaSizes(t);
      var count, start;
      match p {
        case 0 => count, start := scrEnd - pos, pos;
        case 1 => count, start := pos - origin, origin;
        case 2 => count, start := cols * lines, origin;
        case _ => return;
      }
      EraseCells(start, count);
      LemmaEraseAll(t.cells);
    }

    method CsiK(p: int)
      requires Valid()
      modifies vram
      ensures Valid() && View() == Terminal.CsiK(old(View()), p)
      ensures Confined(old(vram[..]), vram[..], origin, scrEnd)
    {
      hide Good, At, Erase;
      ghost var t, a := View(), At(View());
      LemmaSizes(t);
      var count, start;
      match p {
        case 0 =>
          if x >= cols {
            return;
          }
          count, start := cols - x, pos;
        case 1 => start, count := pos - x, if x < cols then x else cols;
        case 2 => start, count := pos - x, cols;
        case _ => return;
      }
      EraseCells(start, count);
    }

    method CsiAttributes()
      requires Valid()
      modifies this`attr
      ensures Valid() && View() == old(View()).(attr := Attributes(old(attr), par[..], npar, 0))
    {
      var i := 0;
      while i <= npar
        invariant 0 <= i <= npar + 1 && 0 <= attr < 256
        invariant Attributes(attr, par[..], npar, i) == Attributes(old(attr), par[..], npar, 0)
        decreases npar - i
      {
        match par[i] {
          case 0 => attr := 0x07;
          case 1 => attr := 0x0f;
          case 4 => attr := 0x0f;
          case 7 => attr := 0x70;
          case 27 => attr := 0x07;
          case _ =>
        }
        i := i + 1;
      }
    }

    // ---------------------------------------------------------------- inserting and deleting

    // The cells of t from the cursor to the end of its line moved by n: towards the end, or back.
    ghost predicate Inserted(t: Term, n: nat)
      requires Good(t)
      reads this, vram, par
    {
      Valid() && View() == t.(cells := ShiftDown(t.cells, At(t), At(t) - t.x + t.cols, n))
    }

    ghost predicate Deleted(t: Term, n: nat)
      requires Good(t)
      reads this, vram, par
    {
      Valid() && View() == t.(cells := ShiftUp(t.cells, At(t), At(t) - t.x + t.cols, n))
    }

    method InsertChar()
      requires Valid()
      modifies vram
      ensures Inserted(old(View()), 1) && Confined(old(vram[..]), vram[..], origin, scrEnd)
    {
      hide Good, At, ShiftUp, ShiftDown, Confined;
      ghost var m, t, a := vram[..], View(), At(View());
      LemmaSizes(t);
      OpenGap();
      LemmaInsertedOne(m, vram[..], origin, scrEnd - origin, a, a - x + cols);
      LemmaCellsOnly(t, View());
    }

    // The loop of insert_char.
    method OpenGap()
      requires 0 <= x <= cols && 0 <= pos && pos - x + cols <= vram.Length
      modifies vram
      ensures forall k {:trigger vram[k]} :: 0 <= k < vram.Length ==>
        vram[k] == if pos < k < pos - x + cols then old(vram[k - 1]) else if k == pos && x < cols then BLANK else old(vram[k])
    {
      hide Opened;
      ghost var m := vram[..];
      LemmaNoneOpened(m, pos);
      var i, p, prev := x, pos, BLANK;
      while i < cols
        invariant x <= i <= cols && p == pos + i - x && Opened(m, vram[..], pos, p)
        invariant prev == if i == x then BLANK else m[p - 1]
      {
        ghost var w := vram[..];
        var tmp := vram[p];
        vram[p] := prev;
        LemmaOpenedMore(m, w, vram[..], pos, p, prev);
        prev := tmp;
        p, i := p + 1, i + 1;
      }
      LemmaOpened(m, vram[..], pos, p);
    }

    method DeleteChar()
      requires Valid()
      modifies vram
      ensures Deleted(old(View()), 1) && Confined(old(vram[..]), vram[..], origin, scrEnd)
    {
      hide Good, At, ShiftUp, ShiftDown, Confined;
      ghost var m, t, a := vram[..], View(), At(View());
      LemmaSizes(t);
      if x < cols {
        CloseGap();
      }
      LemmaDeletedOne(m, vram[..], origin, scrEnd - origin, a, a - x + cols);
      LemmaCellsOnly(t, View());
    }

    // The loop of delete_char and its last assignment.
    method CloseGap()
      requires 0 <= x < cols && 0 <= pos && pos - x + cols <= vram.Length
      modifies vram
      ensures forall k {:trigger vram[k]} :: 0 <= k < vram.Length ==>
        vram[k] == if pos <= k < pos - x + cols - 1 then old(vram[k + 1]) else if k == pos - x + cols - 1 then BLANK else old(vram[k])
    {
      var i, p := x + 1, pos;
      while i < cols
        invariant x < i <= cols && p == pos + i - x - 1
        invariant forall k {:trigger vram[k]} :: 0 <= k < vram.Length ==> vram[k] == if pos <= k < p then old(vram[k + 1]) else old(vram[k])
      {
        vram[p] := vram[p + 1];
        p, i := p + 1, i + 1;
      }
      vram[p] := BLANK;
    }

    method InsertLine()
      requires Valid()
      modifies this`top, this`bottom, vram
      ensures Valid() && View() == Scrdown(old(View()), y, lines, 1)
      ensures Confined(old(vram[..]), vram[..], origin, scrEnd)
    {
      hide ShiftDown;
      var oldTop, oldBottom := top, bottom;
      top, bottom := y, lines;
      ScrollDown();
      top, bottom := oldTop, oldBottom;
    }

    method DeleteLine()
      requires Valid()
      modifies this`top, this`bottom, this`origin, this`pos, this`scrEnd, vram
      ensures Valid() && View() == Scrup(old(View()), y, lines, 1)
      ensures Confined(old(vram[..]), vram[..], origin, scrEnd)
      ensures !(ega && y == 0) ==> origin == old(origin)
    {
      hide ShiftUp;
      var oldTop, oldBottom := top, bottom;
      top, bottom := y, lines;
      ScrollUp();
      top, bottom := oldTop, oldBottom;
    }

    // ---------------------------------------------------------------- repeated commands

    method CsiAt(nr0: int)
      requires Valid() && 0 <= nr0
      modifies vram
      ensures Valid() && View() == Terminal.CsiAt(old(View()), nr0) && Confined(old(vram[..]), vram[..], origin, scrEnd)
    {
      hide Good, At, ShiftDown, Inserted, Confined;
      ghost var t, m := View(), vram[..];
      LemmaSizes(t);
      LemmaSame(m, origin, scrEnd);
      InsertedNone();
      var nr := if nr0 > cols then cols else if nr0 == 0 then 1 else nr0;
      for n := 0 to nr
        invariant Inserted(t, n) && Confined(m, vram[..], origin, scrEnd)
      {
        ghost var m1 := vram[..];
        InsertCharMore(t, n);
        LemmaConfinedTwice(m, m1, vram[..], origin, scrEnd);
      }
      InsertedIs(t, nr);
    }

    lemma InsertedNone()
      requires Valid()
      ensures Inserted(View(), 0)
    {
      LemmaNoShift(View());
    }

    lemma InsertedIs(t: Term, n: nat)
      requires Good(t) && Inserted(t, n)
      ensures Valid() && View() == t.(cells := ShiftDown(t.cells, At(t), At(t) - t.x + t.cols, n))
    {
    }

    method InsertCharMore(ghost t: Term, ghost n: nat)
      requires Good(t) && Inserted(t, n)
      modifies vram
      ensures Inserted(t, n + 1) && Confined(old(vram[..]), vram[..], origin, scrEnd)
    {
      hide Good, At, ShiftDown, Confined;
      LemmaInsertedMore(t, n);
      InsertChar();
    }

    method CsiP(nr0: int)
      requires Valid() && 0 <= nr0
      modifies vram
      ensures Valid() && View() == Terminal.CsiP(old(View()), nr0) && Confined(old(vram[..]), vram[..], origin, scrEnd)
    {
      hide Good, At, ShiftUp, Deleted, Confined;
      ghost var t, m := View(), vram[..];
      LemmaSizes(t);
      LemmaSame(m, origin, scrEnd);
      DeletedNone();
      var nr := if nr0 > cols then cols else if nr0 == 0 then 1 else nr0;
      for n := 0 to nr
        invariant Deleted(t, n) && Confined(m, vram[..], origin, scrEnd)
      {
        ghost var m1 := vram[..];
        DeleteCharMore(t, n);
        LemmaConfinedTwice(m, m1, vram[..], origin, scrEnd);
      }
      DeletedIs(t, nr);
    }

    lemma DeletedNone()
      requires Valid()
      ensures Deleted(View(), 0)
    {
      LemmaNoShift(View());
    }

    lemma DeletedIs(t: Term, n: nat)
      requires Good(t) && Deleted(t, n)
      ensures Valid() && View() == t.(cells := ShiftUp(t.cells, At(t), At(t) - t.x + t.cols, n))
    {
    }

    method DeleteCharMore(ghost t: Term, ghost n: nat)
      requires Good(t) && Deleted(t, n)
      modifies vram
      ensures Deleted(t, n + 1) && Confined(old(vram[..]), vram[..], origin, scrEnd)
    {
      hide Good, At, ShiftUp, Confined;
      LemmaDeletedMore(t, n);
      DeleteChar();
    }

    method CsiL(nr0: int)
      requires Valid() && 0 <= nr0
      modifies this`top, this`bottom, vram
      ensures Valid() && View() == Terminal.CsiL(old(View()), nr0)
      ensures Confined(old(vram[..]), vram[..], origin, scrEnd)
    {
      hide ShiftDown, Scrdown, Confined, Good;
      ghost var t, m := View(), vram[..];
      LemmaBounds(t);
      LemmaSame(m, origin, scrEnd);
      var nr := if nr0 > lines then lines else if nr0 == 0 then 1 else nr0;
      LemmaNoScroll(t);
      for n := 0 to nr
        invariant Valid() && View() == Scrdown(t, t.y, t.lines, n) && Confined(m, vram[..], origin, scrEnd)
      {
        ghost var m1 := vram[..];
        LemmaScrdownMore(t, t.y, t.lines, n);
        InsertLine();
        LemmaConfinedTwice(m, m1, vram[..], origin, scrEnd);
      }
    }

    // shots shows each of the scrolls.
    method CsiM(nr0: int) returns (ghost shots: seq<Shot>)
      requires Valid() && 0 <= nr0
      modifies this`top, this`bottom, this`origin, this`pos, this`scrEnd, vram
      ensures Valid() && View() == Terminal.CsiM(old(View()), nr0)
      ensures !ega ==> origin == old(origin)
      ensures (ega && y == 0 && nr0 > 1) || Confined(old(vram[..]), vram[..], origin, scrEnd)
      ensures Scrolling(shots, old(View()), Times(nr0, lines)) && |shots| > 0
      ensures shots[0] == old(Now()) && shots[|shots| - 1] == Now()
    {
      hide ShiftUp, Scrup, Confined, Good, Scrolling, Visible, Shows;
      ghost var t, m, o := View(), vram[..], origin;
      LemmaBounds(t);
      LemmaSame(m, origin, scrEnd);
      var nr := if nr0 > lines then lines else if nr0 == 0 then 1 else nr0;
      LemmaNoScroll(t);
      LemmaScrollingStart(Now());
      shots := [Now()];
      for n := 0 to nr
        invariant Valid() && View() == Scrup(t, t.y, t.lines, n) && (n == 0 ==> vram[..] == m)
        invariant !(ega && y == 0) ==> origin == o && Confined(m, vram[..], origin, scrEnd)
        invariant n <= 1 ==> Confined(m, vram[..], origin, scrEnd)
        invariant Scrolling(shots, t, n) && |shots| == n + 1 && shots[0] == old(Now()) && shots[n] == Now()
      {
        ghost var m1, was := vram[..], Now();
        LemmaScrupMore(t, t.y, t.lines, n);
        DeleteLine();
        if n > 0 && !(ega && y == 0) {
          LemmaConfinedTwice(m, m1, vram[..], origin, scrEnd);
        }
        LemmaShotShows();
        LemmaVisible(was, Now(), scrEnd);
        LemmaScrollingMore(shots, t, n, Now());
        shots := shots + [Now()];
      }
    }

    // What video memory holds, and which screen it shows.
    ghost function Now(): Shot
      requires 0 <= origin <= scrEnd <= vram.Length
      reads this, vram, par
    {
      Shot(vram[..], origin, View())
    }

    lemma LemmaShotShows()
      requires Valid()
      ensures Shows(Now())
    {
    }

    // ---------------------------------------------------------------- con_write

    // A cursor command: the first parameter, counted from 1 or at least 1, and where the cursor goes.
    method MoveTo(newX: int, newY: int)
      requires Valid() && 0 <= newX && 0 <= newY
      modifies this`x, this`y, this`pos
      ensures Valid() && View() == Terminal.Gotoxy(old(View()), newX, newY)
    {
      Gotoxy(newX, newY);
    }

    method Lower(i: int)
      requires Valid() && 0 <= i < 2
      modifies par
      ensures Valid() && View() == old(View()).(par := old(par[..])[i := if old(par[i]) > 0 then old(par[i]) - 1 else 0])
    {
      ghost var t := View();
      if par[i] != 0 {
        par[i] := par[i] - 1;
      }
      assert View().cells == t.cells;
    }

    method Raise()
      requires Valid()
      modifies par
      ensures Valid() && View() == old(View()).(par := old(par[..])[0 := if old(par[0]) == 0 then 1 else old(par[0])])
    {
      ghost var t := View();
      if par[0] == 0 {
        par[0] := par[0] + 1;
      }
      assert View().cells == t.cells;
    }

    // The final bytes that move the cursor in its line.
    method ColumnByte(c: char)
      requires Valid() && c in "G`CaD"
      modifies this`x, this`y, this`pos, par
      ensures Valid() && View() == Csi(old(View()), c)
    {
      hide Good, Terminal.Gotoxy, Csi;
      LemmaBounds(View());
      LemmaColumn(View());
      match c {
        case 'G' => Column();
        case '`' => Column();
        case 'C' => Forward();
        case 'a' => Forward();
        case 'D' => Back();
        case _ =>
      }
    }

    method Column()
      requires Valid()
      modifies this`x, this`y, this`pos, par
      ensures Valid() && View() == Csi(old(View()), 'G')
    {
      hide Good, Terminal.Gotoxy, Csi;
      LemmaBounds(View());
      LemmaColumn(View());
      Lower(0);
      MoveTo(par[0], y);
    }

    method Forward()
      requires Valid()
      modifies this`x, this`y, this`pos, par
      ensures Valid() && View() == Csi(old(View()), 'C')
    {
      hide Good, Terminal.Gotoxy, Csi;
      LemmaBounds(View());
      LemmaColumn(View());
      Raise();
      MoveTo((x + par[0]) % WORD, y);
    }

    method Back()
      requires Valid()
      modifies this`x, this`y, this`pos, par
      ensures Valid() && View() == Csi(old(View()), 'D')
    {
      hide Good, Terminal.Gotoxy, Csi;
      LemmaBounds(View());
      LemmaColumn(View());
      Raise();
      MoveTo((x - par[0]) % WORD, y);
    }

    // The ones that move it to another line.
    method LineByte(c: char)
      requires Valid() && c in "ABed"
      modifies this`x, this`y, this`pos, par
      ensures Valid() && View() == Csi(old(View()), c)
    {
      hide Good, Terminal.Gotoxy;
      LemmaBounds(View());
      match c {
        case 'A' => Raise(); MoveTo(x, (y - par[0]) % WORD);
        case 'B' => Raise(); MoveTo(x, (y + par[0]) % WORD);
        case 'e' => Raise(); MoveTo(x, (y + par[0]) % WORD);
        case 'd' => Lower(0); MoveTo(x, par[0]);
        case _ =>
      }
    }

    method Address()
      requires Valid()
      modifies this`x, this`y, this`pos, par
      ensures Valid() && View() == CsiH(old(View()))
    {
      hide Good, Terminal.Gotoxy;
      LemmaBounds(View());
      Lower(0);
      Lower(1);
      MoveTo(par[1], par[0]);
    }

    // The ones that do both.
    method PlaceByte(c: char)
      requires Valid() && c in "EFHf"
      modifies this`x, this`y, this`pos, par
      ensures Valid() && View() == Csi(old(View()), c)
    {
      hide Good, Terminal.Gotoxy, CsiH;
      LemmaBounds(View());
      match c {
        case 'E' => Raise(); MoveTo(0, (y + par[0]) % WORD);
        case 'F' => Raise(); MoveTo(0, (y - par[0]) % WORD);
        case 'H' => Address();
        case 'f' => Address();
        case _ =>
      }
    }

    // The switch of state 4 on the final byte, but for the one that deletes lines.
    method CommandByte(c: char)
      requires Valid() && c != 'M'
      modifies this`x, this`y, this`pos, this`top, this`bottom, this`origin, this`scrEnd, this`attr, this`savedX, this`savedY, vram, par
      ensures Valid() && View() == Csi(old(View()), c)
      ensures origin == old(origin)
      ensures Confined(old(vram[..]), vram[..], origin, scrEnd)
    {
      hide Good, At, Terminal.CsiJ, Terminal.CsiK, Terminal.CsiL, Terminal.CsiM, Terminal.CsiP, Terminal.CsiAt, Terminal.Gotoxy, CsiR, CsiH, Attributes;
      LemmaBounds(View());
      if c in "G`CaD" {
        ColumnByte(c);
        return;
      }
      if c in "ABed" {
        LineByte(c);
        return;
      }
      if c in "EFHf" {
        PlaceByte(c);
        return;
      }
      match c {
        case 'J' => CsiJ(par[0]);
        case 'K' => CsiK(par[0]);
        case 'L' => CsiL(par[0]);
        case 'P' => CsiP(par[0]);
        case '@' => CsiAt(par[0]);
        case 'm' => CsiAttributes();
        case 'r' => SetRegion();
        case 's' =>
          LemmaSaved(View());
          savedX, savedY := x, y;
        case 'u' => MoveTo(savedX, savedY);
        case _ =>
      }
    }

    // The switch of state 4; shots shows the scrolls if it deletes lines.
    method CsiByte(c: char) returns (ghost shots: seq<Shot>)
      requires Valid()
      modifies this`x, this`y, this`pos, this`top, this`bottom, this`origin, this`scrEnd, this`attr, this`savedX, this`savedY, vram, par
      ensures Valid() && View() == Csi(old(View()), c)
      ensures !ega ==> origin == old(origin)
      ensures (ega && c == 'M' && old(y) == 0 && old(par[0]) > 1) || Confined(old(vram[..]), vram[..], origin, scrEnd)
      ensures c == 'M' ==>
        && Scrolling(shots, old(View()), Times(old(par[0]), lines)) && |shots| > 0
        && shots[0] == old(Now()) && shots[|shots| - 1] == Now()
    {
      hide Good, Terminal.CsiM, Confined, Scrolling;
      LemmaBounds(View());
      shots := [];
      if c == 'M' {
        shots := CsiM(par[0]);
      } else {
        CommandByte(c);
      }
    }

    method SetRegion()
      requires Valid()
      modifies this`top, this`bottom, par
      ensures Valid() && View() == CsiR(old(View()))
    {
      hide Good;
      ghost var t := View();
      LemmaBounds(t);
      if par[0] != 0 {
        par[0] := par[0] - 1;
      }
      if par[1] == 0 {
        par[1] := lines;
      }
      assert View().cells == t.cells;
      assert par[..] == CsiR(t).par;
      if par[0] < par[1] && par[1] <= lines {
        top := par[0];
        bottom := par[1];
      }
    }

    // A printable byte.
    method ShowByte(c: char)
      requires Valid() && 31 < c as int < 127
      modifies this`x, this`y, this`pos, this`origin, this`scrEnd, vram
      ensures Valid() && View() == Show(old(View()), c)
      ensures Confined(old(vram[..]), vram[..], origin, scrEnd)
      ensures !ega ==> origin == old(origin)
    {
      hide Terminal.Lf, Good, Confined;
      ghost var t := View();
      LemmaBounds(t);
      if x >= cols {
        LemmaNextRow(cols, y - 1);
        LemmaWrapped(t);
        x := x - cols;
        pos := pos - cols;
        Lf();
      } else {
        LemmaSame(vram[..], origin, scrEnd);
      }
      ghost var m := vram[..];
      PrintCell(attr * 256 + c as int);
      LemmaConfinedTwice(old(vram[..]), m, vram[..], origin, scrEnd);
    }

    // A cell written at the cursor, which goes on by one.
    method PrintCell(cell: int)
      requires Valid() && x < cols
      modifies this`x, this`pos, vram
      ensures Valid() && Confined(old(vram[..]), vram[..], origin, scrEnd)
      ensures var t := old(View()); View() == t.(cells := t.cells[At(t) := cell], x := t.x + 1)
    {
      hide Confined;
      WriteCell(cell);
      pos := pos + 1;
      x := x + 1;
    }

    method WriteCell(cell: int)
      requires Valid() && x < cols
      modifies vram
      ensures Valid() && View() == old(View()).(cells := old(View()).cells[At(old(View())) := cell])
      ensures Confined(old(vram[..]), vram[..], origin, scrEnd)
    {
      hide Good, At;
      ghost var t, a := View(), At(View());
      LemmaSizes(t);
      vram[pos] := cell;
      assert vram[origin..scrEnd] == t.cells[a := cell];
      LemmaCellsOnly(t, View());
    }

    method TabByte()
      requires Valid()
      modifies this`x, this`y, this`pos, this`origin, this`scrEnd, vram
      ensures Valid() && View() == Tab(old(View()))
      ensures Confined(old(vram[..]), vram[..], origin, scrEnd)
      ensures !ega ==> origin == old(origin)
    {
      hide Terminal.Lf;
      var c := 8 - x % 8;
      x := x + c;
      pos := pos + c;
      if x > cols {
        x := x - cols;
        pos := pos - cols;
        Lf();
      }
    }

    // State 0 of con_write.
    method PlainByte(c: char, erase: char)
      requires Valid()
      modifies this`x, this`y, this`pos, this`origin, this`scrEnd, this`state, vram
      ensures Valid() && View() == Plain(old(View()), c, erase)
      ensures Confined(old(vram[..]), vram[..], origin, scrEnd)
      ensures !ega ==> origin == old(origin)
    {
      hide Terminal.Lf, Show, Tab, Terminal.Del;
      var b := c as int;
      if 31 < b < 127 {
        ShowByte(c);
      } else if b == 27 {
        state := 1;
      } else if b == 10 || b == 11 || b == 12 {
        Lf();
      } else if b == 13 {
        Cr();
      } else if c == erase && b < 128 {
        Del();
      } else if b == 8 {
        if x != 0 {
          x := x - 1;
          pos := pos - 1;
        }
      } else if b == 9 {
        TabByte();
      }
    }

    // State 1.
    method EscapeByte(c: char)
      requires Valid()
      modifies this`x, this`y, this`pos, this`origin, this`scrEnd, this`state, this`savedX, this`savedY, vram
      ensures Valid() && View() == Escape(old(View()), c)
      ensures Confined(old(vram[..]), vram[..], origin, scrEnd)
      ensures !ega ==> origin == old(origin)
    {
      hide Terminal.Lf, Terminal.Ri;
      state := 0;
      if c == '[' {
        state := 2;
      } else if c == 'E' {
        MoveTo(0, y + 1);
      } else if c == 'M' {
        Ri();
      } else if c == 'D' {
        Lf();
      } else if c == 'Z' {
      } else if x == '7' as int {
        savedX, savedY := x, y;
      } else if x == '8' as int {
        MoveTo(savedX, savedY);
      }
    }

    // States 3 and 4.
    method ParamByte(c: char) returns (ghost shots: seq<Shot>)
      requires Valid()
      modifies this, vram, par
      ensures Valid() && View() == Params(old(View()), c)
      ensures !ega ==> origin == old(origin)
      ensures (ega && c == 'M' && old(y) == 0 && old(par[0]) > 1) || Confined(old(vram[..]), vram[..], origin, scrEnd)
      ensures c == 'M' ==>
        && Scrolling(shots, old(View()).(state := 0), Times(old(par[0]), lines)) && |shots| > 0
        && shots[0] == old(Now()).(term := old(View()).(state := 0)) && shots[|shots| - 1] == Now()
    {
      hide Csi, Scrolling, Good, Confined, Params;
      ghost var t := View();
      LemmaParams(t, c);
      LemmaSame(vram[..], origin, scrEnd);
      shots := [];
      if c == ';' && npar < NPAR - 1 {
        npar := npar + 1;
      } else if '0' <= c <= '9' {
        par[npar] := (10 * par[npar] + c as int - '0' as int) % WORD;
        assert View().cells == t.cells;
      } else {
        state := 0;
        shots := CsiByte(c);
      }
    }

    // State 2, which goes on to state 3 unless the byte is a question mark.
    method FirstByte(c: char)
      requires Valid() && state == 2
      modifies this, vram, par
      ensures Valid() && View() == Put(old(View()), c, '0')
      ensures !ega ==> origin == old(origin)
      ensures Confined(old(vram[..]), vram[..], origin, scrEnd)
    {
      hide Params, Scrolling;
      ghost var t := View();
      for n := 0 to NPAR
        modifies par
        invariant forall i :: 0 <= i < n ==> par[i] == 0
      {
        par[n] := 0;
      }
      npar, state, ques := 0, 3, c == '?';
      assert par[..] == seq(NPAR, _ => 0);
      assert View().cells == t.cells;
      if !ques {
        ghost var shots := ParamByte(c);
      }
    }

    /** One byte of con_write.  It writes only to cells that are visible after it; only if it deletes
        several lines from the top of an EGA's screen, it does so in several scrolls, each of which
        writes only to cells that are visible after that one. */
    method PutByte(c: char, erase: char) returns (ghost trail: seq<Shot>)
      requires Valid()
      modifies this, vram, par
      ensures Valid() && View() == Put(old(View()), c, erase) && (!ega ==> origin == old(origin))
      ensures (ega && ManyDeleted(old(View()), c)) || Confined(old(vram[..]), vram[..], origin, scrEnd)
      ensures ByteTrail(trail, c, erase) && |trail| >= 2 && trail[0] == old(Now()) && trail[|trail| - 1] == Now()
    {
      hide Plain, Escape, Params, Good, Confined, Scrolling, Shows, Visible, ByteTrail, Put;
      ghost var t, was := View(), Now();
      LemmaBounded(t);
      LemmaShotShows();
      ghost var shots := SwitchByte(c, erase);
      LemmaShotShows();
      if ega && ManyDeleted(t, c) {
        trail := shots[0 := was];
        LemmaDeletedTrail(shots, was, c, erase, Now());
      } else {
        trail := [was, Now()];
        LemmaVisible(was, Now(), scrEnd);
        LemmaOneTrail(was, Now(), c, erase);
      }
    }

    // The switch of con_write on its state.
    method SwitchByte(c: char, erase: char) returns (ghost shots: seq<Shot>)
      requires Valid()
      modifies this, vram, par
      ensures Valid() && View() == Put(old(View()), c, erase) && (!ega ==> origin == old(origin))
      ensures (ega && ManyDeleted(old(View()), c)) || Confined(old(vram[..]), vram[..], origin, scrEnd)
      ensures ManyDeleted(old(View()), c) ==>
        && Scrolling(shots, old(View()).(state := 0), Times(old(par[0]), lines)) && |shots| > 0
        && shots[0] == old(Now()).(term := old(View()).(state := 0)) && shots[|shots| - 1] == Now()
    {
      hide Plain, Escape, Params, Good, Confined, Visible;
      LemmaBounded(View());
      shots := [];
      match state {
        case 0 => PlainByte(c, erase);
        case 1 => EscapeByte(c);
        case 2 => FirstByte(c);
        case _ => shots := ParamByte(c);
      }
    }

    /** con_write: whatever bytes come, on whatever kind of display, the screen is the one that Feed
        says, and the cursor, the scroll region and the origin stay where they may be.  trails shows
        what each byte does: memory changes by scrolls and writes each of which touches only cells that
        are visible after it. */
    method ConWrite(s: seq<char>, erase: char) returns (ghost trails: seq<seq<Shot>>)
      requires Valid()
      modifies this, vram, par
      ensures Valid() && View() == Feed(old(View()), s, erase)
      ensures !ega ==> origin == old(origin) && Confined(old(vram[..]), vram[..], origin, scrEnd)
      ensures Trails(trails, s, erase, old(Now()), Now())
    {
      hide Put, Good, Confined, Feed, ByteTrail, Trails, Shows, Visible;
      ghost var t, m, o, e := View(), vram[..], origin, scrEnd;
      ghost var first := Now();
      LemmaSame(m, o, e);
      LemmaNoTrails(erase, first);
      trails := [];
      for nr := 0 to |s|
        invariant Valid() && Feed(View(), s[nr..], erase) == Feed(t, s, erase)
        invariant !ega ==> origin == o && scrEnd == e && Confined(m, vram[..], o, e)
        invariant Trails(trails, s[..nr], erase, first, Now())
      {
        ghost var m1, was := vram[..], Now();
        LemmaFeedNext(View(), s[nr..], erase);
        ghost var trail := PutByte(s[nr], erase);
        if !ega {
          LemmaConfinedTwice(m, m1, vram[..], o, e);
        }
        assert s[nr..][1..] == s[nr + 1..];
        assert s[..nr + 1] == s[..nr] + [s[nr]];
        LemmaTrailsMore(trails, s[..nr], erase, first, was, trail, s[nr], Now());
        trails := trails + [trail];
      }
      assert s[..|s|] == s;
      LemmaFed(View(), erase);
    }
  }

  // ---------------------------------------------------------------- what a run does to video memory

  // Video memory, where the screen starts in it, and the screen.
  datatype Shot = Shot(cells: seq<int>, origin: int, term: Term)

  ghost predicate Shows(a: Shot) {
    && Good(a.term) && 0 <= a.origin && a.origin + |a.term.cells| <= |a.cells|
    && a.cells[a.origin..a.origin + |a.term.cells|] == a.term.cells
  }

  // From a to b, only cells that are visible in b have changed.
  ghost predicate Visible(a: Shot, b: Shot) {
    Shows(b) && Confined(a.cells, b.cells, b.origin, b.origin + |b.term.cells|)
  }

  // The screens of n scrolls of the lines from the cursor on, one after the other.
  ghost predicate Scrolling(shots: seq<Shot>, t: Term, n: nat) {
    && Good(t) && |shots| == n + 1
    && (forall k :: 0 <= k <= n ==> shots[k].term == Scrup(t, t.y, t.lines, k))
    && forall k :: 0 <= k < n ==> Visible(shots[k], shots[k + 1])
  }

  // The byte deletes more than one line from the top of the screen.
  predicate ManyDeleted(t: Term, c: char) {
    t.state >= 3 && c == 'M' && t.y == 0 && |t.par| > 0 && t.par[0] > 1
  }

  ghost predicate ByteTrail(trail: seq<Shot>, c: char, erase: char) {
    && |trail| >= 2 && Shows(trail[0]) && (|trail| == 2 || ManyDeleted(trail[0].term, c))
    && trail[|trail| - 1].term == Put(trail[0].term, c, erase)
    && (forall k :: 0 < k < |trail| && |trail| > 2 ==> trail[k].term == Scrup(trail[0].term, 0, trail[0].term.lines, k).(state := 0))
    && forall k :: 0 <= k < |trail| - 1 ==> Visible(trail[k], trail[k + 1])
  }

  ghost predicate Trails(trails: seq<seq<Shot>>, s: seq<char>, erase: char, first: Shot, last: Shot) {
    && |trails| == |s|
    && (forall k :: 0 <= k < |s| ==> ByteTrail(trails[k], s[k], erase) && |trails[k]| >= 2)
    && (forall k :: 0 <= k < |s| - 1 ==> Ends(trails[k], trails[k + 1]))
    && if s == [] then first == last else trails[0][0] == first && trails[|s| - 1][|trails[|s| - 1]| - 1] == last
  }

  // One byte's trail goes on where the other's ends.
  ghost predicate Ends(a: seq<Shot>, b: seq<Shot>) { |a| > 0 && |b| > 0 && a[|a| - 1] == b[0] }

  lemma LemmaVisible(a: Shot, b: Shot, scrEnd: int)
    requires Shows(b) && Confined(a.cells, b.cells, b.origin, scrEnd) && scrEnd == b.origin + |b.term.cells|
    ensures Visible(a, b)
  {
  }

  lemma LemmaOneTrail(a: Shot, b: Shot, c: char, erase: char)
    requires Shows(a) && Visible(a, b) && b.term == Put(a.term, c, erase)
    ensures ByteTrail([a, b], c, erase)
  {
    hide Put, Visible, Scrup;
  }

  lemma LemmaNoTrails(erase: char, a: Shot)
    ensures Trails([], [], erase, a, a)
  {
  }

  lemma LemmaTrailsMore(trails: seq<seq<Shot>>, s: seq<char>, erase: char, first: Shot, was: Shot, trail: seq<Shot>, c: char, now: Shot)
    requires Trails(trails, s, erase, first, was) && ByteTrail(trail, c, erase) && |trail| >= 2
    requires trail[0] == was && trail[|trail| - 1] == now
    ensures Trails(trails + [trail], s + [c], erase, first, now)
  {
    hide ByteTrail;
    var ts := trails + [trail];
    forall k | 0 <= k < |ts| - 1
      ensures Ends(ts[k], ts[k + 1])
    {
      if k < |s| - 1 {
        assert Ends(trails[k], trails[k + 1]);
      }
    }
  }

  lemma LemmaScrollingStart(a: Shot)
    requires Good(a.term)
    ensures Scrolling([a], a.term, 0)
  {
    LemmaNoScroll(a.term);
  }

  lemma LemmaScrollingMore(shots: seq<Shot>, t: Term, n: nat, b: Shot)
    requires Scrolling(shots, t, n) && b.term == Scrup(t, t.y, t.lines, n + 1) && Visible(shots[n], b)
    ensures Scrolling(shots + [b], t, n + 1)
  {
    hide Scrup, Visible;
  }

  lemma LemmaDeletedTrail(shots: seq<Shot>, was: Shot, c: char, erase: char, b: Shot)
    requires Shows(was) && ManyDeleted(was.term, c) && b.term == Put(was.term, c, erase)
    requires Scrolling(shots, was.term.(state := 0), Times(was.term.par[0], was.term.lines))
    requires shots[0] == was.(term := was.term.(state := 0)) && shots[|shots| - 1] == b
    ensures |shots| >= 2 && ByteTrail(shots[0 := was], c, erase)
  {
    hide Confined, ShiftUp, Put;
    var trail := shots[0 := was];
    var t, u := was.term, was.term.(state := 0);
    forall k | 0 < k < |trail|
      ensures trail[k].term == Scrup(t, 0, t.lines, k).(state := 0)
    {
      assert Scrup(u, u.y, u.lines, k) == Scrup(t, 0, t.lines, k).(state := 0);
    }
    forall k | 0 <= k < |trail| - 1
      ensures Visible(trail[k], trail[k + 1])
    {
      assert Visible(shots[k], shots[k + 1]);
    }
  }

  /** An EGA, which scrolls by moving the origin, and a display that copies show the same screen after
      the same output. */
  method SameOutput(a: Display, b: Display, s: seq<char>, erase: char)
    requires a.Valid() && b.Valid() && a.ega && !b.ega && a.View() == b.View()
    requires {a.vram, a.par} !! {b.vram, b.par}
    modifies a, a.vram, a.par, b, b.vram, b.par
    ensures a.Valid() && b.Valid() && a.View() == b.View()
  {
    hide Feed, Good;
    ghost var trails := a.ConWrite(s, erase);
    trails := b.ConWrite(s, erase);
  }

  lemma LemmaBounded(t: Term)
    requires Good(t)
    ensures 0 <= t.state <= 3
  {
  }

  lemma LemmaFed(t: Term, erase: char)
    requires Good(t)
    ensures Feed(t, [], erase) == t
  {
  }

  lemma LemmaFeedNext(t: Term, s: seq<char>, erase: char)
    requires Good(t) && s != []
    ensures Good(Put(t, s[0], erase)) && Feed(t, s, erase) == Feed(Put(t, s[0], erase), s[1..], erase)
  {
  }

  lemma LemmaBounds(t: Term)
    requires Good(t)
    ensures 0 <= t.x <= t.cols && 0 <= t.y < t.lines && 0 <= t.savedX && 0 <= t.savedY
    ensures |t.par| == NPAR && forall i :: 0 <= i < NPAR ==> 0 <= t.par[i] < WORD
  {
  }

  lemma LemmaColumn(t: Term)
    requires Good(t)
    ensures var p := t.par[0];
      var (less, more) := (if p > 0 then p - 1 else 0, if p == 0 then 1 else p);
      var (down, up) := (t.(par := t.par[0 := less]), t.(par := t.par[0 := more]));
      && Good(down) && Good(up) && Csi(t, 'G') == Csi(t, '`') == Gotoxy(down, less, t.y)
      && Csi(t, 'C') == Csi(t, 'a') == Gotoxy(up, (t.x + more) % WORD, t.y)
      && Csi(t, 'D') == Gotoxy(up, (t.x - more) % WORD, t.y)
  {
    hide Gotoxy;
  }

  lemma LemmaParams(t: Term, c: char)
    requires Good(t)
    ensures 0 <= t.npar < NPAR == |t.par| && Good(t.(state := 0)) && Good(Params(t, c))
    ensures Params(t, c) ==
      if c == ';' && t.npar < NPAR - 1 then t.(npar := t.npar + 1)
      else if '0' <= c <= '9' then t.(par := t.par[t.npar := (10 * t.par[t.npar] + c as int - '0' as int) % WORD])
      else Csi(t.(state := 0), c)
  {
    hide Csi;
  }

  lemma LemmaWrapped(t: Term)
    requires Good(t) && t.x >= t.cols
    ensures Good(t.(x := t.x - t.cols)) && t.x == t.cols
  {
  }

  lemma LemmaSaved(t: Term)
    requires Good(t)
    ensures Good(t.(savedX := t.x, savedY := t.y))
  {
  }

  lemma LemmaNoShift(t: Term)
    requires Good(t)
    ensures t == t.(cells := ShiftDown(t.cells, At(t), At(t) - t.x + t.cols, 0))
    ensures t == t.(cells := ShiftUp(t.cells, At(t), At(t) - t.x + t.cols, 0))
  {
    assert ShiftDown(t.cells, At(t), At(t) - t.x + t.cols, 0) == t.cells;
    assert ShiftUp(t.cells, At(t), At(t) - t.x + t.cols, 0) == t.cells;
  }

  lemma LemmaInsertedMore(t: Term, n: nat)
    requires Good(t)
    ensures var a, e := At(t), At(t) - t.x + t.cols;
      var u := t.(cells := ShiftDown(t.cells, a, e, n));
      && Good(u) && At(u) == a
      && u.(cells := ShiftDown(u.cells, a, e, 1)) == t.(cells := ShiftDown(t.cells, a, e, n + 1))
  {
    hide Good, ShiftDown, ShiftUp;
    LemmaSizes(t);
    LemmaCellsOnly(t, t.(cells := ShiftDown(t.cells, At(t), At(t) - t.x + t.cols, n)));
    LemmaShiftDownTwice(t.cells, At(t), At(t) - t.x + t.cols, n, 1);
  }

  lemma LemmaDeletedMore(t: Term, n: nat)
    requires Good(t)
    ensures var a, e := At(t), At(t) - t.x + t.cols;
      var u := t.(cells := ShiftUp(t.cells, a, e, n));
      && Good(u) && At(u) == a
      && u.(cells := ShiftUp(u.cells, a, e, 1)) == t.(cells := ShiftUp(t.cells, a, e, n + 1))
  {
    hide Good, ShiftDown, ShiftUp;
    LemmaSizes(t);
    LemmaCellsOnly(t, t.(cells := ShiftUp(t.cells, At(t), At(t) - t.x + t.cols, n)));
    LemmaShiftUpTwice(t.cells, At(t), At(t) - t.x + t.cols, n, 1);
  }

  lemma LemmaNoScroll(t: Term)
    requires Good(t)
    ensures Scrdown(t, t.y, t.lines, 0) == t && Scrup(t, t.y, t.lines, 0) == t
  {
    assert 0 * t.cols == 0;
    LemmaLine(t, t.y);
    assert t.lines * t.cols == |t.cells|;
  }

  lemma LemmaOneMore(n: nat, cols: nat)
    ensures n * cols >= 0 && (n + 1) * cols == n * cols + cols && 1 * cols == cols
  {
  }

  lemma LemmaScrdownMore(t: Term, top: int, bottom: int, n: nat)
    requires Good(t) && 0 <= top < bottom <= t.lines
    ensures Scrdown(Scrdown(t, top, bottom, n), top, bottom, 1) == Scrdown(t, top, bottom, n + 1)
  {
    hide ShiftDown, ShiftUp;
    LemmaLine(t, top);
    LemmaLine(t, bottom);
    LemmaRows(t.cols, top, bottom);
    LemmaOneMore(n, t.cols);
    LemmaShiftDownTwice(t.cells, top * t.cols, bottom * t.cols, n * t.cols, t.cols);
  }

  lemma LemmaScrupMore(t: Term, top: int, bottom: int, n: nat)
    requires Good(t) && 0 <= top < bottom <= t.lines
    ensures Scrup(Scrup(t, top, bottom, n), top, bottom, 1) == Scrup(t, top, bottom, n + 1)
  {
    hide ShiftDown, ShiftUp;
    LemmaLine(t, top);
    LemmaLine(t, bottom);
    LemmaRows(t.cols, top, bottom);
    LemmaOneMore(n, t.cols);
    LemmaShiftUpTwice(t.cells, top * t.cols, bottom * t.cols, n * t.cols, t.cols);
  }

  lemma LemmaNextRow(cols: int, y: int)
    ensures (y + 1) * cols == y * cols + cols
  {
  }

  lemma LemmaSizes(t: Term)
    requires Good(t)
    ensures |t.cells| == t.cols * t.lines && At(t) - t.x + t.cols <= |t.cells| && 0 <= t.x <= t.cols && t.cols > 0
    ensures 0 <= At(t) - t.x && At(t) == t.y * t.cols + t.x
  {
  }

  lemma LemmaEraseAll(s: seq<int>)
    ensures Erase(s, 0, |s|) == Blanks(|s|)
  {
  }

  lemma LemmaCellsOnly(t: Term, u: Term)
    requires Good(t) && u == t.(cells := u.cells) && |u.cells| == |t.cells|
    ensures Good(u)
  {
  }

  lemma LemmaInsertedOne(m: seq<int>, w: seq<int>, o: int, size: int, lo: int, hi: int)
    requires 0 <= lo <= hi <= size && 0 <= o && o + size <= |m| == |w|
    requires forall i {:trigger w[i]} :: 0 <= i < |m| ==>
      w[i] == if o + lo < i < o + hi then m[i - 1] else if i == o + lo && lo < hi then BLANK else m[i]
    ensures w[o..o + size] == ShiftDown(m[o..o + size], lo, hi, 1) && Confined(m, w, o, o + size)
  {
    if lo == hi {
      assert w[o..o + size] == m[o..o + size];
    } else {
      var s, r := m[o..o + size], w[o..o + size];
      var want := ShiftDown(s, lo, hi, 1);
      forall i | 0 <= i < size ensures r[i] == want[i] {
        LemmaShiftAt(s, lo, hi, 1, i);
        assert r[i] == w[o + i] && s[i] == m[o + i];
      }
    }
  }

  lemma LemmaDeletedOne(m: seq<int>, w: seq<int>, o: int, size: int, lo: int, hi: int)
    requires 0 <= lo <= hi <= size && 0 <= o && o + size <= |m| == |w|
    requires forall i {:trigger w[i]} :: 0 <= i < |m| ==>
      w[i] == if o + lo <= i < o + hi - 1 then m[i + 1] else if i == o + hi - 1 && lo < hi then BLANK else m[i]
    ensures w[o..o + size] == ShiftUp(m[o..o + size], lo, hi, 1) && Confined(m, w, o, o + size)
  {
    if lo == hi {
      assert w[o..o + size] == m[o..o + size];
    } else {
      var s, r := m[o..o + size], w[o..o + size];
      var want := ShiftUp(s, lo, hi, 1);
      forall i | 0 <= i < size ensures r[i] == want[i] {
        LemmaShiftAt(s, lo, hi, 1, i);
        assert r[i] == w[o + i] && s[i] == m[o + i];
      }
    }
  }

  // w is m with the cells from lo to hi those d further on in m.
  ghost predicate CopiedIn(m: seq<int>, w: seq<int>, lo: int, hi: int, d: int) {
    |w| == |m| && forall i {:trigger w[i]} :: 0 <= i < |m| ==> w[i] == if lo <= i < hi && 0 <= i + d < |m| then m[i + d] else m[i]
  }

  // w is m with the cells from lo to hi moved on by one, and a blank at lo.
  ghost predicate Opened(m: seq<int>, w: seq<int>, lo: int, hi: int) {
    0 <= lo && |w| == |m| && forall k {:trigger w[k]} :: 0 <= k < |m| ==> w[k] == if lo < k < hi then m[k - 1] else if k == lo && lo < hi then BLANK else m[k]
  }

  lemma LemmaNoneOpened(m: seq<int>, lo: int)
    requires 0 <= lo
    ensures Opened(m, m, lo, lo)
  {
  }

  lemma LemmaOpenedMore(m: seq<int>, w: seq<int>, w': seq<int>, lo: int, hi: int, prev: int)
    requires Opened(m, w, lo, hi) && 0 <= lo <= hi < |w| && w' == w[hi := prev] && prev == if hi == lo then BLANK else m[hi - 1]
    ensures Opened(m, w', lo, hi + 1) && w[hi] == m[hi]
  {
  }

  lemma LemmaOpened(m: seq<int>, w: seq<int>, lo: int, hi: int)
    requires Opened(m, w, lo, hi) && 0 <= lo <= hi <= |m|
    ensures |w| == |m| && forall k {:trigger w[k]} :: 0 <= k < |m| ==>
      w[k] == if lo < k < hi then m[k - 1] else if k == lo && lo < hi then BLANK else m[k]
  {
  }

  lemma LemmaNoneCopied(m: seq<int>, lo: int, d: int)
    ensures CopiedIn(m, m, lo, lo, d)
  {
  }

  // Two more cells, e and e + 1, next to the ones from lo to hi, whose sources have not been written:
  // upwards (to is the end then) or downwards (to is the start).
  lemma LemmaCopiedMore(m: seq<int>, w: seq<int>, w': seq<int>, lo: int, hi: int, e: int, to: int, d: int)
    requires CopiedIn(m, w, lo, hi, d) && 0 <= e && e + 2 <= |w| && 0 <= e + d && e + d + 2 <= |w|
    requires w' == w[e := w[e + d]][e + 1 := w[e + 1 + d]]
    requires if to == e + 2 then lo <= hi == e && d >= 2 else to == e && e + 2 == lo <= hi && d <= -2
    ensures CopiedIn(m, w', if to == e + 2 then lo else e, if to == e + 2 then e + 2 else hi, d)
  {
    assert w[e + d] == m[e + d] && w[e + 1 + d] == m[e + 1 + d];
  }

  ghost predicate Filled(m: seq<int>, w: seq<int>, lo: int, hi: int) {
    |w| == |m| && forall i {:trigger w[i]} :: 0 <= i < |m| ==> w[i] == if lo <= i < hi then BLANK else m[i]
  }

  // Only cells that are visible in the end have changed.
  ghost predicate Confined(m: seq<int>, w: seq<int>, origin: int, scrEnd: int) {
    |w| == |m| && forall i {:trigger w[i]} :: 0 <= i < |m| && !(origin <= i < scrEnd) ==> w[i] == m[i]
  }

  lemma LemmaSame(m: seq<int>, origin: int, scrEnd: int)
    ensures Confined(m, m, origin, scrEnd)
  {
  }

  lemma LemmaConfinedTwice(m: seq<int>, m1: seq<int>, w: seq<int>, origin: int, scrEnd: int)
    requires Confined(m, m1, origin, scrEnd) && Confined(m1, w, origin, scrEnd)
    ensures Confined(m, w, origin, scrEnd)
  {
    forall i {:trigger w[i]} | 0 <= i < |m| && !(origin <= i < scrEnd)
      ensures w[i] == m[i]
    {
      assert m1[i] == m[i];
    }
  }

  // The cells of a scroll region: whole lines, an even number of cells.
  lemma LemmaRegionCells(t: Term, top: int, bottom: int)
    requires Good(t) && top == t.top && bottom == t.bottom
    ensures 0 <= top < bottom <= t.lines
    ensures 0 <= top * t.cols && t.cols * top == top * t.cols && t.cols * (top + 1) == top * t.cols + t.cols
    ensures t.cols * bottom == bottom * t.cols <= t.cols * t.lines && t.cols * (bottom - 1) == bottom * t.cols - t.cols
    ensures (bottom - top - 1) * t.cols == bottom * t.cols - top * t.cols - t.cols
    ensures (bottom - top - 1) * t.cols / 2 * 2 == (bottom - top - 1) * t.cols >= 0 && Fits(t.cols, t.lines)
    ensures |t.cells| == t.cols * t.lines
  {
    LemmaLine(t, bottom);
    LemmaRows(t.cols, top, bottom);
    hide Good;
    LemmaEvenCells(t.cols, top, bottom);
    LemmaProducts(t.cols, top, bottom);
  }

  lemma LemmaProducts(cols: int, top: int, bottom: int)
    ensures cols * top == top * cols && cols * (top + 1) == top * cols + cols
    ensures cols * bottom == bottom * cols && cols * (bottom - 1) == bottom * cols - cols
    ensures (bottom - top - 1) * cols == bottom * cols - top * cols - cols
  {
  }

  lemma LemmaEvenCells(cols: int, top: int, bottom: int)
    requires 0 <= cols && cols % 2 == 0 && top < bottom
    ensures (bottom - top - 1) * cols / 2 * 2 == (bottom - top - 1) * cols >= 0
  {
    var h, n := cols / 2, bottom - top - 1;
    assert n * cols == n * h * 2;
    assert n * h >= 0;
  }

  lemma LemmaScrolled(t: Term, u: Term)
    requires Good(t) && u == t.(cells := u.cells)
    ensures 0 <= t.top * t.cols <= t.bottom * t.cols <= |t.cells|
    ensures u.cells == ShiftUp(t.cells, t.top * t.cols, t.bottom * t.cols, t.cols) ==> u == Scrup(t, t.top, t.bottom, 1) && Good(u)
    ensures u.cells == ShiftDown(t.cells, t.top * t.cols, t.bottom * t.cols, t.cols) ==> u == Scrdown(t, t.top, t.bottom, 1) && Good(u)
  {
    LemmaRegionCells(t, t.top, t.bottom);
    assert 1 * t.cols == t.cols;
  }

  lemma LemmaUp(m: seq<int>, m1: seq<int>, w: seq<int>, o: int, o': int, size: int, lo: int, hi: int, n: int)
    requires 0 <= lo && 0 <= n && lo + n <= hi <= size && 0 <= o && o + size <= |m| && 0 <= o' && o' + size <= |m|
    requires o' == o || (lo == 0 && hi == size)
    requires CopiedIn(m, m1, o' + lo, o' + hi - n, o + n - o') && Filled(m1, w, o' + hi - n, o' + hi)
    ensures |w| == |m| && w[o'..o' + size] == ShiftUp(m[o..o + size], lo, hi, n) && Confined(m, w, o', o' + size)
  {
    hide ShiftUp;
    var s, r := m[o..o + size], w[o'..o' + size];
    var want := ShiftUp(s, lo, hi, n);
    forall i | 0 <= i < size ensures r[i] == want[i] {
      LemmaShiftAt(s, lo, hi, n, i);
      assert r[i] == w[o' + i] && (i < hi - n ==> m1[o' + i] == w[o' + i]);
    }
  }

  lemma LemmaUpMoved(m: seq<int>, w: seq<int>, o: int, size: int, n: int)
    requires 0 <= n <= size && 0 <= o && o + n + size <= |m| && Filled(m, w, o + size, o + n + size)
    ensures |w| == |m| && w[o + n..o + n + size] == ShiftUp(m[o..o + size], 0, size, n) && Confined(m, w, o + n, o + n + size)
  {
    hide ShiftUp;
    var s, r := m[o..o + size], w[o + n..o + n + size];
    var want := ShiftUp(s, 0, size, n);
    forall i | 0 <= i < size ensures r[i] == want[i] {
      LemmaShiftAt(s, 0, size, n, i);
      assert r[i] == w[o + n + i];
    }
  }

  lemma LemmaDown(m: seq<int>, m1: seq<int>, w: seq<int>, o: int, size: int, lo: int, hi: int, n: int)
    requires 0 <= lo && 0 <= n && lo + n <= hi <= size && 0 <= o && o + size <= |m|
    requires CopiedIn(m, m1, o + lo + n, o + hi, -n) && Filled(m1, w, o + lo, o + lo + n)
    ensures |w| == |m| && w[o..o + size] == ShiftDown(m[o..o + size], lo, hi, n) && Confined(m, w, o, o + size)
  {
    hide ShiftDown;
    var s, r := m[o..o + size], w[o..o + size];
    var want := ShiftDown(s, lo, hi, n);
    forall i | 0 <= i < size ensures r[i] == want[i] {
      LemmaShiftAt(s, lo, hi, n, i);
      assert r[i] == w[o + i] && s[i] == m[o + i] && (i >= lo + n ==> m1[o + i] == w[o + i]);
    }
  }
}

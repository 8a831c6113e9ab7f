/**
 The console, `kputchar` and `clr` of `sys/kprintf.c`: an 80x24 text screen with a
 shadow copy in memory, scrolled by copying rows out of the shadow.
 */
module Console {
  import opened Move

  const WIDTH := 80
  const HEIGHT := 24
  /** Bytes in a row and on the screen: two for each cell. */
  const ROW := 160
  const SCREEN := 3840
  /** Attribute byte of every cell: the high byte of BLACK. */
  const ATTR: Byte := 7
  const SPACE: Byte := 32
  const NL: Byte := 10

  // --------------------------------------------------------------- the log

  predicate Printable(c: Byte) {
    32 <= c < 128
  }

  predicate Accepted(c: Byte) {
    Printable(c) || c == NL
  }

  /** An unbounded log of rows of at most 80 characters; `cur` is the row being written. */
  datatype Log = Log(done: seq<seq<Byte>>, cur: seq<Byte>) {
    predicate Valid() {
      |cur| < WIDTH && forall i :: 0 <= i < |done| ==> |done[i]| <= WIDTH
    }

    function Put(c: Byte): Log {
      if c == NL || |cur| == WIDTH - 1 then Log(done + [if c == NL then cur else cur + [c]], []) else Log(done, cur + [c])
    }

    function Row(r: nat): seq<Byte> {
      if r < |done| then done[r] else if r == |done| then cur else []
    }

    /** The log row in the top row of the screen when the last 24 are shown. */
    function Top(): nat {
      if |done| < HEIGHT then 0 else |done| - (HEIGHT - 1)
    }
  }

  function Wrapped(s: seq<Byte>): (l: Log)
    ensures l.Valid()
  {
    if s == [] then Log([], []) else Wrapped(s[..|s| - 1]).Put(s[|s| - 1])
  }

  /** The text of finished rows: a full row was wrapped, any other ended in a newline. */
  function RowsText(rows: seq<seq<Byte>>): seq<Byte> {
    if rows == [] then []
    else
      var row := rows[|rows| - 1];
      RowsText(rows[..|rows| - 1]) + (if |row| == WIDTH then row else row + [NL])
  }

  /** Wrapping loses nothing: the log spells out the characters printed. */
  lemma {:induction false} WrappedSpells(s: seq<Byte>)
    requires forall i :: 0 <= i < |s| ==> Accepted(s[i])
    ensures LogText(Wrapped(s)) == s
  {
    if s != [] {
      var t, c := s[..|s| - 1], s[|s| - 1];
      WrappedSpells(t);
      PutSpells(Wrapped(t), c);
      assert s == t + [c];
    }
  }

  function LogText(l: Log): seq<Byte> {
    RowsText(l.done) + l.cur
  }

  lemma PutSpells(l: Log, c: Byte)
    requires l.Valid() && Accepted(c)
    ensures LogText(l.Put(c)) == LogText(l) + [c]
  {
    if c == NL || |l.cur| == WIDTH - 1 {
      RowsTextPush(l.done, if c == NL then l.cur else l.cur + [c]);
      assert RowsText(l.done) + (l.cur + [c]) + [] == RowsText(l.done) + l.cur + [c];
    } else {
      assert RowsText(l.done) + (l.cur + [c]) == RowsText(l.done) + l.cur + [c];
    }
  }

  lemma RowsTextPush(rows: seq<seq<Byte>>, row: seq<Byte>)
    ensures RowsText(rows + [row]) == RowsText(rows) + (if |row| == WIDTH then row else row + [NL])
  {
    assert (rows + [row])[..|rows|] == rows;
  }

  // ----------------------------------------------------------- the picture

  function CellChar(l: Log, r: nat, i: nat): Byte {
    if i < |l.Row(r)| then l.Row(r)[i] else SPACE
  }

  /** The screen bytes that show log rows `top` to `top + 23`. */
  function Picture(l: Log, top: nat): (p: seq<Byte>)
    ensures |p| == SCREEN
  {
    seq(SCREEN, k requires 0 <= k < SCREEN => PicByte(l, top, k))
  }

  function PicByte(l: Log, top: nat, k: nat): Byte {
    if k % 2 == 1 then ATTR else CellChar(l, top + k / ROW, (k % ROW) / 2)
  }

  function Blanks(n: nat): (p: seq<Byte>)
    ensures |p| == n
  {
    seq(n, k => if k % 2 == 1 then ATTR else SPACE)
  }

  /** Column `x` of screen row `y` shows that column of the last 24 rows of the log, counted from the first of them. */
  lemma PictureShows(l: Log, x: nat, y: nat)
    requires x < 80 && y < 24
    ensures var rows := l.done + [l.cur];
            var r := if |rows| <= 24 then y else |rows| - 24 + y;
            var p := Picture(l, l.Top());
            p[2 * (x + 80 * y)] == (if r < |rows| && x < |rows[r]| then rows[r][x] else 32) && p[2 * (x + 80 * y) + 1] == 7
  {
    var k := 2 * (x + 80 * y);
    CellAt(x, y, k);
  }

  lemma CellAt(x: nat, y: nat, k: nat)
    requires x < WIDTH && y < HEIGHT && k < SCREEN && k % 2 == 0
    ensures k / ROW == y && (k % ROW) / 2 == x <==> k == 2 * (x + y * WIDTH)
  {
  }

  /** Printing a character changes one byte of the picture. */
  lemma PicturePut(l: Log, top: nat, x: nat, y: nat, c: Byte)
    requires l.Valid() && x == |l.cur| && top + y == |l.done| && y < HEIGHT
    ensures 2 * (x + y * WIDTH) < SCREEN
    ensures Picture(Log(l.done, l.cur + [c]), top) == Picture(l, top)[2 * (x + y * WIDTH) := c]
    ensures Picture(l, top)[2 * (x + y * WIDTH) + 1] == ATTR
  {
    var at := 2 * (x + y * WIDTH);
    var p, p' := Picture(l, top)[at := c], Picture(Log(l.done, l.cur + [c]), top);
    forall k | 0 <= k < SCREEN ensures p[k] == p'[k] {
      if k % 2 == 0 {
        CellAt(x, y, k);
      }
    }
  }

  /** Starting a new row changes nothing on the screen. */
  lemma PictureNewRow(l: Log, top: nat)
    ensures Picture(Log(l.done + [l.cur], []), top) == Picture(l, top)
  {
    var l' := Log(l.done + [l.cur], []);
    forall k | 0 <= k < SCREEN ensures PicByte(l', top, k) == PicByte(l, top, k) {
    }
  }

  /** Scrolling: one row up, and a blank row comes in. */
  lemma PictureScroll(l: Log, top: nat)
    requires |l.done| == top + HEIGHT && l.cur == []
    ensures Picture(l, top + 1) == Picture(l, top)[ROW..] + Blanks(ROW)
  {
    forall k | 0 <= k < SCREEN ensures Picture(l, top + 1)[k] == (Picture(l, top)[ROW..] + Blanks(ROW))[k] {
      if k < SCREEN - ROW {
        assert (k + ROW) / ROW == k / ROW + 1 && (k + ROW) % ROW == k % ROW;
      }
    }
  }

  // ------------------------------------------------------------ the console

  /** Memory after `n` blank cells are stored from `at` on. */
  function Wiped(m: seq<Byte>, at: nat, n: nat): seq<Byte>
    requires at + 2 * n <= |m|
  {
    m[..at] + Blanks(2 * n) + m[at + 2 * n..]
  }

  /** memsetw with the blank cell */
  method Memsetw(mem: array<Byte>, at: nat, n: nat)
    requires at + 2 * n <= mem.Length
    modifies mem
    ensures mem[..] == Wiped(old(mem[..]), at, n)
  {
    var i := 0;
    ghost var m := mem[..];
    while i < n
      invariant 0 <= i <= n
      invariant mem[..] == Wiped(m, at, i)
    {
      WipedOne(m, at, i);
      mem[at + 2 * i], mem[at + 2 * i + 1] := SPACE, ATTR;
      i := i + 1;
    }
  }

  lemma WipedOne(m: seq<Byte>, at: nat, i: nat)
    requires at + 2 * i + 2 <= |m|
    ensures Wiped(m, at, i)[at + 2 * i := SPACE][at + 2 * i + 1 := ATTR] == Wiped(m, at, i + 1)
  {
  }

  /** The two copies and the fill that scroll video memory. */
  lemma ScrollVideo(p: seq<Byte>)
    requires |p| == SCREEN
    ensures Wiped(Moved(p + p, SCREEN + ROW, 0, SCREEN - ROW), SCREEN - ROW, WIDTH) == p[ROW..] + Blanks(ROW) + p
  {
  }

  /** The two copies and the fill that scroll the shadow in place. */
  lemma ScrollShadow(v: seq<Byte>, p: seq<Byte>)
    requires |p| == SCREEN && |v| == SCREEN
    ensures Wiped(Moved(v + p, SCREEN + ROW, SCREEN, SCREEN - ROW), 2 * SCREEN - ROW, WIDTH) == v + (p[ROW..] + Blanks(ROW))
  {
    var m := Moved(v + p, SCREEN + ROW, SCREEN, SCREEN - ROW);
    forall k | SCREEN <= k < 2 * SCREEN - ROW ensures m[k] == p[k - SCREEN + ROW] {
    }
  }

  class Screen {
    var x: int
    var y: int
    /** Video memory, and the shadow `arr` behind it. */
    const mem: array<Byte>

    ghost var log: Log

    ghost predicate Valid()
      reads this, mem
    {
      && log.Valid()
      && x == |log.cur| && y == |log.done| - log.Top()
      && mem.Length == 2 * SCREEN
      && mem[..] == Picture(log, log.Top()) + Picture(log, log.Top())
    }

    constructor ()
      ensures mem.Length == 2 * SCREEN && fresh(mem)
    {
      mem := new Byte[2 * SCREEN](i => 0);
      x, y := 0, 0;
      log := Log([], []);
    }

    /** clr */
    method Clr()
      requires mem.Length == 2 * SCREEN
      modifies this, mem
      ensures Valid() && log == Log([], [])
    {
      var i := 0;
      while i < HEIGHT
        invariant 0 <= i <= HEIGHT
        invariant mem[..i * ROW] == Blanks(i * ROW) && mem[SCREEN..SCREEN + i * ROW] == Blanks(i * ROW)
      {
        ghost var m := mem[..];
        Memsetw(mem, i * ROW, WIDTH);
        Memsetw(mem, SCREEN + i * ROW, WIDTH);
        BlankRow(m, mem[..], i);
        i := i + 1;
      }
      x, y := 0, 0;
      log := Log([], []);
      assert Picture(log, 0) == Blanks(SCREEN);
      assert mem[..] == mem[..SCREEN] + mem[SCREEN..2 * SCREEN];
    }

    /** Scrolling at the bottom: the shadow's rows, one up, to the screen and to the shadow. */
    method Scroll(ghost p: seq<Byte>)
      requires |p| == SCREEN && mem.Length == 2 * SCREEN && mem[..] == p + p
      modifies mem
      ensures mem[..] == (p[ROW..] + Blanks(ROW)) + (p[ROW..] + Blanks(ROW))
    {
      Memmove(mem, SCREEN + ROW, 0, SCREEN - ROW);
      Memsetw(mem, SCREEN - ROW, WIDTH);
      ScrollVideo(p);
      Memmove(mem, SCREEN + ROW, SCREEN, SCREEN - ROW);
      Memsetw(mem, 2 * SCREEN - ROW, WIDTH);
      ScrollShadow(p[ROW..] + Blanks(ROW), p);
    }

    /** The screen and the shadow show the log from row `top` on, and the cursor is at its end. */
    ghost predicate Showing(top: nat)
      reads this, mem
    {
      && |log.cur| <= WIDTH && (forall i :: 0 <= i < |log.done| ==> |log.done[i]| <= WIDTH)
      && x == |log.cur| && top + y == |log.done|
      && mem.Length == 2 * SCREEN && mem[..] == Picture(log, top) + Picture(log, top)
    }

    /** Stores a character at the cursor, in video memory and in the shadow. */
    method Write(c: Byte, ghost top: nat)
      requires Showing(top) && x < WIDTH && 0 <= y < HEIGHT
      modifies this, mem
      ensures Showing(top) && y == old(y) && log == Log(old(log).done, old(log).cur + [c])
    {
      PicturePut(log, top, x, y, c);
      var at := 2 * (x + y * WIDTH);
      PutBoth(Picture(log, top), at, c);
      mem[at] := c;
      mem[SCREEN + at], mem[SCREEN + at + 1] := c, ATTR;
      log := Log(log.done, log.cur + [c]);
      x := x + 1;
    }

    /** Start of the next line. */
    method NewRow(ghost top: nat)
      requires Showing(top)
      modifies this
      ensures Showing(top) && y == old(y) + 1 && log == Log(old(log).done + [old(log).cur], [])
    {
      PictureNewRow(log, top);
      log := Log(log.done + [log.cur], []);
      x := 0;
      y := y + 1;
    }

    /** kputchar of a printable character or a newline */
    method PutChar(c: Byte)
      requires Valid() && Accepted(c)
      modifies this, mem
      ensures Valid() && log == old(log).Put(c)
    {
      ghost var top := log.Top();
      if c == NL {
        NewRow(top);
      } else {
        Write(c, top);
      }
      if x >= WIDTH {
        NewRow(top);
      }
      ScrollAtBottom(top);
    }

    /** The last step of kputchar: below the last row, everything moves up. */
    method ScrollAtBottom(ghost top: nat)
      requires Showing(top) && 0 <= y <= HEIGHT && (y == HEIGHT ==> log.cur == [])
      modifies this, mem
      ensures log == old(log) && Showing(if old(y) == HEIGHT then top + 1 else top)
      ensures y == if old(y) == HEIGHT then HEIGHT - 1 else old(y)
    {
      if y >= HEIGHT {
        Scroll(Picture(log, top));
        PictureScroll(log, top);
        y := HEIGHT - 1;
        x := 0;
      }
    }
  }

  lemma BlankRow(m: seq<Byte>, m': seq<Byte>, i: nat)
    requires |m| == 2 * SCREEN && i < HEIGHT && m' == Wiped(Wiped(m, i * ROW, WIDTH), SCREEN + i * ROW, WIDTH)
    requires m[..i * ROW] == Blanks(i * ROW) && m[SCREEN..SCREEN + i * ROW] == Blanks(i * ROW)
    ensures m'[..(i + 1) * ROW] == Blanks((i + 1) * ROW)
    ensures m'[SCREEN..SCREEN + (i + 1) * ROW] == Blanks((i + 1) * ROW)
  {
    var b := Blanks((i + 1) * ROW);
    forall k | 0 <= k < (i + 1) * ROW ensures m'[k] == b[k] && m'[SCREEN + k] == b[k] {
      if k < i * ROW {
        assert m'[k] == m[..i * ROW][k] && m'[SCREEN + k] == m[SCREEN..SCREEN + i * ROW][k];
      } else {
        assert m'[k] == m'[SCREEN + k] == Blanks(ROW)[k - i * ROW];
        assert (k - i * ROW) % 2 == k % 2;
      }
    }
    assert m'[..(i + 1) * ROW] == b;
    assert m'[SCREEN..SCREEN + (i + 1) * ROW] == b;
  }

  lemma PutBoth(p: seq<Byte>, at: nat, c: Byte)
    requires |p| == SCREEN && at + 1 < SCREEN && p[at + 1] == ATTR
    ensures (p + p)[at := c][SCREEN + at := c][SCREEN + at + 1 := ATTR] == p[at := c] + p[at := c]
  {
  }

  /** After clr and any printable text, both copies show the last 24 rows of the wrapped log, and the cursor is in its last row. */
  method Show(s: seq<Byte>) returns (t: Screen)
    requires forall i :: 0 <= i < |s| ==> Accepted(s[i])
    ensures t.Valid() && t.log == Wrapped(s)
    ensures 0 <= t.x < WIDTH && 0 <= t.y < HEIGHT
    ensures t.mem.Length == 2 * SCREEN && t.mem[..SCREEN] == t.mem[SCREEN..] == Picture(Wrapped(s), Wrapped(s).Top())
  {
    t := new Screen();
    t.Clr();
    var i := 0;
    while i < |s|
      invariant fresh(t) && fresh(t.mem)
      invariant 0 <= i <= |s| && t.Valid() && t.log == Wrapped(s[..i])
    {
      assert s[..i + 1][..i] == s[..i];
      t.PutChar(s[i]);
      i := i + 1;
    }
    assert s[..i] == s;
  }
}

/**
 The terminal's line discipline, `sys/kprintf.c`: a 256-byte ring that the
 keyboard fills and edits with backspace, and that read empties line by line.
 */
module Terminal {
  const TERMBUF_SIZE := 256

  type Ascii = c: int | 0 <= c < 128

  const EOT: Ascii := 4
  const BS: Ascii := 8
  const TAB: Ascii := 9
  const NL: Ascii := 10
  const SP: Ascii := 32

  /** Spaces a tab is typed as. */
  const TAB_SIZE: nat := 4

  predicate IsDelim(c: Ascii) {
    c == EOT || c == NL
  }

  // ------------------------------------------------------- the edited text

  function Last(t: seq<Ascii>): Ascii
    requires t != []
  {
    t[|t| - 1]
  }

  function Front(t: seq<Ascii>): seq<Ascii>
    requires t != []
  {
    t[..|t| - 1]
  }

  /** What a text editor would hold after these keys: backspace takes back a character of the unfinished line. */
  function Edited(keys: seq<Ascii>): seq<Ascii> {
    if keys == [] then []
    else
      var t := Edited(Front(keys));
      if Last(keys) != BS then t + [Last(keys)]
      else if t == [] || IsDelim(Last(t)) then t
      else Front(t)
  }

  /** Number of delimiters. */
  function Delims(t: seq<Ascii>): (n: nat)
    ensures n <= |t|
  {
    if t == [] then 0 else Delims(Front(t)) + (if IsDelim(Last(t)) then 1 else 0)
  }

  /** Length of the line after the last delimiter. */
  function Unfinished(t: seq<Ascii>): (n: nat)
    ensures n <= |t|
  {
    if t == [] || IsDelim(Last(t)) then 0 else 1 + Unfinished(Front(t))
  }

  /** Length of the first line with its delimiter, or of the whole text if it has none. */
  function LineLen(t: seq<Ascii>): (n: nat)
    ensures n <= |t|
    ensures forall i :: 0 <= i < n - 1 ==> !IsDelim(t[i])
    ensures n < |t| ==> n > 0 && IsDelim(t[n - 1])
  {
    if t == [] then 0 else if IsDelim(t[0]) then 1 else 1 + LineLen(t[1..])
  }

  lemma {:induction false} DelimsSplit(s: seq<Ascii>, t: seq<Ascii>)
    ensures Delims(s + t) == Delims(s) + Delims(t)
  {
    if t == [] {
      assert s + t == s;
    } else {
      assert Front(s + t) == s + Front(t);
      DelimsSplit(s, Front(t));
    }
  }

  lemma {:induction false} UnfinishedSplit(s: seq<Ascii>, t: seq<Ascii>)
    ensures Unfinished(s + t) == if Delims(t) > 0 then Unfinished(t) else |t| + Unfinished(s)
  {
    if t == [] {
      assert s + t == s;
    } else {
      assert Front(s + t) == s + Front(t);
      UnfinishedSplit(s, Front(t));
    }
  }

  /** The unfinished line is all there is before the first delimiter comes. */
  lemma {:induction false} UnfinishedAll(t: seq<Ascii>)
    ensures Delims(t) == 0 ==> Unfinished(t) == |t|
    ensures Delims(t) == |t| ==> Unfinished(t) == 0
  {
    if t != [] {
      UnfinishedAll(Front(t));
    }
  }

  /** Editing keeps every delimiter typed. */
  lemma {:induction false} EditedKeepsDelims(keys: seq<Ascii>)
    ensures Delims(Edited(keys)) == Delims(keys)
  {
    if keys != [] {
      EditedKeepsDelims(Front(keys));
      var t := Edited(Front(keys));
      if Last(keys) != BS {
        assert Front(t + [Last(keys)]) == t;
      }
    }
  }

  /** The finished lines of a text. */
  function Finished(t: seq<Ascii>): seq<Ascii> {
    t[..|t| - Unfinished(t)]
  }

  /** Finished lines are never edited again. */
  lemma {:induction false} FinishedStays(keys: seq<Ascii>, more: seq<Ascii>)
    ensures Finished(Edited(keys)) <= Finished(Edited(keys + more))
    decreases |more|
  {
    if more == [] {
      assert keys + more == keys;
    } else {
      FinishedStays(keys, Front(more));
      assert Front(keys + more) == keys + Front(more);
      var t := Edited(keys + Front(more));
      if Last(more) != BS {
        assert Front(t + [Last(more)]) == t;
      }
    }
  }

  lemma DelimsPush(t: seq<Ascii>, c: Ascii)
    ensures Delims(t + [c]) == Delims(t) + (if IsDelim(c) then 1 else 0)
    ensures Unfinished(t + [c]) == if IsDelim(c) then 0 else Unfinished(t) + 1
  {
    assert Front(t + [c]) == t;
  }

  lemma DelimsPop(t: seq<Ascii>)
    requires t != []
    ensures Delims(t) == (if IsDelim(t[0]) then 1 else 0) + Delims(t[1..])
  {
    assert t == [t[0]] + t[1..];
    DelimsSplit([t[0]], t[1..]);
    DelimsPush([], t[0]);
    assert [] + [t[0]] == [t[0]];
  }

  /** A text with a delimiter has a first line that ends in one. */
  lemma {:induction false} LineEnds(t: seq<Ascii>)
    requires Delims(t) > 0
    ensures LineLen(t) > 0 && IsDelim(t[LineLen(t) - 1])
  {
    DelimsPop(t);
    if !IsDelim(t[0]) {
      LineEnds(t[1..]);
    }
  }

  function Spaces(n: nat): (t: seq<Ascii>)
    ensures |t| == n
  {
    if n == 0 then [] else Spaces(n - 1) + [SP]
  }

  /** What a key adds to the keys of an editor without tabs: a tab is four spaces. */
  function KeyText(c: Ascii): seq<Ascii> {
    if c == TAB then [SP, SP, SP, SP] else [c]
  }

  lemma TabText()
    ensures Spaces(TAB_SIZE) == [SP, SP, SP, SP]
  {
    assert Spaces(1) == [SP];
    assert Spaces(2) == [SP, SP];
    assert Spaces(3) == [SP, SP, SP];
  }

  /** The unfinished line is what comes after the last newline or end-of-transmission. */
  lemma {:induction false} UnfinishedExact(t: seq<Ascii>)
    ensures var n := Unfinished(t);
            && (forall i :: |t| - n <= i < |t| ==> t[i] != 4 && t[i] != 10)
            && (n < |t| ==> t[|t| - n - 1] == 4 || t[|t| - n - 1] == 10)
  {
    if t != [] && !IsDelim(Last(t)) {
      UnfinishedExact(Front(t));
    }
  }

  /** The positions of the delimiters. */
  ghost function DelimsAt(t: seq<Ascii>): set<int> {
    set i | 0 <= i < |t| && (t[i] == 4 || t[i] == 10)
  }

  lemma {:induction false} DelimsExact(t: seq<Ascii>)
    ensures Delims(t) == |DelimsAt(t)|
  {
    if t != [] {
      DelimsExact(Front(t));
      var n := |t| - 1;
      assert DelimsAt(t) == DelimsAt(Front(t)) + if IsDelim(t[n]) then {n} else {};
    } else {
      assert DelimsAt(t) == {};
    }
  }

  // ---------------------------------------------------------------- the ring

  /** Position `i` steps after `start` in the ring. */
  function Pos(start: nat, i: nat): nat {
    if start + i < TERMBUF_SIZE then start + i else start + i - TERMBUF_SIZE
  }

  lemma Wraps(x: nat)
    requires x < 2 * TERMBUF_SIZE
    ensures x % TERMBUF_SIZE == Pos(x, 0)
  {
  }

  /** The ring `b` holds `w` from position `start` on, and `end` is the position after it. */
  ghost predicate Holds(b: seq<Ascii>, start: int, end: int, full: bool, w: seq<Ascii>) {
    && |b| == TERMBUF_SIZE && |w| <= TERMBUF_SIZE && 0 <= start < TERMBUF_SIZE
    && end == Pos(start, |w|) && (full <==> |w| == TERMBUF_SIZE)
    && (forall i :: 0 <= i < |w| ==> b[Pos(start, i)] == w[i])
  }

  lemma HoldsEmpty(b: seq<Ascii>, start: int, end: int, full: bool, w: seq<Ascii>)
    requires Holds(b, start, end, full, w)
    ensures start == end && !full <==> w == []
    ensures w != [] ==> b[start] == w[0]
  {
    assert w != [] ==> Pos(start, 0) == start;
  }

  lemma HoldsPop(b: seq<Ascii>, start: int, end: int, full: bool, w: seq<Ascii>)
    requires Holds(b, start, end, full, w) && w != []
    ensures Holds(b, (start + 1) % TERMBUF_SIZE, end, false, w[1..])
  {
    Wraps(start + 1);
    forall i | 0 <= i < |w| - 1 ensures b[Pos(Pos(start, 1), i)] == w[1..][i] {
      assert Pos(Pos(start, 1), i) == Pos(start, i + 1);
    }
  }

  lemma HoldsPush(b: seq<Ascii>, start: int, end: int, w: seq<Ascii>, c: Ascii)
    requires Holds(b, start, end, false, w)
    ensures end < |b| && Holds(b[end := c], start, (end + 1) % TERMBUF_SIZE, start == (end + 1) % TERMBUF_SIZE, w + [c])
  {
    Wraps(end + 1);
  }

  lemma HoldsPopLast(b: seq<Ascii>, start: int, end: int, full: bool, w: seq<Ascii>)
    requires Holds(b, start, end, full, w) && w != []
    ensures Holds(b, start, (end + TERMBUF_SIZE - 1) % TERMBUF_SIZE, false, Front(w))
  {
    Wraps(end + TERMBUF_SIZE - 1);
  }

  /** The delimiters of `w` in an 8-bit counter. */
  ghost predicate Counts(count: int, w: seq<Ascii>) {
    count == Delims(w) % 256
  }

  lemma CountsPop(count: int, w: seq<Ascii>)
    requires Counts(count, w) && w != []
    ensures Counts(if IsDelim(w[0]) then (count + 255) % 256 else count, w[1..])
  {
    DelimsPop(w);
  }

  lemma CountsPush(count: int, w: seq<Ascii>, c: Ascii)
    requires Counts(count, w)
    ensures Counts(if IsDelim(c) then (count + 1) % 256 else count, w + [c])
  {
    DelimsPush(w, c);
  }

  lemma TakeOne(d: seq<Ascii>, t: seq<Ascii>, n: nat)
    requires n < |t|
    ensures t[..n] + [t[n]] == t[..n + 1] && t[n..][1..] == t[n + 1..]
    ensures d + t[..n] + [t[n]] == d + t[..n + 1]
  {
    assert t[..n] + [t[n]] == t[..n + 1];
    assert d + t[..n] + [t[n]] == d + (t[..n] + [t[n]]);
  }

  /** Taking part of the first line, or all of it, leaves the unfinished line in the window. */
  lemma TakenLine(w: seq<Ascii>, n: nat)
    requires Delims(w) > 0 && 0 < n <= LineLen(w)
    ensures Unfinished(w[n..]) == Unfinished(w)
    ensures IsDelim(w[n - 1]) || Delims(w[n..]) > 0
  {
    LineEnds(w);
    assert w == w[..n] + w[n..];
    DelimsSplit(w[..n], w[n..]);
    UnfinishedSplit(w[..n], w[n..]);
    assert Front(w[..n]) == w[..n - 1];
    NoDelims(w[..n - 1]);
    UnfinishedAll(w[n..]);
  }

  lemma Taken(d: seq<Ascii>, w: seq<Ascii>, n: nat)
    requires Delims(w) > 0 && 0 < n <= LineLen(w)
    ensures d + w[..n] + w[n..] == d + w
    ensures Unfinished(w[n..]) == Unfinished(w)
    ensures Unfinished(d + w[..n]) > 0 ==> Delims(w[n..]) > 0
  {
    TakenLine(w, n);
    assert w == w[..n] + w[n..];
  }

  /** Nothing before the last byte ends a line, and that one does, if the room did not run out. */
  ghost predicate OneLine(out: seq<Ascii>, size: nat) {
    && (forall i :: 0 <= i < |out| - 1 ==> out[i] != 4 && out[i] != 10)
    && (|out| == size + 1 || (out != [] && (out[|out| - 1] == 4 || out[|out| - 1] == 10)))
  }

  lemma TakenEnds(w: seq<Ascii>, size: nat, n: nat, out: seq<Ascii>)
    requires Delims(w) > 0 && n == (if size < LineLen(w) then size + 1 else LineLen(w)) && out == w[..n]
    ensures OneLine(out, size)
  {
    LineEnds(w);
  }

  lemma {:induction false} NoDelims(t: seq<Ascii>)
    requires forall i :: 0 <= i < |t| ==> !IsDelim(t[i])
    ensures Delims(t) == 0
  {
    if t != [] {
      NoDelims(Front(t));
    }
  }

  class TermBuf {
    var start: int
    var end: int
    var full: bool
    var count: int
    var backspace: int
    const buf: array<Ascii>

    ghost var window: seq<Ascii>
    ghost var delivered: seq<Ascii>
    ghost var accepted: seq<Ascii>

    /** The ring holds `window`, and the 8-bit `count` its delimiters modulo 256. */
    ghost predicate Ring()
      reads this, buf
    {
      Holds(buf[..], start, end, full, window) && Counts(count, window)
    }

    /** The bytes delivered and the window make up the edited text, and `backspace` is its unfinished line. */
    ghost predicate Valid()
      reads this, buf
    {
      && Ring()
      && delivered + window == Edited(accepted)
      && backspace == Unfinished(window)
      && (Unfinished(delivered) > 0 ==> Delims(window) > 0)
    }

    constructor ()
      ensures Valid() && delivered == [] && window == [] && accepted == [] && fresh(buf)
    {
      start, end, full, count, backspace := 0, 0, false, 0, 0;
      buf := new Ascii[TERMBUF_SIZE](i => 0);
      window, delivered, accepted := [], [], [];
    }

    /** What backspace may take is the unfinished line of the whole text. */
    lemma BackspaceIsLine()
      requires Valid()
      ensures backspace == Unfinished(Edited(accepted))
    {
      UnfinishedSplit(delivered, window);
      UnfinishedAll(window);
    }

    /** term_pop */
    method Pop() returns (c: int)
      requires Ring()
      modifies this
      ensures Ring() && accepted == old(accepted) && backspace == old(backspace)
      ensures old(window) == [] ==> c == -1 && window == [] && delivered == old(delivered)
      ensures old(window) != [] ==> c == old(window)[0] && window == old(window)[1..] && delivered == old(delivered) + [c]
    {
      HoldsEmpty(buf[..], start, end, full, window);
      if start == end && !full {
        return -1;
      }
      c := buf[start];
      AdvanceStart();
      CountDown(c);
      delivered, window := delivered + [c], window[1..];
    }

    /** Moves the start to the next position, which leaves room. */
    method AdvanceStart()
      requires Holds(buf[..], start, end, full, window) && window != []
      modifies this`start, this`full
      ensures Holds(buf[..], start, end, full, window[1..])
    {
      HoldsPop(buf[..], start, end, full, window);
      start := (start + 1) % TERMBUF_SIZE;
      full := false;
    }

    /** Counts a delimiter that was popped. */
    method CountDown(c: Ascii)
      requires Counts(count, window) && window != [] && c == window[0]
      modifies this`count
      ensures Counts(count, window[1..])
    {
      CountsPop(count, window);
      if c == EOT || c == NL {
        count := (count + 255) % 256;
      }
    }

    /** `n` bytes of the window `text` have been taken and stored in `out`. */
    ghost predicate Taking(before: seq<Ascii>, text: seq<Ascii>, n: nat, out: seq<Ascii>)
      reads this, buf
    {
      Ring() && n <= |text| && out == text[..n] && window == text[n..] && delivered == before + text[..n]
    }

    /** One round of term_read's loop. */
    method TakeByte(ghost before: seq<Ascii>, ghost text: seq<Ascii>, n: nat, out: seq<Ascii>) returns (c: int, out': seq<Ascii>)
      requires Taking(before, text, n, out) && n < |text|
      modifies this
      ensures c == text[n] && Taking(before, text, n + 1, out') && accepted == old(accepted) && backspace == old(backspace)
    {
      TakeOne(before, text, n);
      c := Pop();
      out' := out + [c];
    }

    /** The loop of term_read, entered only with a delimiter in the buffer: it runs while count <= size. */
    method TakeLine(size: nat) returns (n: nat, out: seq<Ascii>)
      requires Ring() && Delims(window) > 0
      modifies this
      ensures Ring() && accepted == old(accepted) && backspace == old(backspace)
      ensures n == if size < LineLen(old(window)) then size + 1 else LineLen(old(window))
      ensures out == old(window)[..n] && delivered == old(delivered) + old(window)[..n] && window == old(window)[n..]
    {
      ghost var text, before := window, delivered;
      LineEnds(text);
      ghost var len := LineLen(text);
      n, out := 0, [];
      assert before + text[..0] == before;
      while n <= size
        invariant 0 <= n <= size + 1 && n < len && Taking(before, text, n, out)
        invariant accepted == old(accepted) && backspace == old(backspace)
      {
        var c;
        c, out := TakeByte(before, text, n, out);
        if c < 0 {
          break;
        }
        n := n + 1;
        if c == EOT || c == NL {
          break;
        }
      }
    }

    /** term_read; `out` is what it stores from the start of the caller's buffer on. */
    method Read(size: nat) returns (n: int, out: seq<Ascii>)
      requires Valid()
      modifies this
      ensures Valid() && accepted == old(accepted)
      ensures |out| <= |old(window)| && out == old(window)[..|out|]
      ensures delivered == old(delivered) + out && window == old(window)[|out|..]
      ensures n == -1 <==> size > 0 && (Delims(old(window)) == 0 || Delims(old(window)) == 256)
      ensures n >= -1 && (n == -1 ==> out == [])
      ensures size == 0 ==> n == 0 && out == []
      ensures size > 0 && n >= 0 ==> n == |out| == if size < LineLen(old(window)) then size + 1 else LineLen(old(window))
      ensures n > 0 ==> OneLine(out, size)
    {
      if size == 0 {
        return 0, [];
      }
      if count == 0 {
        return -1, [];
      }
      n, out := TakeLine(size);
      TakenEnds(old(window), size, n, out);
      Taken(old(delivered), old(window), n);
    }

    /** term_push, which does not look whether there is room. */
    method Store(a: Ascii)
      requires buf.Length == TERMBUF_SIZE && 0 <= end < TERMBUF_SIZE
      modifies this`end, this`full, this`count, this`backspace, buf
      ensures buf[..] == old(buf[..])[old(end) := a] && end == (old(end) + 1) % TERMBUF_SIZE
      ensures full == (old(full) || start == end)
      ensures count == if IsDelim(a) then (old(count) + 1) % 256 else old(count)
      ensures backspace == if IsDelim(a) then 0 else old(backspace)
    {
      buf[end] := a;
      end := (end + 1) % TERMBUF_SIZE;
      if start == end {
        full := true;
      }
      if a == NL || a == EOT {
        count := (count + 1) % 256;
        backspace := 0;
      }
    }

    /** term_push with room. */
    method Push(a: Ascii)
      requires Ring() && |window| < TERMBUF_SIZE
      modifies this, buf
      ensures Ring() && window == old(window) + [a] && delivered == old(delivered) && accepted == old(accepted)
      ensures backspace == if IsDelim(a) then 0 else old(backspace)
    {
      HoldsPush(buf[..], start, end, window, a);
      CountsPush(count, window, a);
      Store(a);
      window := window + [a];
    }

    /** Marked full, with `n` spaces beyond: all that was in the ring will be skipped. */
    ghost predicate Overrun(n: nat)
      reads this, buf
    {
      full && Holds(buf[..], start, end, false, Spaces(n))
    }

    /** One space of a tab. */
    method PushSpace(ghost w: seq<Ascii>, ghost n: nat)
      requires Tabbing(buf[..], start, end, full, count, w, n) && |w| < TERMBUF_SIZE && n < TAB_SIZE
      modifies this`end, this`full, this`count, this`backspace, buf
      ensures Tabbing(buf[..], start, end, full, count, w, n + 1) && backspace == old(backspace)
    {
      SpacePushed(buf[..], start, end, full, count, w, n);
      Store(SP);
    }

    /** The four spaces of a tab, whether they fit or not. */
    method PushTab(ghost w: seq<Ascii>)
      requires Tabbing(buf[..], start, end, full, count, w, 0) && |w| < TERMBUF_SIZE
      modifies this`end, this`full, this`count, this`backspace, buf
      ensures Tabbing(buf[..], start, end, full, count, w, TAB_SIZE) && backspace == old(backspace) + TAB_SIZE
    {
      var n := 0;
      while n < TAB_SIZE
        invariant 0 <= n <= TAB_SIZE && Tabbing(buf[..], start, end, full, count, w, n) && backspace == old(backspace)
      {
        PushSpace(w, n);
        n := n + 1;
      }
      backspace := backspace + TAB_SIZE;
    }

    method PutTab()
      requires Valid() && |window| < TERMBUF_SIZE
      modifies this, buf
      ensures delivered == old(delivered)
      ensures if |old(window)| + TAB_SIZE <= TERMBUF_SIZE
              then Valid() && accepted == old(accepted) + KeyText(TAB) && window == old(window) + [32, 32, 32, 32]
              else Overrun(|old(window)| + TAB_SIZE - TERMBUF_SIZE)
    {
      TabTyped(delivered, window, accepted);
      assert window + Spaces(0) == window;
      PushTab(window);
      accepted, window := accepted + KeyText(TAB), window + [32, 32, 32, 32];
    }

    /** term_poplast, which does not look at what it removes. */
    method PopLast()
      requires Ring() && window != [] && !IsDelim(Last(window))
      modifies this
      ensures Ring() && window == Front(old(window)) && delivered == old(delivered) && accepted == old(accepted)
      ensures backspace == old(backspace)
    {
      HoldsPopLast(buf[..], start, end, full, window);
      end := (end + TERMBUF_SIZE - 1) % TERMBUF_SIZE;
      full := false;
      window := Front(window);
    }

    /** How many bytes the ring holds. */
    method Size() returns (n: nat)
      requires Ring()
      ensures n == |window|
    {
      n := if full then TERMBUF_SIZE else (end + TERMBUF_SIZE - start) % TERMBUF_SIZE;
    }

    /**
     term_putchar; 0 if the key took effect, -1 if it was refused. A tab that has
     room for one to three of its spaces only spoils the ring: everything that
     was in it is lost, but for the spaces beyond.
     */
    method PutChar(a: Ascii) returns (r: int)
      requires Valid()
      modifies this, buf
      ensures delivered == old(delivered) && (r == 0 || r == -1)
      ensures r == -1 <==> if a == BS then Unfinished(old(window)) == 0 else |old(window)| == TERMBUF_SIZE
      ensures r == -1 ==> Valid() && accepted == old(accepted) && window == old(window)
      ensures r == 0 && !SpoilsRing(old(window), a) ==>
                && Valid() && accepted == old(accepted) + KeyText(a)
                && window == (if a == BS then old(window)[..|old(window)| - 1] else if a == TAB then old(window) + [32, 32, 32, 32] else old(window) + [a])
      ensures SpoilsRing(old(window), a) ==> r == 0 && Overrun(|old(window)| + TAB_SIZE - TERMBUF_SIZE)
      ensures Delims(old(window)) == 256 ==> r == -1
    {
      UnfinishedAll(window);
      Typed(delivered, window, accepted, a);
      if a == BS {
        if backspace <= 0 {
          return -1;
        }
        PopLast();
        backspace := backspace - 1;
      } else {
        if full {
          return -1;
        }
        if a == TAB {
          PutTab();
          return 0;
        }
        backspace := backspace + 1;
        Push(a);
      }
      accepted := accepted + [a];
      return 0;
    }
  }

  /** The key is a tab, and the window has room for some of its spaces, not all. */
  predicate SpoilsRing(w: seq<Ascii>, a: Ascii) {
    a == TAB && TERMBUF_SIZE - TAB_SIZE < |w| < TERMBUF_SIZE
  }

  /** The ring with the window `w` and `n` spaces more; marked full, those there was no room for begin a ring of their own. */
  ghost predicate Tabbing(b: seq<Ascii>, start: int, end: int, full: bool, count: int, w: seq<Ascii>, n: nat) {
    if |w| + n <= TERMBUF_SIZE then Holds(b, start, end, full, w + Spaces(n)) && Counts(count, w + Spaces(n))
    else full && Holds(b, start, end, false, Spaces(|w| + n - TERMBUF_SIZE))
  }

  /** One space more. */
  lemma SpacePushed(b: seq<Ascii>, start: int, end: int, full: bool, count: int, w: seq<Ascii>, n: nat)
    requires Tabbing(b, start, end, full, count, w, n) && |w| < TERMBUF_SIZE && n < TAB_SIZE
    ensures 0 <= end < |b| == TERMBUF_SIZE
    ensures var end' := (end + 1) % TERMBUF_SIZE; Tabbing(b[end := SP], start, end', full || start == end', count, w, n + 1)
  {
    if |w| + n < TERMBUF_SIZE {
      HoldsPush(b, start, end, w + Spaces(n), SP);
      CountsPush(count, w + Spaces(n), SP);
      assert w + Spaces(n) + [SP] == w + Spaces(n + 1);
    } else {
      var m := |w| + n - TERMBUF_SIZE;
      assert Holds(b, start, end, false, Spaces(m));
      HoldsPush(b, start, end, Spaces(m), SP);
    }
  }

  /** No window fits a ring marked full that has spaces beyond: it is not the ring of any text. */
  lemma OverrunLost(b: seq<Ascii>, start: int, end: int, n: nat, w: seq<Ascii>)
    requires Holds(b, start, end, false, Spaces(n)) && n > 0
    ensures !Holds(b, start, end, true, w)
  {
  }

  /** Once a byte is popped, the ring holds the other spaces and nothing else. */
  lemma OverrunPopped(b: seq<Ascii>, start: int, end: int, n: nat)
    requires Holds(b, start, end, false, Spaces(n)) && n > 0
    ensures b[start] == SP && Holds(b, (start + 1) % TERMBUF_SIZE, end, false, Spaces(n - 1))
  {
    SpacesAll(n);
    HoldsEmpty(b, start, end, false, Spaces(n));
    HoldsPop(b, start, end, false, Spaces(n));
    assert Spaces(n)[1..] == Spaces(n - 1) by {
      SpacesAll(n - 1);
    }
  }

  lemma {:induction false} SpacesAll(n: nat)
    ensures forall i :: 0 <= i < n ==> Spaces(n)[i] == SP
  {
    if n > 0 {
      SpacesAll(n - 1);
    }
  }

  lemma SpaceMore(t: seq<Ascii>, n: nat)
    ensures t + Spaces(n + 1) == t + Spaces(n) + [SP]
  {
  }

  /** A tab is four spaces to the editor. */
  lemma {:induction false} EditedSpaces(keys: seq<Ascii>, n: nat)
    ensures Edited(keys + Spaces(n)) == Edited(keys) + Spaces(n)
  {
    if n == 0 {
      assert keys + [] == keys;
    } else {
      EditedSpaces(keys, n - 1);
      SpaceMore(keys, n - 1);
      SpaceMore(Edited(keys), n - 1);
      assert Front(keys + Spaces(n - 1) + [SP]) == keys + Spaces(n - 1);
    }
  }

  /** A tab to the editor, with the edited text split at the window. */
  lemma TabTyped(d: seq<Ascii>, w: seq<Ascii>, keys: seq<Ascii>)
    requires d + w == Edited(keys)
    ensures w + Spaces(TAB_SIZE) == w + [32, 32, 32, 32] && d + (w + [32, 32, 32, 32]) == Edited(keys + KeyText(TAB))
    ensures Unfinished(w + [32, 32, 32, 32]) == Unfinished(w) + TAB_SIZE && Delims(w + [32, 32, 32, 32]) == Delims(w)
  {
    TabText();
    EditedSpaces(keys, TAB_SIZE);
    CountedSpaces(w, TAB_SIZE);
    assert d + (w + Spaces(TAB_SIZE)) == d + w + Spaces(TAB_SIZE);
  }

  lemma {:induction false} CountedSpaces(w: seq<Ascii>, n: nat)
    ensures Unfinished(w + Spaces(n)) == Unfinished(w) + n && Delims(w + Spaces(n)) == Delims(w)
  {
    if n == 0 {
      assert w + [] == w;
    } else {
      CountedSpaces(w, n - 1);
      SpaceMore(w, n - 1);
      DelimsPush(w + Spaces(n - 1), SP);
    }
  }

  /** One more key, with the edited text split at the window. */
  lemma Typed(d: seq<Ascii>, w: seq<Ascii>, keys: seq<Ascii>, a: Ascii)
    requires d + w == Edited(keys) && (Unfinished(d) > 0 ==> Delims(w) > 0)
    ensures a != BS ==> d + (w + [a]) == Edited(keys + [a]) && Unfinished(w + [a]) == (if IsDelim(a) then 0 else Unfinished(w) + 1)
    ensures a != BS ==> Delims(w + [a]) >= Delims(w)
    ensures a == BS && Unfinished(w) > 0 ==> !IsDelim(Last(w)) && Delims(Front(w)) == Delims(w) && Unfinished(Front(w)) == Unfinished(w) - 1
    ensures a == BS && Unfinished(w) > 0 ==> d + Front(w) == Edited(keys + [a])
  {
    assert Front(keys + [a]) == keys;
    if a != BS {
      DelimsPush(w, a);
      assert d + (w + [a]) == d + w + [a];
    } else if Unfinished(w) > 0 {
      assert Front(d + w) == d + Front(w);
    }
  }

  // ------------------------------------------------------------- whole runs

  datatype Event = Key(c: Ascii) | ReadCall(size: nat)

  /** The keys that took effect. */
  function Accepted(evs: seq<Event>, rs: seq<int>): seq<Ascii>
    requires |rs| <= |evs|
  {
    if rs == [] then []
    else
      var n := |rs| - 1;
      Accepted(evs, rs[..n]) + Typing(evs[n], rs[n])
  }

  /** What the event adds to them. */
  function Typing(ev: Event, r: int): seq<Ascii> {
    if ev.Key? && r == 0 then KeyText(ev.c) else []
  }

  /** The bytes delivered so far, and those in the buffer. */
  datatype Term = Term(delivered: seq<Ascii>, window: seq<Ascii>) {

    /** A key is refused when there is no unfinished line to take from, or no room. */
    function Typed(c: Ascii): (Term, int) {
      if c == BS then
        if Unfinished(window) == 0 then (this, -1) else (this.(window := Front(window)), 0)
      else if |window| == TERMBUF_SIZE then (this, -1)
      else (this.(window := window + KeyText(c)), 0)
    }

    /** The event is a tab that spoils the buffer. */
    predicate Spoils(ev: Event) {
      ev.Key? && SpoilsRing(window, ev.c)
    }

    /** A read is refused with 0 or 256 delimiters; else it takes the next part of the line, at most size + 1 bytes. */
    function Taken(size: nat): (Term, int) {
      if size == 0 then (this, 0)
      else if Delims(window) == 0 || Delims(window) == 256 then (this, -1)
      else
        var n := if size < LineLen(window) then size + 1 else LineLen(window);
        (Term(delivered + window[..n], window[n..]), n)
    }

    function Next(ev: Event): (Term, int) {
      match ev
      case Key(c) => Typed(c)
      case ReadCall(size) => Taken(size)
    }
  }

  /** The terminal after the events, and its answers. */
  function RunFrom(t: Term, evs: seq<Event>): (Term, seq<int>) {
    if evs == [] then (t, [])
    else
      var n := |evs| - 1;
      var (t1, rs) := RunFrom(t, evs[..n]);
      var (t2, r) := t1.Next(evs[n]);
      (t2, rs + [r])
  }

  /** With 256 delimiters in the buffer no event takes effect any more. */
  lemma {:induction false} StuckForEver(t: Term, evs: seq<Event>)
    requires Delims(t.window) == 256 && |t.window| == TERMBUF_SIZE
    ensures RunFrom(t, evs).0 == t && |RunFrom(t, evs).1| == |evs|
    ensures forall i :: 0 <= i < |evs| ==> RunFrom(t, evs).1[i] == if evs[i] == ReadCall(0) then 0 else -1
  {
    if evs != [] {
      StuckForEver(t, evs[..|evs| - 1]);
      UnfinishedAll(t.window);
    }
  }

  /** Such a state is reached by typing 256 newlines. */
  lemma {:induction false} NewlinesStick(n: nat)
    requires n <= TERMBUF_SIZE
    ensures var t := RunFrom(Term([], []), seq(n, i => Key(NL))).0;
            t.delivered == [] && |t.window| == n && Delims(t.window) == n
  {
    if n > 0 {
      var evs: seq<Event> := seq(n, i => Key(NL));
      assert evs[..n - 1] == seq(n - 1, i => Key(NL));
      NewlinesStick(n - 1);
      var t := RunFrom(Term([], []), evs[..n - 1]).0;
      DelimsPush(t.window, NL);
    }
  }

  /** Letters fill the buffer. */
  lemma {:induction false} LettersFill(c: Ascii, n: nat)
    requires n <= TERMBUF_SIZE && c >= SP
    ensures var t := RunFrom(Term([], []), seq(n, i => Key(c))).0; t.delivered == [] && |t.window| == n
  {
    if n > 0 {
      var evs: seq<Event> := seq(n, i => Key(c));
      assert evs[..n - 1] == seq(n - 1, i => Key(c));
      LettersFill(c, n - 1);
    }
  }

  /** A tab after 253 letters spoils the buffer. */
  lemma TabExample(c: Ascii)
    requires c >= SP
    ensures RunFrom(Term([], []), seq(253, i => Key(c))).0.Spoils(Key(TAB))
  {
    LettersFill(c, 253);
  }

  lemma RunFromNext(t: Term, evs: seq<Event>, n: nat)
    requires n < |evs|
    ensures var (t1, rs) := RunFrom(t, evs[..n]); var (t2, r) := t1.Next(evs[n]); RunFrom(t, evs[..n + 1]) == (t2, rs + [r])
  {
    assert evs[..n + 1][..n] == evs[..n];
  }

  lemma AcceptedNext(evs: seq<Event>, rs: seq<int>, r: int)
    requires |rs| < |evs|
    ensures Accepted(evs, rs + [r]) == Accepted(evs, rs) + Typing(evs[|rs|], r)
  {
    assert (rs + [r])[..|rs|] == rs;
  }

  /** One event on the ring is one on the specification. */
  method StepEvent(t: TermBuf, ev: Event) returns (r: int, out: seq<Ascii>)
    requires t.Valid() && !Term(t.delivered, t.window).Spoils(ev)
    modifies t, t.buf
    ensures t.Valid() && t.delivered == old(t.delivered) + out
    ensures (Term(t.delivered, t.window), r) == Term(old(t.delivered), old(t.window)).Next(ev)
    ensures t.accepted == old(t.accepted) + Typing(ev, r)
  {
    ghost var d, w := t.delivered, t.window;
    if ev.Key? {
      r := t.PutChar(ev.c);
      out := [];
    } else {
      r, out := t.Read(ev.size);
      ReadTakes(d, w, ev.size, r, out);
    }
  }

  /** What term_read promises is what the specification says. */
  lemma ReadTakes(d: seq<Ascii>, w: seq<Ascii>, size: nat, n: int, out: seq<Ascii>)
    requires |out| <= |w| && out == w[..|out|] && n >= -1 && (n == -1 ==> out == []) && (size == 0 ==> n == 0 && out == [])
    requires n == -1 <==> size > 0 && (Delims(w) == 0 || Delims(w) == 256)
    requires size > 0 && n >= 0 ==> n == |out| == if size < LineLen(w) then size + 1 else LineLen(w)
    ensures (Term(d + out, w[|out|..]), n) == Term(d, w).Taken(size)
  {
    assert d + [] == d && w[0..] == w;
  }

  /** The bytes read so far followed by the window are the edited text. */
  ghost predicate Shown(t: TermBuf, evs: seq<Event>, rs: seq<int>, bytes: seq<Ascii>)
    reads t, t.buf
  {
    && t.Valid() && |rs| <= |evs| && t.accepted == Accepted(evs, rs) && t.delivered == bytes
    && (Term(bytes, t.window), rs) == RunFrom(Term([], []), evs[..|rs|])
  }

  /** The next event, unless it spoils the buffer. */
  method RunNext(t: TermBuf, evs: seq<Event>, rs: seq<int>, bytes: seq<Ascii>) returns (rs': seq<int>, bytes': seq<Ascii>)
    requires Shown(t, evs, rs, bytes) && |rs| < |evs| && !Term(bytes, t.window).Spoils(evs[|rs|])
    modifies t, t.buf
    ensures Shown(t, evs, rs', bytes') && |rs'| == |rs| + 1
  {
    RunFromNext(Term([], []), evs, |rs|);
    var r, out := StepEvent(t, evs[|rs|]);
    AcceptedNext(evs, rs, r);
    rs', bytes' := rs + [r], bytes + out;
  }

  /**
   For every interleaving of keys and reads, up to a tab that spoils the buffer:
   the bytes read so far followed by the window are the edited text, and which
   events were refused and what each read returned is as the specification says.
   The spoiling tab leaves one to three spaces of all that was not yet read.
   */
  method Run(evs: seq<Event>) returns (t: TermBuf, rs: seq<int>, bytes: seq<Ascii>)
    ensures |rs| <= |evs| && RunFrom(Term([], []), evs[..|rs|]).1 == rs && RunFrom(Term([], []), evs[..|rs|]).0.delivered == bytes
    ensures |rs| == |evs| ==>
              && t.Valid() && (Term(bytes, t.window), rs) == RunFrom(Term([], []), evs)
              && bytes + t.window == Edited(Accepted(evs, rs))
              && t.backspace == Unfinished(Edited(Accepted(evs, rs)))
              && t.count == Delims(t.window) % 256
    ensures |rs| < |evs| ==>
              var before := RunFrom(Term([], []), evs[..|rs|]).0;
              before.Spoils(evs[|rs|]) && t.Overrun(|before.window| + TAB_SIZE - TERMBUF_SIZE)
  {
    t := new TermBuf();
    rs, bytes := [], [];
    while |rs| < |evs|
      invariant fresh(t) && fresh(t.buf) && Shown(t, evs, rs, bytes)
      decreases |evs| - |rs|
    {
      var n := t.Size();
      if evs[|rs|] == Key(TAB) && TERMBUF_SIZE - TAB_SIZE < n < TERMBUF_SIZE {
        var r := t.PutChar(TAB);
        return;
      }
      rs, bytes := RunNext(t, evs, rs, bytes);
    }
    assert evs[..|rs|] == evs;
    t.BackspaceIsLine();
  }
}

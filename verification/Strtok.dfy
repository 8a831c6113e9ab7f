/** `strtok` from `libc/string.c` (and `kstrtok`, the same code in `sys/system.c`). */
module Strtok {
  import opened Options

  /** The null-terminated string at `p`. */
  function CString(b: seq<int>, p: nat): seq<int>
    decreases |b| - p
  {
    if p < |b| && b[p] != 0 then [b[p]] + CString(b, p + 1) else []
  }

  lemma {:induction false} CStringIs(b: seq<int>, p: nat, e: nat)
    requires p <= e < |b| && b[e] == 0 && forall i :: p <= i < e ==> b[i] != 0
    ensures CString(b, p) == b[p..e]
    decreases e - p
  {
    if p < e {
      CStringIs(b, p + 1, e);
    }
  }

  lemma {:induction false} CStringAt(b: seq<int>, p: nat, j: nat)
    requires j <= |CString(b, p)|
    ensures j < |CString(b, p)| ==> p + j < |b| && b[p + j] == CString(b, p)[j]
    ensures j == |CString(b, p)| && p + j < |b| ==> b[p + j] == 0
    decreases j
  {
    if j > 0 {
      CStringAt(b, p + 1, j - 1);
    }
  }

  /** Position of the first delimiter, or the length. */
  function FirstDelim(t: seq<int>, d: seq<int>): (k: nat)
    ensures k <= |t| && (k < |t| ==> t[k] in d) && forall i :: 0 <= i < k ==> t[i] !in d
  {
    if t == [] || t[0] in d then 0 else 1 + FirstDelim(t[1..], d)
  }

  lemma FirstDelimIs(t: seq<int>, d: seq<int>, k: nat)
    requires k <= |t| && (k < |t| ==> t[k] in d) && forall i :: 0 <= i < k ==> t[i] !in d
    ensures FirstDelim(t, d) == k
  {
  }

  /** The text cut at every delimiter. */
  function Split(t: seq<int>, d: seq<int>): (ps: seq<seq<int>>)
    ensures ps != []
  {
    var k := FirstDelim(t, d);
    if k == |t| then [t] else [t[..k]] + Split(t[k + 1..], d)
  }

  /** The pieces with the characters `cs` between them. */
  function Joined(ps: seq<seq<int>>, cs: seq<int>): seq<int>
    requires |ps| == |cs| + 1
  {
    if cs == [] then ps[0] else ps[0] + ([cs[0]] + Joined(ps[1..], cs[1..]))
  }

  /** No character of `p` is a delimiter. */
  ghost predicate Plain(p: seq<int>, d: seq<int>) {
    forall i :: 0 <= i < |p| ==> p[i] !in d
  }

  /** No piece holds a delimiter, and with the delimiters `cs` between them they are the text. */
  ghost predicate CutUp(ps: seq<seq<int>>, cs: seq<int>, t: seq<int>, d: seq<int>) {
    && |ps| == |cs| + 1 && Joined(ps, cs) == t
    && (forall i :: 0 <= i < |cs| ==> cs[i] in d)
    && (forall i :: 0 <= i < |ps| ==> Plain(ps[i], d))
  }

  lemma {:induction false} SplitJoins(t: seq<int>, d: seq<int>) returns (cs: seq<int>)
    ensures CutUp(Split(t, d), cs, t, d)
  {
    var k := FirstDelim(t, d);
    if k < |t| {
      var rest := SplitJoins(t[k + 1..], d);
      CutMore(t, d, k, Split(t[k + 1..], d), rest);
      cs := [t[k]] + rest;
    } else {
      cs := [];
      CutOnce(t, d);
    }
  }

  lemma CutOnce(t: seq<int>, d: seq<int>)
    requires Plain(t, d)
    ensures CutUp([t], [], t, d)
  {
  }

  lemma CutMore(t: seq<int>, d: seq<int>, k: nat, ps: seq<seq<int>>, cs: seq<int>)
    requires k < |t| && t[k] in d && Plain(t[..k], d) && CutUp(ps, cs, t[k + 1..], d)
    ensures CutUp([t[..k]] + ps, [t[k]] + cs, t, d)
  {
    assert ([t[..k]] + ps)[1..] == ps && ([t[k]] + cs)[1..] == cs;
    assert t == t[..k] + ([t[k]] + t[k + 1..]);
  }

  /** What repeated calls return. */
  function Tokens(t: seq<int>, d: seq<int>): seq<seq<int>>
    decreases |t|
  {
    if t == [] then [] else [t[..FirstDelim(t, d)]] + Tokens(AfterDelim(t, d), d)
  }

  /** The text after the first delimiter. */
  function AfterDelim(t: seq<int>, d: seq<int>): (r: seq<int>)
    ensures t != [] ==> |r| < |t|
  {
    var k := FirstDelim(t, d);
    if k == |t| then [] else t[k + 1..]
  }

  /** All pieces but an empty last one. */
  lemma {:induction false} TokensArePieces(t: seq<int>, d: seq<int>)
    ensures var ps := Split(t, d); var n := |ps| - 1; Tokens(t, d) == if ps[n] == [] then ps[..n] else ps
  {
    var k := FirstDelim(t, d);
    if k < |t| {
      var rest := t[k + 1..];
      TokensArePieces(rest, d);
      DropLast(t[..k], Split(rest, d), Tokens(rest, d));
    } else {
      assert t[..k] == t && AfterDelim(t, d) == [];
    }
  }

  lemma DropLast(p: seq<int>, ps: seq<seq<int>>, ts: seq<seq<int>>)
    requires ps != [] && ts == if ps[|ps| - 1] == [] then ps[..|ps| - 1] else ps
    ensures var qs := [p] + ps; [p] + ts == if qs[|qs| - 1] == [] then qs[..|qs| - 1] else qs
  {
  }

  class Tokenizer {
    const buf: array<int>
    /** The saved position, as an index into the buffer. */
    var position: nat
    /** Where the null byte at the end of the string is. */
    ghost var end: nat

    ghost predicate Valid()
      reads this, buf
    {
      position <= end < buf.Length && buf[end] == 0 && forall i :: position <= i < end ==> buf[i] != 0
    }

    /** The part of the string no call has looked at. */
    ghost function Rest(): seq<int>
      requires Valid()
      reads this, buf
    {
      buf[position..end]
    }

    constructor (s: seq<int>)
      requires forall i :: 0 <= i < |s| ==> s[i] != 0
      ensures Valid() && position == 0 && Rest() == s && fresh(buf)
    {
      buf := new int[|s| + 1](i requires 0 <= i => if i < |s| then s[i] else 0);
      position, end := 0, |s|;
    }

    method Strtok(d: seq<int>) returns (r: Option<nat>)
      requires Valid() && 0 !in d
      modifies this, buf
      ensures Valid() && end == old(end) && position >= old(position)
      ensures r.None? <==> old(Rest()) == []
      ensures r.None? ==> position == old(position) && buf[..] == old(buf[..])
      ensures r.Some? ==> CString(buf[..], r.value) == old(Rest())[..FirstDelim(old(Rest()), d)]
      ensures r.Some? ==> r.value == old(position) && Rest() == AfterDelim(old(Rest()), d)
      ensures r.Some? ==> var t := old(Rest()); var k := FirstDelim(t, d); Rest() == if k < |t| then t[k + 1..] else []
      ensures forall i :: 0 <= i < old(position) || position <= i < buf.Length ==> buf[i] == old(buf[i])
    {
      ghost var t := Rest();
      var index := Scan(d);
      if buf[position + index] != 0 {
        var temp := position;
        buf[position + index] := 0;
        position := position + index + 1;
        CStringIs(buf[..], temp, temp + index);
        assert buf[temp..temp + index] == t[..index] && buf[position..end] == t[index + 1..];
        return Some(temp);
      }
      if buf[position] != 0 {
        var temp := position;
        CStringIs(buf[..], temp, end);
        assert buf[temp..end] == t == t[..index];
        position := position + index;
        return Some(temp);
      }
      return None;
    }

    /** The loop over the string, up to the first delimiter or the null byte. */
    method Scan(d: seq<int>) returns (index: nat)
      requires Valid()
      ensures index == FirstDelim(Rest(), d)
    {
      ghost var t := Rest();
      index := 0;
      while buf[position + index] != 0
        invariant index <= |t| == end - position && forall i :: 0 <= i < index ==> t[i] !in d
        decreases end - index
      {
        assert t[index] == buf[position + index];
        var hit := IsDelimiter(buf[position + index], d);
        if hit {
          FirstDelimIs(t, d, index);
          return;
        }
        index := index + 1;
      }
      FirstDelimIs(t, d, index);
    }
  }

  /** The inner loop over the delimiters. */
  method IsDelimiter(x: int, d: seq<int>) returns (hit: bool)
    ensures hit <==> x in d
  {
    var c := 0;
    while c < |d|
      invariant 0 <= c <= |d| && x !in d[..c]
    {
      if x == d[c] {
        return true;
      }
      c := c + 1;
    }
    return false;
  }

  /** Calling until null: the pieces of the string. */
  method All(s: seq<int>, d: seq<int>) returns (ps: seq<seq<int>>)
    requires 0 !in d && forall i :: 0 <= i < |s| ==> s[i] != 0
    ensures ps == Tokens(s, d)
  {
    var t := new Tokenizer(s);
    ps := [];
    while true
      invariant fresh(t) && fresh(t.buf) && t.Valid()
      invariant ps + Tokens(t.Rest(), d) == Tokens(s, d)
      decreases |t.Rest()|
    {
      ghost var rest := t.Rest();
      var r := t.Strtok(d);
      if r.None? {
        return;
      }
      var piece := CString(t.buf[..], r.value);
      assert Tokens(rest, d) == [piece] + Tokens(t.Rest(), d);
      Regroup(ps, piece, Tokens(t.Rest(), d));
      ps := ps + [piece];
    }
  }

  lemma Regroup(ps: seq<seq<int>>, p: seq<int>, qs: seq<seq<int>>)
    ensures ps + ([p] + qs) == ps + [p] + qs
  {
  }
}

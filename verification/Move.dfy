/** `memmove` from `sys/system.c`, on flat memory. */
module Move {
  type Byte = b: int | 0 <= b < 256

  /** Memory after the byte-by-byte forward copy: an overlap ahead of the source repeats its first bytes. */
  function Moved(m: seq<Byte>, src: nat, dst: nat, n: nat): (r: seq<Byte>)
    requires src + n <= |m| && dst + n <= |m|
    ensures |r| == |m|
  {
    seq(|m|, k requires 0 <= k < |m| => if dst <= k < dst + n then m[src + Offset(src, dst, k - dst)] else m[k])
  }

  /** Where in the source range the byte at offset `k` of the destination comes from. */
  function Offset(src: nat, dst: nat, k: nat): (o: nat)
    ensures o <= k
  {
    if src < dst && k >= dst - src then Offset(src, dst, k - (dst - src)) else k
  }

  /** memmove(src, dst, n); the source's test for an overlap never holds, so every copy runs forward. */
  method Memmove(mem: array<Byte>, src: nat, dst: nat, n: nat)
    requires src + n <= mem.Length && dst + n <= mem.Length
    modifies mem
    ensures mem[..] == Moved(old(mem[..]), src, dst, n)
    ensures forall k :: 0 <= k < mem.Length && !(dst <= k < dst + n) ==> mem[k] == old(mem[k])
    ensures forall k :: dst <= k < dst + n ==>
              mem[k] == if src < dst <= src + (k - dst) then mem[k - (dst - src)] else old(mem[src + (k - dst)])
  {
    if src > dst && src + n < dst {
      assert false;
    } else {
      var i := 0;
      ghost var m := mem[..];
      while i < n
        invariant 0 <= i <= n
        invariant mem[..] == Moved(m, src, dst, i)
      {
        MovedOne(m, src, dst, i);
        mem[dst + i] := mem[src + i];
        i := i + 1;
      }
      MovedIs(m, src, dst, n, mem[..]);
    }
  }

  /** A byte comes from where the source holds it when its turn comes: the destination's own, once that has been written. */
  lemma MovedIs(m: seq<Byte>, src: nat, dst: nat, n: nat, r: seq<Byte>)
    requires src + n <= |m| && dst + n <= |m| && r == Moved(m, src, dst, n)
    ensures forall k :: 0 <= k < |m| && !(dst <= k < dst + n) ==> r[k] == m[k]
    ensures forall k :: dst <= k < dst + n ==>
              r[k] == if src < dst <= src + (k - dst) then r[k - (dst - src)] else m[src + (k - dst)]
  {
    forall k | dst <= k < dst + n
      ensures r[k] == if src < dst <= src + (k - dst) then r[k - (dst - src)] else m[src + (k - dst)]
    {
      assert r[k] == m[src + Offset(src, dst, k - dst)];
    }
  }

  lemma MovedOne(m: seq<Byte>, src: nat, dst: nat, i: nat)
    requires src + i < |m| && dst + i < |m|
    ensures var r := Moved(m, src, dst, i); r[dst + i := r[src + i]] == Moved(m, src, dst, i + 1)
  {
    var r := Moved(m, src, dst, i);
    if src < dst && i >= dst - src {
      assert r[src + i] == m[src + Offset(src, dst, src + i - dst)];
    }
    assert r[src + i] == m[src + Offset(src, dst, i)];
  }

  /** `t` repeats itself every `d` bytes. */
  ghost predicate Repeats(t: seq<Byte>, d: nat) {
    forall k :: d <= k < |t| ==> t[k] == t[k - d]
  }

  lemma {:induction false} RepeatsAt(t: seq<Byte>, src: nat, dst: nat, k: nat)
    requires src < dst && Repeats(t, dst - src) && k < |t|
    ensures t[k] == t[Offset(src, dst, k)]
  {
    if k >= dst - src {
      RepeatsAt(t, src, dst, k - (dst - src));
    }
  }

  /** A copy whose destination does not start inside the source range is exact; otherwise it is only for a range that repeats. */
  lemma CopyExact(m: seq<Byte>, src: nat, dst: nat, n: nat)
    requires src + n <= |m| && dst + n <= |m|
    ensures Moved(m, src, dst, n)[dst..dst + n] == m[src..src + n]
            <==> !(src < dst < src + n) || Repeats(m[src..src + n], dst - src)
  {
    var t, c := m[src..src + n], Moved(m, src, dst, n)[dst..dst + n];
    forall k | 0 <= k < n ensures c[k] == t[Offset(src, dst, k)] {
    }
    if src < dst < src + n {
      if Repeats(t, dst - src) {
        forall k | 0 <= k < n ensures c[k] == t[k] {
          RepeatsAt(t, src, dst, k);
        }
      } else {
        var k :| dst - src <= k < |t| && t[k] != t[k - (dst - src)];
        assert c[k] == c[k - (dst - src)];
      }
    } else {
      forall k | 0 <= k < n ensures c[k] == t[k] {
      }
    }
  }

  /** So an overlap ahead of the source spoils some content. */
  lemma OverlapSpoils(src: nat, dst: nat, n: nat, size: nat) returns (m: seq<Byte>)
    requires src < dst < src + n && dst + n <= size
    ensures |m| == size && Moved(m, src, dst, n)[dst..dst + n] != m[src..src + n]
  {
    m := seq(size, k => if k < dst then 0 else 1);
    CopyExact(m, src, dst, n);
    var t, d := m[src..src + n], dst - src;
    assert t[d] != t[d - d];
  }
}

/** The bytes of a little-endian memory word. */
module Bytes {
  function Byte(w: nat, k: nat): (b: nat)
    ensures b < 256
  {
    if k == 0 then w % 256 else Byte(w / 256, k - 1)
  }

  function SetByte(w: nat, k: nat, b: nat): nat {
    if k == 0 then w - w % 256 + b else SetByte(w / 256, k - 1, b) * 256 + w % 256
  }

  lemma {:induction false} SetThenByte(w: nat, k: nat, b: nat, j: nat)
    requires b < 256
    ensures Byte(SetByte(w, k, b), j) == if j == k then b else Byte(w, j)
  {
    if k > 0 && j > 0 {
      SetThenByte(w / 256, k - 1, b, j - 1);
    }
  }

  /** The lowest byte comes first. */
  lemma LowByteFirst(b: nat, w: nat, k: nat)
    requires b < 256
    ensures Byte(256 * w + b, k) == if k == 0 then b else Byte(w, k - 1)
  {
    assert (256 * w + b) / 256 == w;
  }

  lemma {:induction false} ZeroByte(j: nat)
    ensures Byte(0, j) == 0
  {
    if j > 0 {
      ZeroByte(j - 1);
    }
  }
}

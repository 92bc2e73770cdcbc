/** Eight-bit values and the little-endian words built from them. */
module Bytes {

  type byte = x: int | 0 <= x < 256

  const WORD: nat := 0x1_0000
  const LONG: nat := 0x1_0000_0000

  function U16(lo: byte, hi: byte): nat {
    lo + 256 * hi
  }

  function U32(b0: byte, b1: byte, b2: byte, b3: byte): nat {
    b0 + 256 * b1 + 0x1_0000 * b2 + 0x100_0000 * b3
  }

  /** INC: wraps, leaving the carry to the caller. */
  function Inc(b: byte): byte {
    if b == 255 then 0 else b + 1
  }

  /** ASL: the top bit is lost to the carry. */
  function Asl(b: byte): byte {
    2 * b % 256
  }

  /** An eight-bit sum of two values of which one carry can come. */
  function Wrap(n: nat): byte
    requires n < 512
  {
    if n < 256 then n else n - 256
  }

  /** A 32-bit sum: wraps. */
  function Advance(n: nat, k: nat): nat {
    (n + k) % LONG
  }

  function Lo(w: nat): byte {
    w % 256
  }

  function Hi(w: nat): byte {
    w / 256 % 256
  }

  lemma ZeroOffset()
    ensures U32(0, 0, 0, 0) == 0
  {
  }

  /** Adding a byte to a four-byte little-endian counter, carry by carry. */
  function Add32(b: (byte, byte, byte, byte), a: byte): (byte, byte, byte, byte) {
    var c0 := b.0 + a >= 256;
    var n1 := if c0 then Inc(b.1) else b.1;
    var c1 := c0 && n1 == 0;
    var n2 := if c1 then Inc(b.2) else b.2;
    var c2 := c1 && n2 == 0;
    ((b.0 + a) % 256, n1, n2, if c2 then Inc(b.3) else b.3)
  }

  lemma Add32IsAddition(b: (byte, byte, byte, byte), a: byte)
    ensures var n := Add32(b, a);
            && U32(n.0, n.1, n.2, n.3) == Advance(U32(b.0, b.1, b.2, b.3), a)
            && U32(n.0, n.1, n.2, n.3) == (U32(b.0, b.1, b.2, b.3) + a) % 0x1_0000_0000
  {
    var n := Add32(b, a);
    var carried := b.0 + a >= 256 && b.1 == 255 && b.2 == 255 && b.3 == 255;
    assert U32(n.0, n.1, n.2, n.3) == U32(b.0, b.1, b.2, b.3) + a - if carried then LONG else 0;
  }

  lemma ModAdd(n: nat, k: nat)
    ensures (n % LONG + k) % LONG == (n + k) % LONG
  {
    var q := n / LONG;
    assert n + k == (n % LONG + k) + q * LONG;
    ModShift(n % LONG + k, q);
  }

  lemma {:induction false} ModShift(n: nat, q: nat)
    ensures (n + q * LONG) % LONG == n % LONG
  {
    if q > 0 {
      ModShift(n, q - 1);
    }
  }
}

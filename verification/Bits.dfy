/** Bitwise arithmetic on unsigned machine words, represented as natural numbers.
    C's `|`, shifts and bit tests are written with these functions, so that every
    wrap-around is explicit. */
module Bits {

  /** 1 << k */
  function Pow2(k: nat): (p: nat)
    ensures p >= 1
  {
    if k == 0 then 1 else 2 * Pow2(k - 1)
  }

  /** C's bitwise or. */
  function Or(a: nat, b: nat): nat {
    if a == 0 then b
    else if b == 0 then a
    else (if a % 2 == 1 || b % 2 == 1 then 1 else 0) + 2 * Or(a / 2, b / 2)
  }

  /** (w >> k) & 1 */
  function Bit(w: nat, k: nat): bool {
    if k == 0 then w % 2 == 1 else Bit(w / 2, k - 1)
  }

  /** w >> k */
  function ShiftRight(w: nat, k: nat): nat {
    if k == 0 then w else ShiftRight(w / 2, k - 1)
  }

  /** 2^(bits-1) for the word widths of C's fixed-size integers. */
  function Half(bits: nat): int
    requires bits in {8, 16, 32, 64}
  {
    if bits == 8 then 0x80
    else if bits == 16 then 0x8000
    else if bits == 32 then 0x8000_0000
    else 0x8000_0000_0000_0000
  }

  /** A cast of a value to an unsigned word of `bits` bits. */
  function ToUnsigned(i: int, bits: nat): (w: nat)
    requires bits in {8, 16, 32, 64}
  {
    i % (2 * Half(bits))
  }

  /** A cast of a value to a signed, two's complement word of `bits` bits. */
  function ToSigned(i: int, bits: nat): int
    requires bits in {8, 16, 32, 64}
  {
    var low := ToUnsigned(i, bits);
    if low >= Half(bits) then low - 2 * Half(bits) else low
  }

  /** x << k, before any truncation. */
  function ShiftLeft(x: nat, k: nat): nat {
    if k == 0 then x else 2 * ShiftLeft(x, k - 1)
  }

  lemma {:induction false} ShiftLeftAdd(x: nat, y: nat, k: nat)
    ensures ShiftLeft(x + y, k) == ShiftLeft(x, k) + ShiftLeft(y, k)
  {
    if k > 0 { ShiftLeftAdd(x, y, k - 1); }
  }

  lemma {:induction false} ShiftLeftTwice(x: nat, j: nat, k: nat)
    ensures ShiftLeft(x, j + k) == ShiftLeft(ShiftLeft(x, j), k)
  {
    if k > 0 {
      ShiftLeftTwice(x, j, k - 1);
      assert j + k - 1 == j + (k - 1);
    }
  }

  lemma {:induction false} ShiftLeftMonotone(x: nat, y: nat, k: nat)
    requires x <= y
    ensures ShiftLeft(x, k) <= ShiftLeft(y, k)
  {
    if k > 0 { ShiftLeftMonotone(x, y, k - 1); }
  }

  lemma {:induction false} ShiftLeftOne(k: nat)
    ensures ShiftLeft(1, k) == Pow2(k)
  {
    if k > 0 { ShiftLeftOne(k - 1); }
  }

  lemma {:induction false} ShiftLeftZero(k: nat)
    ensures ShiftLeft(0, k) == 0
  {
    if k > 0 { ShiftLeftZero(k - 1); }
  }

  lemma Pow2Values()
    ensures Pow2(7) == 0x80 && Pow2(14) == 0x4000 && Pow2(21) == 0x20_0000 && Pow2(28) == 0x1000_0000
    ensures Pow2(31) == 0x8000_0000 && Pow2(32) == 0x1_0000_0000
    ensures Pow2(35) == 0x8_0000_0000 && Pow2(63) == 0x8000_0000_0000_0000
    ensures Pow2(64) == 0x1_0000_0000_0000_0000
  {
    Pow2Next(0); Pow2Next(7); Pow2Next(14); Pow2Next(21); Pow2Next(28);
    Pow2Next(35); Pow2Next(42); Pow2Next(49); Pow2Next(56);
    assert Pow2(31) == 8 * Pow2(28);
    assert Pow2(32) == 2 * Pow2(31);
    assert Pow2(64) == 2 * Pow2(63);
  }

  lemma Pow2Next(k: nat)
    ensures Pow2(k + 7) == 128 * Pow2(k)
  {
    assert Pow2(k + 7) == 2 * Pow2(k + 6) == 4 * Pow2(k + 5) == 8 * Pow2(k + 4);
    assert Pow2(k + 4) == 2 * Pow2(k + 3) == 4 * Pow2(k + 2) == 8 * Pow2(k + 1);
  }

  /** Or of words with no common bit is addition: this is what makes shifting
      seven-bit groups into a result reassemble the number. */
  lemma {:induction false} OrDisjoint(r: nat, x: nat, k: nat)
    requires r < Pow2(k)
    ensures Or(r, ShiftLeft(x, k)) == r + ShiftLeft(x, k)
  {
    if k > 0 {
      OrDisjoint(r / 2, x, k - 1);
    }
  }

  lemma {:induction false} OrBit(a: nat, b: nat, k: nat)
    ensures Bit(Or(a, b), k) == (Bit(a, k) || Bit(b, k))
  {
    ZeroBits(k);
    if a != 0 && b != 0 {
      var o := Or(a, b);
      assert o % 2 == (if a % 2 == 1 || b % 2 == 1 then 1 else 0);
      assert o / 2 == Or(a / 2, b / 2);
      if k > 0 {
        OrBit(a / 2, b / 2, k - 1);
      }
    }
  }

  lemma {:induction false} ZeroBits(k: nat)
    ensures !Bit(0, k)
  {
    if k > 0 { ZeroBits(k - 1); }
  }

  lemma {:induction false} Pow2Bit(j: nat, k: nat)
    ensures Bit(Pow2(j), k) == (j == k)
  {
    if j == 0 {
      if k > 0 {
        assert Pow2(j) / 2 == 0;
        ZeroBits(k - 1);
      }
    } else {
      assert Pow2(j) / 2 == Pow2(j - 1) && Pow2(j) % 2 == 0;
      if k > 0 { Pow2Bit(j - 1, k - 1); }
    }
  }

  /** Or keeps a word within its width. */
  lemma {:induction false} OrBound(a: nat, b: nat, k: nat)
    requires a < Pow2(k) && b < Pow2(k)
    ensures Or(a, b) < Pow2(k)
  {
    if a != 0 && b != 0 {
      assert k > 0;
      assert Pow2(k) == 2 * Pow2(k - 1);
      OrBound(a / 2, b / 2, k - 1);
    }
  }

  /** Every bit of w below position n is set. */
  ghost predicate BitsBelowSet(w: nat, n: nat) {
    forall k: nat :: k < n ==> Bit(w, k)
  }

  /** A word whose bits all lie below n equals n ones exactly when every bit below n is set. */
  lemma {:induction false} LowBitsWord(w: nat, n: nat)
    requires forall k: nat :: Bit(w, k) ==> k < n
    ensures BitsBelowSet(w, n) <==> w == Pow2(n) - 1
  {
    if w == Pow2(n) - 1 {
      forall k: nat | k < n ensures Bit(w, k) {
        OnesBit(n, k);
      }
    } else if BitsBelowSet(w, n) {
      AllBitsSet(w, n);
    }
  }

  lemma {:induction false} OnesBit(n: nat, k: nat)
    requires k < n
    ensures Bit(Pow2(n) - 1, k)
  {
    var w := Pow2(n) - 1;
    assert w / 2 == Pow2(n - 1) - 1 && w % 2 == 1;
    if k > 0 { OnesBit(n - 1, k - 1); }
  }

  lemma {:induction false} AllBitsSet(w: nat, n: nat)
    requires forall k: nat :: Bit(w, k) <==> k < n
    ensures w == Pow2(n) - 1
  {
    if n == 0 {
      if w != 0 {
        var k := SomeBit(w);
        assert false;
      }
    } else {
      forall k: nat ensures Bit(w / 2, k) <==> k < n - 1 {
        assert Bit(w, k + 1) <==> Bit(w / 2, k);
      }
      AllBitsSet(w / 2, n - 1);
      assert Bit(w, 0);
    }
  }

  lemma {:induction false} SomeBit(w: nat) returns (k: nat)
    requires w != 0
    ensures Bit(w, k)
  {
    if w % 2 == 1 {
      k := 0;
    } else {
      k := SomeBit(w / 2);
      k := k + 1;
    }
  }

  lemma {:induction false} ShiftOnes(n: nat, k: nat)
    requires k <= n
    ensures ShiftRight(Pow2(n) - 1, k) == Pow2(n - k) - 1
  {
    if k > 0 {
      assert (Pow2(n) - 1) / 2 == Pow2(n - 1) - 1;
      ShiftOnes(n - 1, k - 1);
    }
  }

  /** Casting to an unsigned word and back gives the value, for every value that fits. */
  lemma SignedRoundTrip(i: int, bits: nat)
    requires bits in {8, 16, 32, 64}
    requires -Half(bits) <= i < Half(bits)
    ensures ToSigned(ToUnsigned(i, bits), bits) == i
  {
  }
}

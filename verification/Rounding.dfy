/** `roundup_word64_to_pow2` of 4_sem/Bit_array, on 64-bit unsigned numbers: `>>` drops low
    bits, `|` works bit by bit, and `++` and `--` wrap at 2^64. */
module Rounding {

  const TWO_64 := 0x1_0000_0000_0000_0000
  const TWO_63 := 0x8000_0000_0000_0000

  function Exp2(k: nat): (r: nat)
    ensures r >= 1
  {
    if k == 0 then 1 else 2 * Exp2(k - 1)
  }

  lemma {:induction false} Exp2Monotone(a: nat, b: nat)
    requires a <= b
    ensures Exp2(a) <= Exp2(b)
    ensures a < b ==> 2 * Exp2(a) <= Exp2(b)
  {
    if a < b { Exp2Monotone(a, b - 1); }
  }

  lemma Exp2By8(k: nat)
    ensures Exp2(k + 8) == 256 * Exp2(k)
  {
    assert Exp2(k + 4) == 16 * Exp2(k) by { assert Exp2(k + 2) == 4 * Exp2(k); }
    assert Exp2(k + 8) == 16 * Exp2(k + 4) by { assert Exp2(k + 6) == 4 * Exp2(k + 4); }
  }

  lemma WordLimits()
    ensures Exp2(63) == TWO_63 && Exp2(64) == TWO_64
  {
    Exp2By8(0);
    assert Exp2(8) == 0x100;
    Exp2By8(8);
    Exp2By8(16);
    assert Exp2(24) == 0x100_0000;
    Exp2By8(24);
    Exp2By8(32);
    assert Exp2(40) == 0x100_0000_0000;
    Exp2By8(40);
    Exp2By8(48);
    assert Exp2(56) == 0x100_0000_0000_0000;
    assert Exp2(60) == 16 * Exp2(56) by { assert Exp2(58) == 4 * Exp2(56); }
    assert Exp2(63) == 8 * Exp2(60) by { assert Exp2(62) == 4 * Exp2(60); }
  }

  // ------------------------------------------------------------------ bits of a number

  function Shr(x: nat, m: nat): nat {
    if m == 0 then x else Shr(x / 2, m - 1)
  }

  function Or(a: nat, b: nat): nat
    decreases a + b
  {
    if a == 0 && b == 0 then 0
    else 2 * Or(a / 2, b / 2) + (if a % 2 == 1 || b % 2 == 1 then 1 else 0)
  }

  predicate Bit(x: nat, k: nat) {
    if k == 0 then x % 2 == 1 else Bit(x / 2, k - 1)
  }

  lemma {:induction false} ShrBit(x: nat, m: nat, k: nat)
    ensures Bit(Shr(x, m), k) == Bit(x, k + m)
  {
    if m > 0 { ShrBit(x / 2, m - 1, k); }
  }

  lemma {:induction false} ShrBelow(x: nat, m: nat)
    ensures Shr(x, m) <= x
  {
    if m > 0 { ShrBelow(x / 2, m - 1); }
  }

  lemma {:induction false} NoBits(k: nat)
    ensures !Bit(0, k)
  {
    if k > 0 { NoBits(k - 1); }
  }

  lemma {:induction false} OrBit(a: nat, b: nat, k: nat)
    ensures Bit(Or(a, b), k) == (Bit(a, k) || Bit(b, k))
    decreases k
  {
    if a == 0 && b == 0 {
      NoBits(k);
    } else {
      assert Or(a, b) / 2 == Or(a / 2, b / 2);
      if k > 0 { OrBit(a / 2, b / 2, k - 1); }
    }
  }

  lemma {:induction false} OrBelow(a: nat, b: nat, l: nat)
    requires a < Exp2(l) && b < Exp2(l)
    ensures Or(a, b) < Exp2(l)
    decreases l
  {
    if a != 0 || b != 0 { OrBelow(a / 2, b / 2, l - 1); }
  }

  // The number of bits from the leading one down.
  function Len(w: nat): nat {
    if w == 0 then 0 else 1 + Len(w / 2)
  }

  lemma {:induction false} LenBounds(w: nat)
    ensures w < Exp2(Len(w))
    ensures w != 0 ==> Exp2(Len(w) - 1) <= w && Bit(w, Len(w) - 1)
  {
    if w != 0 { LenBounds(w / 2); }
  }

  // ------------------------------------------------------------------ the smear

  // v has ones at the m positions below position l, and nothing at l or above.
  ghost predicate TopOnes(v: nat, l: nat, m: nat) {
    v < Exp2(l) && forall k: nat :: k < l <= k + m ==> Bit(v, k)
  }

  // `word64 |= word64 >> m` doubles the run of ones below the leading one.
  lemma SmearStep(v: nat, l: nat, m: nat)
    requires TopOnes(v, l, m)
    ensures TopOnes(Or(v, Shr(v, m)), l, 2 * m)
  {
    ShrBelow(v, m);
    OrBelow(v, Shr(v, m), l);
    forall k: nat | k < l <= k + 2 * m
      ensures Bit(Or(v, Shr(v, m)), k)
    {
      OrBit(v, Shr(v, m), k);
      ShrBit(v, m, k);
    }
  }

  lemma {:induction false} AllOnes(v: nat, l: nat)
    requires v < Exp2(l) && forall k: nat :: k < l ==> Bit(v, k)
    ensures v + 1 == Exp2(l)
  {
    if l > 0 {
      forall k: nat | k < l - 1 ensures Bit(v / 2, k) { assert Bit(v, k + 1); }
      assert Bit(v, 0);
      AllOnes(v / 2, l - 1);
    }
  }

  // A word has at most 64 bits.
  lemma WordLen(w: nat)
    requires w < TWO_64
    ensures Len(w) <= 64
    ensures Len(w) == 64 <==> w >= TWO_63
  {
    WordLimits();
    LenBounds(w);
    if Len(w) > 64 { Exp2Monotone(64, Len(w) - 1); }
    if Len(w) < 64 { Exp2Monotone(Len(w), 63); }
  }

  // ------------------------------------------------------------------ rounding up

  // c is the least power of two that is at least n.
  ghost predicate LeastPow2(c: nat, n: nat) {
    exists k: nat :: c == Exp2(k) && n <= c && (k > 0 ==> Exp2(k - 1) < n)
  }

  // Every power of two that is at least n is at least c.
  lemma LeastPow2IsLeast(c: nat, n: nat, j: nat)
    requires LeastPow2(c, n) && n <= Exp2(j)
    ensures c <= Exp2(j)
  {
    var k: nat :| c == Exp2(k) && n <= c && (k > 0 ==> Exp2(k - 1) < n);
    if k <= j { Exp2Monotone(k, j); } else { Exp2Monotone(j, k - 1); }
  }

  // The value of a 64-bit sum or difference that is out of range by at most one turn.
  function Wrap(x: int): (r: nat)
    requires -TWO_64 <= x < 2 * TWO_64
    ensures r < TWO_64 && r == x % TWO_64
  {
    if x < 0 then x + TWO_64 else if x >= TWO_64 then x - TWO_64 else x
  }

  // The six lines of the smear.
  method Smear(word: nat) returns (word64: nat)
    requires word < TWO_64
    ensures word64 + 1 == Exp2(Len(word))
  {
    ghost var l := Len(word);
    WordLen(word);
    LenBounds(word);
    word64 := word;
    SmearStep(word64, l, 1);
    word64 := Or(word64, Shr(word64, 1));
    SmearStep(word64, l, 2);
    word64 := Or(word64, Shr(word64, 2));
    SmearStep(word64, l, 4);
    word64 := Or(word64, Shr(word64, 4));
    SmearStep(word64, l, 8);
    word64 := Or(word64, Shr(word64, 8));
    SmearStep(word64, l, 16);
    word64 := Or(word64, Shr(word64, 16));
    SmearStep(word64, l, 32);
    word64 := Or(word64, Shr(word64, 32));
    AllOnes(word64, l);
  }

  /** The least power of two that is at least the argument; 1 when the argument is 0 or when
      that power does not fit in 64 bits. */
  method RoundupWord64ToPow2(word: nat) returns (word64: nat)
    requires word < TWO_64
    ensures 0 < word <= TWO_63 ==> LeastPow2(word64, word)
    ensures word == 0 || word > TWO_63 ==> word64 == 1
  {
    word64 := Wrap(word - 1);
    ghost var w := word64;
    WordLen(w);
    LenBounds(w);
    word64 := Smear(word64);
    WordLimits();
    ghost var l := Len(w);
    if l < 64 { Exp2Monotone(l, 63); }
    word64 := Wrap(word64 + 1);
    word64 := word64 + (if word64 == 0 then 1 else 0);
    assert 0 < word <= TWO_63 ==> word64 == Exp2(l) && word == w + 1;
  }
}

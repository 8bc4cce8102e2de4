/** The 64-bit words of 4_sem/Bit_array: shifts one place at a time, single bits counted from
    either end of a word, the region mask, and what `__builtin_ffsll` finds. */
module Words {

  type Word = bv64

  const WORD_MAX: Word := 0xFFFF_FFFF_FFFF_FFFF
  const ALL_BUT_TOP: Word := 0x7FFF_FFFF_FFFF_FFFF

  // One place to the left and to the right, and the bits at the two ends.
  function Left(w: Word): Word { w << 1 }
  function Right(w: Word): Word { w >> 1 }
  predicate Leftmost(w: Word) { w >> 63 >= 1 }
  predicate Rightmost(w: Word) { w << 63 >= 0x8000_0000_0000_0000 }

  // `w << n`
  function Shl(w: Word, n: nat): Word
    decreases n
  {
    if n == 0 then w else Shl(Left(w), n - 1)
  }

  // `w >> n`
  function Shr(w: Word, n: nat): Word
    decreases n
  {
    if n == 0 then w else Shr(Right(w), n - 1)
  }

  // `|=`, `&= ~`, `^=` and `&=` with a mask, and the word whose ones are in neither.
  function With(w: Word, m: Word): Word { w | m }
  function Without(w: Word, m: Word): Word { w & !m }
  function Flipped(w: Word, m: Word): Word { w ^ m }
  function Both(w: Word, m: Word): Word { w & m }
  function Neither(w: Word, m: Word): Word { !(w | m) }

  // Bit p of a word, counted from the least significant.
  predicate LowBit(w: Word, p: nat)
    decreases p
  {
    if p == 0 then Rightmost(w) else LowBit(Right(w), p - 1)
  }

  // Bit p of a word, counted from the most significant.
  predicate HighBit(w: Word, p: nat)
    decreases p
  {
    if p == 0 then Leftmost(w) else HighBit(Left(w), p - 1)
  }

  // ------------------------------------------------------------------ one place

  lemma LeftWith(a: Word, b: Word)
    ensures Left(With(a, b)) == With(Left(a), Left(b))
  {
  }

  lemma LeftmostWith(a: Word, b: Word)
    ensures Leftmost(With(a, b)) <==> Leftmost(a) || Leftmost(b)
  {
  }

  lemma LeftWithout(a: Word, b: Word)
    ensures Left(Without(a, b)) == Without(Left(a), Left(b))
  {
  }

  lemma LeftmostWithout(a: Word, b: Word)
    ensures Leftmost(Without(a, b)) <==> Leftmost(a) && !Leftmost(b)
  {
  }

  lemma LeftFlipped(a: Word, b: Word)
    ensures Left(Flipped(a, b)) == Flipped(Left(a), Left(b))
  {
  }

  lemma LeftmostFlipped(a: Word, b: Word)
    ensures Leftmost(Flipped(a, b)) <==> Leftmost(a) != Leftmost(b)
  {
  }

  lemma RightWith(a: Word, b: Word)
    ensures Right(With(a, b)) == With(Right(a), Right(b))
  {
  }

  lemma RightmostWith(a: Word, b: Word)
    ensures Rightmost(With(a, b)) <==> Rightmost(a) || Rightmost(b)
  {
  }

  lemma RightWithout(a: Word, b: Word)
    ensures Right(Without(a, b)) == Without(Right(a), Right(b))
  {
  }

  lemma RightmostWithout(a: Word, b: Word)
    ensures Rightmost(Without(a, b)) <==> Rightmost(a) && !Rightmost(b)
  {
  }

  lemma RightFlipped(a: Word, b: Word)
    ensures Right(Flipped(a, b)) == Flipped(Right(a), Right(b))
  {
  }

  lemma RightmostFlipped(a: Word, b: Word)
    ensures Rightmost(Flipped(a, b)) <==> Rightmost(a) != Rightmost(b)
  {
  }

  lemma RightBoth(a: Word, b: Word)
    ensures Right(Both(a, b)) == Both(Right(a), Right(b))
  {
  }

  lemma RightmostBoth(a: Word, b: Word)
    ensures Rightmost(Both(a, b)) <==> Rightmost(a) && Rightmost(b)
  {
  }

  lemma ZeroMoves()
    ensures Left(0) == 0 && Right(0) == 0 && !Leftmost(0) && !Rightmost(0)
  {
  }

  lemma RightOfLeft(w: Word)
    ensures Right(Left(w)) == Both(w, ALL_BUT_TOP) && !Rightmost(Left(w))
  {
  }

  // ------------------------------------------------------------------ shifts

  lemma {:induction false} ShlSum(w: Word, a: nat, b: nat)
    ensures Shl(w, a + b) == Shl(Shl(w, a), b)
    decreases a
  {
    hide Left;
    if a > 0 { ShlSum(Left(w), a - 1, b); }
  }

  lemma {:induction false} ShrSum(w: Word, a: nat, b: nat)
    ensures Shr(w, a + b) == Shr(Shr(w, a), b)
    decreases a
  {
    hide Right;
    if a > 0 { ShrSum(Right(w), a - 1, b); }
  }

  lemma ShlLast(w: Word, n: nat)
    ensures Shl(w, n + 1) == Left(Shl(w, n))
  {
    hide Left;
    ShlSum(w, n, 1);
  }

  lemma {:induction false} ShlZero(n: nat)
    ensures Shl(0, n) == 0
  {
    ZeroMoves();
    if n > 0 { ShlZero(n - 1); }
  }

  lemma {:induction false} ShrZero(n: nat)
    ensures Shr(0, n) == 0
  {
    ZeroMoves();
    if n > 0 { ShrZero(n - 1); }
  }

  // ------------------------------------------------------------------ runs of ones

  // All ones stand together at the left end, or at the right end.
  predicate LeftRun(w: Word) { !w & (!w + 1) == 0 }
  predicate RightRun(w: Word) { w & (w + 1) == 0 }

  lemma RunStep(w: Word)
    ensures LeftRun(w) ==> LeftRun(Left(w)) && (Leftmost(w) || w == 0)
    ensures RightRun(w) ==> RightRun(Right(w)) && (Rightmost(w) || w == 0)
  {
  }

  lemma {:induction false} RunFromLeft(w: Word, n: nat)
    requires LeftRun(w)
    ensures LeftRun(Shl(w, n))
    decreases n
  {
    hide Left, LeftRun, RightRun, Leftmost, Rightmost;
    RunStep(w);
    if n > 0 { RunFromLeft(Left(w), n - 1); }
  }

  lemma {:induction false} RunFromRight(w: Word, n: nat)
    requires RightRun(w)
    ensures RightRun(Shr(w, n))
    decreases n
  {
    hide Right, LeftRun, RightRun, Leftmost, Rightmost;
    RunStep(w);
    if n > 0 { RunFromRight(Right(w), n - 1); }
  }

  // ------------------------------------------------------------------ bits of combined words

  lemma {:induction false} LowBitWith(a: Word, b: Word, p: nat)
    ensures LowBit(With(a, b), p) <==> LowBit(a, p) || LowBit(b, p)
    decreases p
  {
    hide Right, Rightmost, With;
    if p > 0 {
      RightWith(a, b);
      LowBitWith(Right(a), Right(b), p - 1);
    } else {
      RightmostWith(a, b);
    }
  }

  lemma {:induction false} LowBitWithout(a: Word, b: Word, p: nat)
    ensures LowBit(Without(a, b), p) <==> LowBit(a, p) && !LowBit(b, p)
    decreases p
  {
    hide Right, Rightmost, Without;
    if p > 0 {
      RightWithout(a, b);
      LowBitWithout(Right(a), Right(b), p - 1);
    } else {
      RightmostWithout(a, b);
    }
  }

  lemma {:induction false} LowBitFlipped(a: Word, b: Word, p: nat)
    ensures LowBit(Flipped(a, b), p) <==> LowBit(a, p) != LowBit(b, p)
    decreases p
  {
    hide Right, Rightmost, Flipped;
    if p > 0 {
      RightFlipped(a, b);
      LowBitFlipped(Right(a), Right(b), p - 1);
    } else {
      RightmostFlipped(a, b);
    }
  }

  lemma {:induction false} LowBitBoth(a: Word, b: Word, p: nat)
    ensures LowBit(Both(a, b), p) <==> LowBit(a, p) && LowBit(b, p)
    decreases p
  {
    hide Right, Rightmost, Both;
    if p > 0 {
      RightBoth(a, b);
      LowBitBoth(Right(a), Right(b), p - 1);
    } else {
      RightmostBoth(a, b);
    }
  }

  lemma {:induction false} HighBitWith(a: Word, b: Word, p: nat)
    ensures HighBit(With(a, b), p) <==> HighBit(a, p) || HighBit(b, p)
    decreases p
  {
    hide Left, Leftmost, With;
    if p > 0 {
      LeftWith(a, b);
      HighBitWith(Left(a), Left(b), p - 1);
    } else {
      LeftmostWith(a, b);
    }
  }

  lemma {:induction false} HighBitWithout(a: Word, b: Word, p: nat)
    ensures HighBit(Without(a, b), p) <==> HighBit(a, p) && !HighBit(b, p)
    decreases p
  {
    hide Left, Leftmost, Without;
    if p > 0 {
      LeftWithout(a, b);
      HighBitWithout(Left(a), Left(b), p - 1);
    } else {
      LeftmostWithout(a, b);
    }
  }

  lemma {:induction false} HighBitFlipped(a: Word, b: Word, p: nat)
    ensures HighBit(Flipped(a, b), p) <==> HighBit(a, p) != HighBit(b, p)
    decreases p
  {
    hide Left, Leftmost, Flipped;
    if p > 0 {
      LeftFlipped(a, b);
      HighBitFlipped(Left(a), Left(b), p - 1);
    } else {
      LeftmostFlipped(a, b);
    }
  }

  // ------------------------------------------------------------------ bits and shifts

  lemma {:induction false} HighBitShl(w: Word, n: nat, p: nat)
    ensures HighBit(Shl(w, n), p) <==> HighBit(w, n + p)
    decreases n
  {
    hide Left, Leftmost;
    if n > 0 { HighBitShl(Left(w), n - 1, p); }
  }

  lemma {:induction false} LowBitShr(w: Word, n: nat, p: nat)
    ensures LowBit(Shr(w, n), p) <==> LowBit(w, n + p)
    decreases n
  {
    hide Right, Rightmost;
    if n > 0 { LowBitShr(Right(w), n - 1, p); }
  }

  // ------------------------------------------------------------------ many places at once

  function Left4(w: Word): Word { w << 4 }
  function Left16(w: Word): Word { w << 16 }

  lemma LeftFourTimes(w: Word)
    ensures Left(Left(Left(Left(w)))) == Left4(w)
  {
  }

  lemma LeftSixteenTimes(w: Word)
    ensures Left4(Left4(Left4(Left4(w)))) == Left16(w)
  {
  }

  lemma Left16To64(w: Word)
    ensures Left16(Left16(Left16(Left16(w)))) == 0
  {
  }

  lemma Shl4(w: Word)
    ensures Shl(w, 4) == Left4(w)
  {
    hide Left, Left4;
    LeftFourTimes(w);
  }

  lemma Shl16(w: Word)
    ensures Shl(w, 16) == Left16(w)
  {
    hide Shl, Left4, Left16;
    var a := Left4(w);
    var b := Left4(a);
    Shl4(w);
    Shl4(a);
    Shl4(b);
    Shl4(Left4(b));
    ShlSum(w, 4, 4);
    ShlSum(w, 8, 4);
    ShlSum(w, 12, 4);
    LeftSixteenTimes(w);
  }

  // Nothing is left of a word after 64 places.
  lemma Shl64(w: Word, n: nat)
    requires n >= 64
    ensures Shl(w, n) == 0
  {
    hide Shl, Left16;
    var a := Left16(w);
    var b := Left16(a);
    Shl16(w);
    Shl16(a);
    Shl16(b);
    Shl16(Left16(b));
    ShlSum(w, 16, 16);
    ShlSum(w, 32, 16);
    ShlSum(w, 48, 16);
    Left16To64(w);
    ShlSum(w, 64, n - 64);
    ShlZero(n - 64);
  }

  function Right4(w: Word): Word { w >> 4 }
  function Right16(w: Word): Word { w >> 16 }

  lemma RightFourTimes(w: Word)
    ensures Right(Right(Right(Right(w)))) == Right4(w)
  {
  }

  lemma RightSixteenTimes(w: Word)
    ensures Right4(Right4(Right4(Right4(w)))) == Right16(w)
  {
  }

  lemma Right16To64(w: Word)
    ensures Right16(Right16(Right16(Right16(w)))) == 0
  {
  }

  lemma Shr4(w: Word)
    ensures Shr(w, 4) == Right4(w)
  {
    hide Right, Right4;
    RightFourTimes(w);
  }

  lemma Shr16(w: Word)
    ensures Shr(w, 16) == Right16(w)
  {
    hide Shr, Right4, Right16;
    var a := Right4(w);
    var b := Right4(a);
    Shr4(w);
    Shr4(a);
    Shr4(b);
    Shr4(Right4(b));
    ShrSum(w, 4, 4);
    ShrSum(w, 8, 4);
    ShrSum(w, 12, 4);
    RightSixteenTimes(w);
  }

  // Nothing is left of a word after 64 places.
  lemma Shr64(w: Word, n: nat)
    requires n >= 64
    ensures Shr(w, n) == 0
  {
    hide Shr, Right16;
    var a := Right16(w);
    var b := Right16(a);
    Shr16(w);
    Shr16(a);
    Shr16(b);
    Shr16(Right16(b));
    ShrSum(w, 16, 16);
    ShrSum(w, 32, 16);
    ShrSum(w, 48, 16);
    Right16To64(w);
    ShrSum(w, 64, n - 64);
    ShrZero(n - 64);
  }

  lemma {:induction false} NoOnes(p: nat)
    ensures !HighBit(0, p) && !LowBit(0, p)
  {
    hide Left, Right, Leftmost, Rightmost;
    ZeroMoves();
    if p > 0 { NoOnes(p - 1); }
  }

  lemma OnlySixtyFour(w: Word, p: nat)
    requires p >= 64
    ensures !HighBit(w, p) && !LowBit(w, p)
  {
    hide Shl, Shr, HighBit, LowBit;
    Shl64(w, p);
    Shr64(w, p);
    HighBitShl(w, p, 0);
    LowBitShr(w, p, 0);
    NoOnes(0);
  }

  // ------------------------------------------------------------------ words of ones

  // A run of ones at the left end that outlives n shifts has a one at place n.
  lemma RunBit(w: Word, n: nat)
    ensures LeftRun(w) && Shl(w, n) != 0 ==> HighBit(w, n)
    ensures RightRun(w) && Shr(w, n) != 0 ==> LowBit(w, n)
  {
    hide Shl, Shr, Left, Right, Leftmost, Rightmost, LeftRun, RightRun;
    if LeftRun(w) {
      RunFromLeft(w, n);
      RunStep(Shl(w, n));
      HighBitShl(w, n, 0);
    }
    if RightRun(w) {
      RunFromRight(w, n);
      RunStep(Shr(w, n));
      LowBitShr(w, n, 0);
    }
  }

  lemma LeftLastPlaces()
    ensures Shl(0xF000_0000_0000_0000, 3) != 0
  {
    var a := Left(0xF000_0000_0000_0000);
    var b := Left(a);
    assert Shl(0xF000_0000_0000_0000, 3) == Shl(b, 1);
  }

  lemma LeftLastWord()
    ensures Shl(0xFFFF_0000_0000_0000, 15) != 0
  {
    hide Shl, Left;
    Shl4(0xFFFF_0000_0000_0000);
    Shl4(0xFFF0_0000_0000_0000);
    Shl4(0xFF00_0000_0000_0000);
    ShlSum(0xFFFF_0000_0000_0000, 4, 4);
    ShlSum(0xFFFF_0000_0000_0000, 8, 4);
    ShlSum(0xFFFF_0000_0000_0000, 12, 3);
    LeftLastPlaces();
  }

  // WORD_MAX outlives 63 shifts to the left.
  lemma LeftLast()
    ensures Shl(WORD_MAX, 63) != 0
  {
    hide Shl, Left;
    Shl16(WORD_MAX);
    Shl16(0xFFFF_FFFF_FFFF_0000);
    Shl16(0xFFFF_FFFF_0000_0000);
    ShlSum(WORD_MAX, 16, 16);
    ShlSum(WORD_MAX, 32, 16);
    ShlSum(WORD_MAX, 48, 15);
    LeftLastWord();
  }

  lemma RightLastPlaces()
    ensures Shr(0x7, 2) != 0
  {
    var a := Right(0x7);
    var b := Right(a);
    assert Shr(0x7, 2) == Shr(b, 0);
  }

  lemma RightLastWord()
    ensures Shr(0x7FFF, 14) != 0
  {
    hide Shr, Right;
    Shr4(0x7FFF);
    Shr4(0x7FF);
    Shr4(0x7F);
    ShrSum(0x7FFF, 4, 4);
    ShrSum(0x7FFF, 8, 4);
    ShrSum(0x7FFF, 12, 2);
    RightLastPlaces();
  }

  // ALL_BUT_TOP outlives 62 shifts to the right.
  lemma RightLast()
    ensures Shr(ALL_BUT_TOP, 62) != 0
  {
    hide Shr, Right;
    Shr16(ALL_BUT_TOP);
    Shr16(0x7FFF_FFFF_FFFF);
    Shr16(0x7FFF_FFFF);
    ShrSum(ALL_BUT_TOP, 16, 16);
    ShrSum(ALL_BUT_TOP, 32, 16);
    ShrSum(ALL_BUT_TOP, 48, 14);
    RightLastWord();
  }

  lemma AllLeft(p: nat)
    ensures HighBit(WORD_MAX, p) <==> p < 64
  {
    hide Shl, HighBit;
    if p < 64 {
      LeftLast();
      ShlSum(WORD_MAX, p, 63 - p);
      ShlZero(63 - p);
      RunBit(WORD_MAX, p);
    } else {
      OnlySixtyFour(WORD_MAX, p);
    }
  }

  lemma AllRight(p: nat)
    requires p < 63
    ensures LowBit(ALL_BUT_TOP, p)
  {
    hide Shr, LowBit;
    RightLast();
    ShrSum(ALL_BUT_TOP, p, 62 - p);
    ShrZero(62 - p);
    RunBit(ALL_BUT_TOP, p);
  }

  // ------------------------------------------------------------------ the two ends meet

  lemma LowBitLeft(w: Word, p: nat)
    requires p < 64
    ensures LowBit(Left(w), p) <==> p > 0 && LowBit(w, p - 1)
  {
    hide Left, Right, Both, Rightmost;
    RightOfLeft(w);
    if p > 0 {
      LowBitBoth(w, ALL_BUT_TOP, p - 1);
      AllRight(p - 1);
    }
  }

  lemma ShlNothing(w: Word)
    ensures Shl(w, 0) == w && Shr(w, 0) == w
  {
  }

  // A shift to the left moves bits away from the least significant end.
  lemma {:induction false} LowBitShl(w: Word, n: nat, p: nat)
    requires p < 64
    ensures LowBit(Shl(w, n), p) <==> p >= n && LowBit(w, p - n)
    decreases n
  {
    hide Left, Shl, LowBit;
    if n > 0 {
      ShlLast(w, n - 1);
      LowBitLeft(Shl(w, n - 1), p);
      if p > 0 { LowBitShl(w, n - 1, p - 1); }
    } else {
      ShlNothing(w);
    }
  }

  lemma Shr15(w: Word)
    ensures Shr(w, 15) == Right(Right(Right(Right4(Right4(Right4(w))))))
  {
    hide Right4, Right;
    Shr4(w);
    Shr4(Right4(w));
    Shr4(Right4(Right4(w)));
    ShrSum(w, 4, 4);
    ShrSum(w, 8, 4);
    ShrSum(w, 12, 3);
  }

  lemma BitZero(w: Word)
    ensures LowBit(w, 0) <==> Rightmost(w)
  {
  }

  lemma TopMoved(w: Word)
    ensures Rightmost(Right(Right(Right(Right4(Right4(Right4(Right16(Right16(Right16(w)))))))))) <==> Leftmost(w)
  {
  }

  lemma LastIsTop(w: Word)
    ensures LowBit(w, 63) <==> Leftmost(w)
  {
    hide Shr, LowBit, Leftmost, Right16, Right4, Right;
    var a := Right16(Right16(Right16(w)));
    Shr16(w);
    Shr16(Right16(w));
    Shr16(Right16(Right16(w)));
    ShrSum(w, 16, 16);
    ShrSum(w, 32, 16);
    ShrSum(w, 48, 15);
    Shr15(a);
    LowBitShr(w, 63, 0);
    TopMoved(w);
    BitZero(Right(Right(Right(Right4(Right4(Right4(a)))))));
  }

  // Bit p from the top is bit 63 - p from the bottom.
  lemma {:induction false} HighIsLow(w: Word, p: nat)
    requires p < 64
    ensures HighBit(w, p) <==> LowBit(w, 63 - p)
    decreases p
  {
    hide Left, LowBit;
    if p > 0 {
      HighIsLow(Left(w), p - 1);
      LowBitLeft(w, 64 - p);
    } else {
      LastIsTop(w);
    }
  }

  // ------------------------------------------------------------------ masks

  function BitMask64(length: nat): Word
    requires length <= 64
  {
    if length != 0 then Shl(WORD_MAX, 64 - length) else 0
  }

  // The mask has ones at the first `length` positions from the most significant bit.
  lemma MaskBits(length: nat, p: nat)
    requires length <= 64
    ensures HighBit(BitMask64(length), p) <==> p < length
  {
    hide Shl, HighBit;
    if length > 0 {
      HighBitShl(WORD_MAX, 64 - length, p);
      AllLeft(64 - length + p);
    } else {
      NoOnes(p);
    }
  }

  // Shifted towards the most significant end, a mask loses ones at its own end.
  lemma ShiftedMaskBits(length: nat, offset: nat, p: nat)
    requires length <= 64
    ensures HighBit(Shl(BitMask64(length), offset), p) <==> p + offset < length
  {
    hide Shl, HighBit, BitMask64;
    HighBitShl(BitMask64(length), offset, p);
    MaskBits(length, offset + p);
  }

  // `~bit_mask_64 (length)`
  function RestMask64(length: nat): Word
    requires length <= 64
  {
    Without(WORD_MAX, BitMask64(length))
  }

  lemma RestBits(length: nat, p: nat)
    requires length <= 64 && p < 64
    ensures HighBit(RestMask64(length), p) <==> p >= length
  {
    hide HighBit, BitMask64, Without;
    HighBitWithout(WORD_MAX, BitMask64(length), p);
    AllLeft(p);
    MaskBits(length, p);
  }

  // Seen from the least significant bit, the mask leaves out the first 64 - length positions.
  lemma MaskLowBits(length: nat, p: nat)
    requires length <= 64 && p < 64
    ensures LowBit(BitMask64(length), p) <==> p >= 64 - length
  {
    hide HighBit, LowBit, BitMask64;
    HighIsLow(BitMask64(length), 63 - p);
    MaskBits(length, 63 - p);
  }

  lemma NeitherIsWithout(a: Word, b: Word)
    ensures Neither(a, b) == Without(Without(WORD_MAX, a), b)
  {
  }

  lemma LowBitNeither(a: Word, b: Word, p: nat)
    requires p < 64
    ensures LowBit(Neither(a, b), p) <==> !LowBit(a, p) && !LowBit(b, p)
  {
    hide HighBit, LowBit, Without, Neither;
    NeitherIsWithout(a, b);
    LowBitWithout(WORD_MAX, a, p);
    LowBitWithout(Without(WORD_MAX, a), b, p);
    HighIsLow(WORD_MAX, 63 - p);
    AllLeft(63 - p);
  }

  // ------------------------------------------------------------------ the lowest set bit

  lemma EvenHalf(w: Word)
    requires w != 0 && !Rightmost(w)
    ensures Right(w) != 0 && Right(w) < w
  {
  }

  // `__builtin_ffsll (w) - 1` for a word that is not zero.
  function LowestBit(w: Word): nat
    requires w != 0
  {
    if Rightmost(w) then 0 else EvenHalf(w); 1 + LowestBit(Right(w))
  }

  lemma {:induction false} LowestBitIsFirst(w: Word)
    requires w != 0
    ensures LowBit(w, LowestBit(w))
    ensures forall q: nat :: q < LowestBit(w) ==> !LowBit(w, q)
    decreases LowestBit(w)
  {
    hide Right, Rightmost;
    if !Rightmost(w) {
      EvenHalf(w);
      LowestBitIsFirst(Right(w));
    }
  }

  lemma LowestBitIsLowest(w: Word)
    requires w != 0
    ensures LowestBit(w) < 64 && LowBit(w, LowestBit(w))
    ensures forall q: nat :: q < LowestBit(w) ==> !LowBit(w, q)
  {
    LowestBitIsFirst(w);
    if LowestBit(w) >= 64 { OnlySixtyFour(w, LowestBit(w)); }
  }

  // ------------------------------------------------------------------ a single bit

  lemma OnlyFirst(p: nat)
    ensures LowBit(1, p) <==> p == 0
  {
    assert Right(1) == 0 && Rightmost(1);
    if p > 0 { NoOnes(p - 1); }
  }

  lemma OneBit(off: nat, p: nat)
    requires p < 64
    ensures LowBit(Shl(1, off), p) <==> p == off
  {
    hide Shl, LowBit;
    LowBitShl(1, off, p);
    if p >= off { OnlyFirst(p - off); }
  }

  // Testing a word against one bit reads that bit.
  lemma AndOneBit(w: Word, off: nat)
    requires off < 64
    ensures Both(w, Shl(1, off)) != 0 <==> LowBit(w, off)
  {
    hide Shl, LowBit, Both;
    var m := Both(w, Shl(1, off));
    if m != 0 {
      var p := LowestBit(m);
      LowestBitIsLowest(m);
      LowBitBoth(w, Shl(1, off), p);
      OneBit(off, p);
    } else {
      LowBitBoth(w, Shl(1, off), off);
      OneBit(off, off);
      NoOnes(off);
    }
  }
}

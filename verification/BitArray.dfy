/** 4_sem/Bit_array/bit_array.c: a growing array of bits in 64-bit words. Single-bit calls and
    the find calls count bits from the least significant bit of a word, region calls from the
    most significant one. Allocation is taken to succeed. */
module BitArray {
  import opened Words
  import opened Rounding
  import opened Utils

  const WORD_SIZE: nat := 64
  const MIN_CAPACITY: nat := 2

  // Above this the rounding to words wraps around.
  const MAX_BITS: nat := TWO_64 - 64

  // ROUNDUP_BITS_TO_WORDS in 64-bit arithmetic.
  function RoundupBitsToWords(bits: nat): nat
    requires bits < TWO_64
  {
    Wrap(bits + WORD_SIZE - 1) / WORD_SIZE
  }

  // As many words as the bits need and no more; past the limit the sum wraps to no words at all.
  lemma WordsForBits(bits: nat)
    requires bits < TWO_64
    ensures bits <= MAX_BITS ==> bits <= 64 * RoundupBitsToWords(bits) < bits + 64
    ensures bits > MAX_BITS ==> RoundupBitsToWords(bits) == 0
  {
  }

  // max (2, least power of two >= words)
  ghost predicate IsCapacity(c: nat, words: nat) {
    if words <= MIN_CAPACITY then c == MIN_CAPACITY else LeastPow2(c, words)
  }

  // ------------------------------------------------------------------ regions

  // The one mask of a region operation, word by word.
  function RegionMask(start: nat, length: nat, i: nat): Word {
    if length == 0 then 0 else
      var firstWord, firstOffset := start / 64, start % 64;
      var lastWord, lastOffset := (start + length - 1) / 64, (start + length - 1) % 64;
      if firstWord == lastWord then
        if i == firstWord then Shl(BitMask64(length), firstOffset) else 0
      else if i == firstWord then RestMask64(firstOffset)
      else if firstWord < i < lastWord then WORD_MAX
      else if i == lastWord then BitMask64(lastOffset + 1)
      else 0
  }

  lemma EmptyMask(start: nat)
    ensures forall i: nat :: RegionMask(start, 0, i) == 0
  {
  }

  // The mask of each word of a region that is not empty.
  lemma MaskWords(start: nat, length: nat)
    requires length > 0
    ensures var first, last := start / 64, (start + length - 1) / 64;
            && first <= last && 64 * last < start + length
            && (forall i: nat :: i < first || i > last ==> RegionMask(start, length, i) == 0)
            && (first == last ==> RegionMask(start, length, first) == Shl(BitMask64(length), start % 64))
            && (first < last ==>
                  && RegionMask(start, length, first) == RestMask64(start % 64)
                  && (forall i :: first < i < last ==> RegionMask(start, length, i) == WORD_MAX)
                  && RegionMask(start, length, last) == BitMask64((start + length - 1) % 64 + 1))
  {
    hide Shl, BitMask64, RestMask64;
  }

  // The region lies in one word and does not start where the word does.
  predicate Misplaced(start: nat, length: nat) {
    length > 0 && start / 64 == (start + length - 1) / 64 && start % 64 != 0
  }

  // Whether the mask covers bit j, counting from the most significant bit of each word.
  predicate Covered(start: nat, length: nat, j: nat) {
    HighBit(RegionMask(start, length, j / 64), j % 64)
  }

  // A region that spans several words is covered exactly.
  lemma SpanningBits(start: nat, length: nat, j: nat)
    requires length > 0 && start / 64 != (start + length - 1) / 64
    ensures Covered(start, length, j) <==> start <= j < start + length
  {
    hide HighBit, BitMask64, RestMask64, Shl;
    NoOnes(j % 64);
    AllLeft(j % 64);
    RestBits(start % 64, j % 64);
    MaskBits((start + length - 1) % 64 + 1, j % 64);
  }

  // In a single word the mask is moved away from the bits it should cover.
  lemma SingleWordBits(start: nat, length: nat, j: nat)
    requires length > 0 && start / 64 == (start + length - 1) / 64
    ensures Covered(start, length, j) <==> j / 64 == start / 64 && j % 64 + start % 64 < length
  {
    hide HighBit, BitMask64, Shl;
    NoOnes(j % 64);
    ShiftedMaskBits(length, start % 64, j % 64);
  }

  lemma RegionBits(start: nat, length: nat, j: nat)
    requires !Misplaced(start, length)
    ensures Covered(start, length, j) <==> start <= j < start + length
  {
    if length == 0 {
      NoOnes(j % 64);
    } else if start / 64 == (start + length - 1) / 64 {
      SingleWordBits(start, length, j);
    } else {
      SpanningBits(start, length, j);
    }
  }

  /** The mask of a region is exactly its bits, counted from the most significant bit of each
      word, if and only if the region is empty, spans several words, or starts a word. */
  lemma RegionMaskExactIff(start: nat, length: nat)
    ensures (forall j: nat :: Covered(start, length, j) <==> start <= j < start + length)
       <==> !Misplaced(start, length)
  {
    hide Covered;
    if Misplaced(start, length) {
      SingleWordBits(start, length, start + length - 1);
      assert !Covered(start, length, start + length - 1);
    } else {
      forall j: nat ensures Covered(start, length, j) <==> start <= j < start + length {
        RegionBits(start, length, j);
      }
    }
  }

  // The same in the numbering of the single-bit calls: from the least significant bit.
  predicate LowCovered(start: nat, length: nat, j: nat) {
    LowBit(RegionMask(start, length, j / 64), j % 64)
  }

  // The bit that the other numbering gives the same number.
  function Mirror(j: nat): nat { j / 64 * 64 + (63 - j % 64) }

  lemma LowIsMirror(start: nat, length: nat, j: nat)
    ensures LowCovered(start, length, j) <==> Covered(start, length, Mirror(j))
  {
    hide RegionMask, LowBit, HighBit;
    assert Mirror(j) / 64 == j / 64 && Mirror(j) % 64 == 63 - j % 64;
    HighIsLow(RegionMask(start, length, j / 64), 63 - j % 64);
  }

  // A bit on which a region that is not made of whole words differs between the numberings.
  function OddBit(start: nat, length: nat): nat
    requires length > 0
  {
    if Misplaced(start, length) then start
    else if start % 64 != 0 then start / 64 * 64
    else (start + length - 1) / 64 * 64
  }

  lemma OddBitDiffers(start: nat, length: nat)
    requires length > 0 && (start % 64 != 0 || (start + length) % 64 != 0)
    ensures var j := OddBit(start, length); LowCovered(start, length, j) != (start <= j < start + length)
  {
    hide Covered, LowCovered;
    var j := OddBit(start, length);
    LowIsMirror(start, length, j);
    if Misplaced(start, length) {
      SingleWordBits(start, length, Mirror(j));
    } else {
      RegionBits(start, length, Mirror(j));
    }
  }

  /** The region calls and the single-bit calls mean the same bits by a region if and only if it
      is empty or made of whole words. */
  lemma SameNumberingIff(start: nat, length: nat)
    ensures (forall j: nat :: LowCovered(start, length, j) <==> start <= j < start + length)
       <==> length == 0 || (start % 64 == 0 && (start + length) % 64 == 0)
  {
    hide Covered, LowCovered;
    if length == 0 || (start % 64 == 0 && (start + length) % 64 == 0) {
      forall j: nat ensures LowCovered(start, length, j) <==> start <= j < start + length {
        LowIsMirror(start, length, j);
        RegionBits(start, length, Mirror(j));
      }
    } else {
      OddBitDiffers(start, length);
    }
  }

  // ------------------------------------------------------------------ what the regions do

  predicate HighAt(words: seq<Word>, j: nat)
    requires j / 64 < |words|
  {
    HighBit(words[j / 64], j % 64)
  }

  ghost predicate SetBy(was: seq<Word>, now: seq<Word>, start: nat, length: nat) {
    |now| == |was| && forall i :: 0 <= i < |was| ==> now[i] == With(was[i], RegionMask(start, length, i))
  }

  ghost predicate ClearedBy(was: seq<Word>, now: seq<Word>, start: nat, length: nat) {
    |now| == |was| && forall i :: 0 <= i < |was| ==> now[i] == Without(was[i], RegionMask(start, length, i))
  }

  ghost predicate ToggledBy(was: seq<Word>, now: seq<Word>, start: nat, length: nat) {
    |now| == |was| && forall i :: 0 <= i < |was| ==> now[i] == Flipped(was[i], RegionMask(start, length, i))
  }

  lemma NoMask(w: Word)
    ensures With(w, 0) == w && Without(w, 0) == w && Flipped(w, 0) == w
  {
  }

  // Words past the region stay as they were.
  lemma OutsideRegion(was: seq<Word>, now: seq<Word>, start: nat, length: nat, from: nat)
    requires SetBy(was, now, start, length) || ClearedBy(was, now, start, length) || ToggledBy(was, now, start, length)
    requires start + length <= 64 * from
    ensures forall i :: from <= i < |was| ==> now[i] == was[i]
  {
    hide With, Without, Flipped, Shl, BitMask64, RestMask64;
    forall i | from <= i < |was| ensures now[i] == was[i] {
      NoMask(was[i]);
    }
  }

  // Setting a region is union with it.
  lemma SetIsUnion(was: seq<Word>, now: seq<Word>, start: nat, length: nat, j: nat)
    requires j / 64 < |was| && !Misplaced(start, length) && SetBy(was, now, start, length)
    ensures HighAt(now, j) <==> HighAt(was, j) || start <= j < start + length
  {
    hide HighBit, RegionMask, With;
    RegionBits(start, length, j);
    HighBitWith(was[j / 64], RegionMask(start, length, j / 64), j % 64);
  }

  // Clearing a region is difference.
  lemma ClearIsDifference(was: seq<Word>, now: seq<Word>, start: nat, length: nat, j: nat)
    requires j / 64 < |was| && !Misplaced(start, length) && ClearedBy(was, now, start, length)
    ensures HighAt(now, j) <==> HighAt(was, j) && !(start <= j < start + length)
  {
    hide HighBit, RegionMask, Without;
    RegionBits(start, length, j);
    HighBitWithout(was[j / 64], RegionMask(start, length, j / 64), j % 64);
  }

  // Toggling a region is symmetric difference.
  lemma ToggleIsSymmetricDifference(was: seq<Word>, now: seq<Word>, start: nat, length: nat, j: nat)
    requires j / 64 < |was| && !Misplaced(start, length) && ToggledBy(was, now, start, length)
    ensures HighAt(now, j) <==> HighAt(was, j) != (start <= j < start + length)
  {
    hide HighBit, RegionMask, Flipped;
    RegionBits(start, length, j);
    HighBitFlipped(was[j / 64], RegionMask(start, length, j / 64), j % 64);
  }

  // What each region call is meant to do with any words.
  ghost predicate SetsRegion(was: seq<Word>, now: seq<Word>, start: nat, length: nat)
    requires |now| == |was|
  {
    forall j: nat :: j / 64 < |was| ==> (HighAt(now, j) <==> HighAt(was, j) || start <= j < start + length)
  }

  ghost predicate ClearsRegion(was: seq<Word>, now: seq<Word>, start: nat, length: nat)
    requires |now| == |was|
  {
    forall j: nat :: j / 64 < |was| ==> (HighAt(now, j) <==> HighAt(was, j) && !(start <= j < start + length))
  }

  ghost predicate TogglesRegion(was: seq<Word>, now: seq<Word>, start: nat, length: nat)
    requires |now| == |was|
  {
    forall j: nat :: j / 64 < |was| ==> (HighAt(now, j) <==> HighAt(was, j) != (start <= j < start + length))
  }

  // The last bit of a misplaced region is not in its mask.
  lemma LastBitMissed(start: nat, length: nat)
    requires Misplaced(start, length)
    ensures !Covered(start, length, start + length - 1)
  {
    hide Covered;
    SingleWordBits(start, length, start + length - 1);
  }

  /** Setting a region does what it should to every array if and only if the region is not
      misplaced; the same for clearing and toggling. */
  lemma SetRegionRightIff(start: nat, length: nat)
    ensures (forall was, now :: SetBy(was, now, start, length) ==> SetsRegion(was, now, start, length))
       <==> !Misplaced(start, length)
  {
    hide RegionMask, HighBit, With;
    if Misplaced(start, length) {
      var j := start + length - 1;
      var was: seq<Word> := seq(j / 64 + 1, i => 0);
      var now := seq(j / 64 + 1, i requires 0 <= i => With(0, RegionMask(start, length, i)));
      LastBitMissed(start, length);
      HighBitWith(0, RegionMask(start, length, j / 64), j % 64);
      NoOnes(j % 64);
      assert SetBy(was, now, start, length) && HighAt(now, j) == HighAt(was, j) == false;
      assert !SetsRegion(was, now, start, length);
    } else {
      forall was, now | SetBy(was, now, start, length) ensures SetsRegion(was, now, start, length) {
        forall j: nat | j / 64 < |was| { SetIsUnion(was, now, start, length, j); }
      }
    }
  }

  lemma ClearRegionRightIff(start: nat, length: nat)
    ensures (forall was, now :: ClearedBy(was, now, start, length) ==> ClearsRegion(was, now, start, length))
       <==> !Misplaced(start, length)
  {
    hide RegionMask, HighBit, Without;
    if Misplaced(start, length) {
      var j := start + length - 1;
      var was: seq<Word> := seq(j / 64 + 1, i => WORD_MAX);
      var now := seq(j / 64 + 1, i requires 0 <= i => Without(WORD_MAX, RegionMask(start, length, i)));
      LastBitMissed(start, length);
      HighBitWithout(WORD_MAX, RegionMask(start, length, j / 64), j % 64);
      AllLeft(j % 64);
      assert ClearedBy(was, now, start, length) && HighAt(now, j) == HighAt(was, j) == true;
      assert !ClearsRegion(was, now, start, length);
    } else {
      forall was, now | ClearedBy(was, now, start, length) ensures ClearsRegion(was, now, start, length) {
        forall j: nat | j / 64 < |was| { ClearIsDifference(was, now, start, length, j); }
      }
    }
  }

  lemma ToggleRegionRightIff(start: nat, length: nat)
    ensures (forall was, now :: ToggledBy(was, now, start, length) ==> TogglesRegion(was, now, start, length))
       <==> !Misplaced(start, length)
  {
    hide RegionMask, HighBit, Flipped;
    if Misplaced(start, length) {
      var j := start + length - 1;
      var was: seq<Word> := seq(j / 64 + 1, i => 0);
      var now := seq(j / 64 + 1, i requires 0 <= i => Flipped(0, RegionMask(start, length, i)));
      LastBitMissed(start, length);
      HighBitFlipped(0, RegionMask(start, length, j / 64), j % 64);
      NoOnes(j % 64);
      assert ToggledBy(was, now, start, length) && HighAt(now, j) == HighAt(was, j) == false;
      assert !TogglesRegion(was, now, start, length);
    } else {
      forall was, now | ToggledBy(was, now, start, length) ensures TogglesRegion(was, now, start, length) {
        forall j: nat | j / 64 < |was| { ToggleIsSymmetricDifference(was, now, start, length, j); }
      }
    }
  }

  lemma FlippedTwice(w: Word, m: Word)
    ensures Flipped(Flipped(w, m), m) == w
  {
  }

  // Toggling any region twice gives the words back.
  lemma ToggleTwice(was: seq<Word>, mid: seq<Word>, now: seq<Word>, start: nat, length: nat)
    requires ToggledBy(was, mid, start, length) && ToggledBy(mid, now, start, length)
    ensures now == was
  {
    hide Flipped, RegionMask;
    forall i | 0 <= i < |was| ensures now[i] == was[i] {
      FlippedTwice(was[i], RegionMask(start, length, i));
    }
  }

  lemma FullMask(w: Word)
    ensures With(w, WORD_MAX) == WORD_MAX && Without(w, WORD_MAX) == 0
  {
  }

  lemma BothIsWithoutRest(w: Word, m: Word)
    ensures Both(w, m) == Without(w, Without(WORD_MAX, m))
  {
  }

  // `&= mask` is what `&= ~` does with the rest mask.
  lemma BothIsWithout(w: Word, offset: nat)
    requires offset <= 64
    ensures Both(w, BitMask64(offset)) == Without(w, RestMask64(offset))
  {
    hide BitMask64;
    BothIsWithoutRest(w, BitMask64(offset));
  }

  // ------------------------------------------------------------------ single bits

  /** The int literal in `1 << (index % WORD_SIZE)`: the single bit for offsets below 31; from
      31 on the C expression has no defined value, and `undefined` stands for what comes out. */
  function SingleMask(index: nat, undefined: Word): Word {
    if index % 64 < 31 then Shl(1, index % 64) else undefined
  }

  // Bit j counted from the least significant bit of each word.
  predicate LowAt(words: seq<Word>, j: nat)
    requires j / 64 < |words|
  {
    LowBit(words[j / 64], j % 64)
  }

  // ------------------------------------------------------------------ the search

  /** What a search from `start` looks at: later words whole, and of the first word all but
      the `start % 64` most significant bits (the mask clears the wrong end). */
  predicate Candidate(start: nat, j: nat) {
    j / 64 > start / 64 || (j / 64 == start / 64 && j % 64 < 64 - start % 64)
  }

  // From a word boundary the search looks at exactly the bits from start on, and only then.
  lemma CandidatesIff(start: nat)
    ensures (forall j: nat :: Candidate(start, j) <==> j >= start) <==> start % 64 == 0
  {
    if start % 64 != 0 {
      assert !Candidate(start, start / 64 * 64 + 63);
      assert start / 64 * 64 + 63 >= start;
    } else {
      forall j: nat ensures Candidate(start, j) <==> j >= start {}
    }
  }

  // The bit a search for set (or clear) bits is after.
  predicate Hit(words: seq<Word>, j: nat, wanted: bool)
    requires j / 64 < |words|
  {
    LowAt(words, j) == wanted
  }

  // The mask of the first word; the other words are searched whole.
  function MaskAt(start: nat, i: nat): Word {
    if i == start / 64 then BitMask64(start % 64) else 0
  }

  // The word in which the search looks for a one.
  function Masked(words: seq<Word>, start: nat, i: nat, wanted: bool): Word
    requires i < |words|
  {
    if wanted then Without(words[i], MaskAt(start, i)) else Neither(words[i], MaskAt(start, i))
  }

  lemma MaskAtBits(start: nat, j: nat)
    requires j / 64 >= start / 64
    ensures LowBit(MaskAt(start, j / 64), j % 64) <==> !Candidate(start, j)
  {
    hide LowBit, BitMask64;
    NoOnes(j % 64);
    MaskLowBits(start % 64, j % 64);
  }

  // It has a one exactly where a candidate is a hit.
  lemma MaskedBits(words: seq<Word>, start: nat, j: nat, wanted: bool)
    requires j / 64 < |words| && j / 64 >= start / 64
    ensures LowBit(Masked(words, start, j / 64, wanted), j % 64)
       <==> Candidate(start, j) && Hit(words, j, wanted)
  {
    hide LowBit, MaskAt, Candidate, Without, Neither;
    if wanted {
      LowBitWithout(words[j / 64], MaskAt(start, j / 64), j % 64);
    } else {
      LowBitNeither(words[j / 64], MaskAt(start, j / 64), j % 64);
    }
    MaskAtBits(start, j);
  }

  // No candidate hit below a word boundary.
  ghost predicate NoneBelow(words: seq<Word>, start: nat, wanted: bool, limit: nat) {
    forall j: nat :: j < limit && j / 64 < |words| && Candidate(start, j) ==> !Hit(words, j, wanted)
  }

  // What the lowest one of the word searched says about the bits of that word.
  lemma LowestHit(words: seq<Word>, start: nat, i: nat, wanted: bool)
    requires start / 64 <= i < |words| && NoneBelow(words, start, wanted, 64 * i)
    ensures Masked(words, start, i, wanted) == 0 ==> NoneBelow(words, start, wanted, 64 * (i + 1))
    ensures Masked(words, start, i, wanted) != 0 ==>
              var j := 64 * i + LowestBit(Masked(words, start, i, wanted));
              && j / 64 == i && Candidate(start, j) && Hit(words, j, wanted)
              && NoneBelow(words, start, wanted, j)
  {
    hide LowBit, Masked, Hit, Candidate, LowestBit;
    var w := Masked(words, start, i, wanted);
    var low := if w == 0 then 64 else LowestBit(w);
    if w != 0 {
      LowestBitIsLowest(w);
      MaskedBits(words, start, 64 * i + low, wanted);
    }
    forall j: nat | j < 64 * i + low && j / 64 < |words| && Candidate(start, j)
      ensures !Hit(words, j, wanted)
    {
      if j >= 64 * i {
        MaskedBits(words, start, j, wanted);
        NoOnes(j % 64);
      }
    }
  }

  lemma NothingBefore(words: seq<Word>, start: nat, wanted: bool)
    ensures NoneBelow(words, start, wanted, 64 * (start / 64))
  {
  }

  lemma NeitherZero(w: Word)
    ensures Neither(w, 0) == !w
  {
  }

  // The answer of a search below the end.
  ghost predicate IsFirst(words: seq<Word>, start: nat, end: nat, wanted: bool, j: nat) {
    && j < end && j / 64 < |words| && Candidate(start, j) && Hit(words, j, wanted)
    && NoneBelow(words, start, wanted, j)
  }

  /** From a word boundary, what a search answers is the least bit in [start, end) that is set
      (or clear), and it answers nothing exactly when there is none. */
  lemma AlignedSearch(words: seq<Word>, start: nat, end: nat, wanted: bool, j: nat)
    requires start % 64 == 0 && end <= 64 * |words|
    ensures IsFirst(words, start, end, wanted, j)
       <==> start <= j < end && Hit(words, j, wanted)
            && (forall k: nat :: start <= k < j ==> !Hit(words, k, wanted))
    ensures NoneBelow(words, start, wanted, end)
       <==> (forall k: nat :: start <= k < end ==> !Hit(words, k, wanted))
  {
    hide Hit;
    CandidatesIff(start);
  }

  // The answers of a search are those of a search of [start, end).
  ghost predicate SearchRight(words: seq<Word>, start: nat, end: nat, wanted: bool)
    requires end <= 64 * |words|
  {
    forall j: nat ::
      IsFirst(words, start, end, wanted, j) <==>
      start <= j < end && Hit(words, j, wanted) && (forall k: nat :: start <= k < j ==> !Hit(words, k, wanted))
  }

  // One word that has a hit only below an unaligned start.
  lemma UnalignedSearchWrong(start: nat, wanted: bool) returns (words: seq<Word>)
    requires start % 64 != 0
    ensures start < 64 * |words| && !SearchRight(words, start, 64 * |words|, wanted)
  {
    hide LowBit, Neither;
    var w, j := if wanted then 1 as Word else Neither(1, 0), start / 64 * 64;
    words := seq(start / 64 + 1, _ => w);
    LowBitNeither(1, 0, 0);
    OnlyFirst(0);
    NoOnes(0);
    assert Hit(words, j, wanted) && Candidate(start, j);
    assert NoneBelow(words, start, wanted, j);
    assert IsFirst(words, start, 64 * |words|, wanted, j);
  }

  /** A search from `start` is right for every array and every size if and only if it starts
      at a word boundary. */
  lemma SearchRightIff(start: nat, wanted: bool)
    ensures (forall words: seq<Word>, end: nat ::
               start <= end <= 64 * |words| ==> SearchRight(words, start, end, wanted))
       <==> start % 64 == 0
  {
    if start % 64 != 0 {
      var words := UnalignedSearchWrong(start, wanted);
      assert !SearchRight(words, start, 64 * |words|, wanted);
    } else {
      forall words: seq<Word>, end: nat | start <= end <= 64 * |words|
        ensures SearchRight(words, start, end, wanted)
      {
        forall j: nat { AlignedSearch(words, start, end, wanted, j); }
      }
    }
  }

  // ------------------------------------------------------------------ the value of an array

  // The size in bits and the words up to the capacity.
  datatype Image = BitImage(bits: nat, words: seq<Word>)

  // A single-bit call; `undefined` is what the C shift yields for an offset from 31 on.
  datatype Op =
    | Set(index: nat, undefined: Word)
    | Clear(index: nat, undefined: Word)
    | Toggle(index: nat, undefined: Word)
    | Get(index: nat, undefined: Word)

  ghost predicate Sound(s: Image) {
    && s.bits <= MAX_BITS
    && IsCapacity(|s.words|, RoundupBitsToWords(s.bits))
    && (forall i :: RoundupBitsToWords(s.bits) <= i < |s.words| ==> s.words[i] == 0)
  }

  // The words after a change of size: those kept, and zeros.
  function Resized(was: seq<Word>, keep: nat, capacity: nat): seq<Word>
    requires keep <= |was|
  {
    seq(capacity, i requires 0 <= i < capacity => if i < keep then was[i] else 0)
  }

  function Pow2From(k: nat, n: nat): nat
    decreases n - Exp2(k)
  {
    if Exp2(k) >= n then Exp2(k) else Pow2From(k + 1, n)
  }

  function CapacityFor(bits: nat): nat
    requires bits < TWO_64
  {
    var words := RoundupBitsToWords(bits);
    if words <= MIN_CAPACITY then MIN_CAPACITY else Pow2From(0, words)
  }

  lemma {:induction false} Pow2FromIsLeast(k: nat, n: nat)
    requires k > 0 ==> Exp2(k - 1) < n
    ensures LeastPow2(Pow2From(k, n), n)
    decreases n - Exp2(k)
  {
    if Exp2(k) < n { Pow2FromIsLeast(k + 1, n); }
  }

  lemma LeastPow2Unique(c: nat, d: nat, n: nat)
    requires LeastPow2(c, n) && LeastPow2(d, n)
    ensures c == d
  {
    var j: nat :| c == Exp2(j);
    var k: nat :| d == Exp2(k);
    LeastPow2IsLeast(c, n, k);
    LeastPow2IsLeast(d, n, j);
  }

  lemma OneCapacity(c: nat, bits: nat)
    requires bits < TWO_64
    ensures IsCapacity(c, RoundupBitsToWords(bits)) <==> c == CapacityFor(bits)
  {
    var words := RoundupBitsToWords(bits);
    if words > MIN_CAPACITY {
      Pow2FromIsLeast(0, words);
      if LeastPow2(c, words) { LeastPow2Unique(c, CapacityFor(bits), words); }
    }
  }

  lemma EnoughRoom(c: nat, words: nat)
    requires LeastPow2(c, words)
    ensures words <= c
  {
  }

  // A capacity that still has room stays the right one.
  lemma CapacityStays(c: nat, words: nat, more: nat)
    requires IsCapacity(c, words) && words <= more <= c
    ensures IsCapacity(c, more)
  {
  }

  // The array of a size and no ones, and an array that has grown.
  function Empty(bits: nat): Image
    requires bits <= MAX_BITS
  {
    BitImage(bits, seq(CapacityFor(bits), i => 0))
  }

  function Grown(s: Image, bits: nat): Image
    requires bits <= MAX_BITS
  {
    BitImage(bits, Resized(s.words, |s.words|, CapacityFor(bits)))
  }

  // The words a bit below the end lies in.
  lemma InWords(index: nat, bits: nat)
    requires index < bits <= MAX_BITS
    ensures index / 64 < RoundupBitsToWords(bits)
  {
  }

  predicate Allowed(s: Image, op: Op) {
    op.index <= MAX_BITS && (op.index < s.bits ==> op.index / 64 < |s.words|)
  }

  function Next(s: Image, op: Op): Image
    requires Allowed(s, op)
  {
    if op.index >= s.bits then
      Grown(s, op.index)
    else
      var i, m := op.index / 64, SingleMask(op.index, op.undefined);
      match op
      case Set(_, _) => s.(words := s.words[i := With(s.words[i], m)])
      case Clear(_, _) => s.(words := s.words[i := Without(s.words[i], m)])
      case Toggle(_, _) => s.(words := s.words[i := Flipped(s.words[i], m)])
      case Get(_, _) => s
  }

  function Answer(s: Image, op: Op): bool
    requires Allowed(s, op)
  {
    op.index < s.bits && Both(s.words[op.index / 64], SingleMask(op.index, op.undefined)) != 0
  }

  // ------------------------------------------------------------------ what the single bits do

  // The same array as a size and a set of bits.
  datatype Model = BitSet(bits: nat, ones: set<nat>)

  function ModelNext(m: Model, op: Op): Model {
    if op.index >= m.bits then m.(bits := op.index) else
    match op
    case Set(_, _) => m.(ones := m.ones + {op.index})
    case Clear(_, _) => m.(ones := m.ones - {op.index})
    case Toggle(_, _) => m.(ones := if op.index in m.ones then m.ones - {op.index} else m.ones + {op.index})
    case Get(_, _) => m
  }

  ghost predicate Agrees(s: Image, m: Model) {
    && s.bits == m.bits
    && (forall j: nat :: j / 64 < |s.words| ==> (LowAt(s.words, j) <==> j in m.ones))
    && (forall j <- m.ones :: j / 64 < |s.words|)
  }

  // The int literal of the mask is wide enough for the bit.
  predicate Narrow(s: Image, op: Op) {
    op.index < s.bits ==> op.index % 64 < 31
  }

  lemma SetChangesOneBit(was: seq<Word>, index: nat, undefined: Word, j: nat)
    requires index / 64 < |was| && j / 64 < |was| && index % 64 < 31
    ensures LowAt(was[index / 64 := With(was[index / 64], SingleMask(index, undefined))], j)
       <==> LowAt(was, j) || j == index
  {
    hide LowBit, Shl, With;
    LowBitWith(was[index / 64], SingleMask(index, undefined), j % 64);
    OneBit(index % 64, j % 64);
  }

  // bit_array_set_bit sets one bit of its word and nothing else.
  predicate SetsOneBit(was: seq<Word>, index: nat, undefined: Word)
    requires index / 64 < |was|
  {
    var now := was[index / 64 := With(was[index / 64], SingleMask(index, undefined))];
    forall p :: 0 <= p < 64 ==> (LowBit(now[index / 64], p) <==> LowBit(was[index / 64], p) || p == index % 64)
  }

  /** Whatever the C shift yields, setting a bit sets that bit alone: this holds if and only if
      the offset in the word is below 31. */
  lemma SetExactIff(index: nat)
    ensures (forall was: seq<Word>, undefined: Word :: index / 64 < |was| ==> SetsOneBit(was, index, undefined))
       <==> index % 64 < 31
  {
    hide LowBit, With, Shl;
    if index % 64 < 31 {
      forall was: seq<Word>, undefined: Word | index / 64 < |was| ensures SetsOneBit(was, index, undefined) {
        forall p | 0 <= p < 64
          ensures LowBit(With(was[index / 64], SingleMask(index, undefined)), p)
             <==> LowBit(was[index / 64], p) || p == index % 64
        {
          LowBitWith(was[index / 64], SingleMask(index, undefined), p);
          OneBit(index % 64, p);
        }
      }
    } else {
      var was: seq<Word> := seq(index / 64 + 1, i => 0);
      LowBitWith(0, 0, index % 64);
      NoOnes(index % 64);
      assert !SetsOneBit(was, index, 0);
    }
  }

  // The same for bit_array_clear_bit, bit_array_toggle_bit and bit_array_get_bit.
  predicate ClearsOneBit(was: seq<Word>, index: nat, undefined: Word)
    requires index / 64 < |was|
  {
    var now := was[index / 64 := Without(was[index / 64], SingleMask(index, undefined))];
    forall p :: 0 <= p < 64 ==> (LowBit(now[index / 64], p) <==> LowBit(was[index / 64], p) && p != index % 64)
  }

  predicate TogglesOneBit(was: seq<Word>, index: nat, undefined: Word)
    requires index / 64 < |was|
  {
    var now := was[index / 64 := Flipped(was[index / 64], SingleMask(index, undefined))];
    forall p :: 0 <= p < 64 ==> (LowBit(now[index / 64], p) <==> LowBit(was[index / 64], p) != (p == index % 64))
  }

  predicate ReadsBit(was: seq<Word>, index: nat, undefined: Word)
    requires index / 64 < |was|
  {
    Both(was[index / 64], SingleMask(index, undefined)) != 0 <==> LowAt(was, index)
  }

  lemma ClearExactIff(index: nat)
    ensures (forall was: seq<Word>, undefined: Word :: index / 64 < |was| ==> ClearsOneBit(was, index, undefined))
       <==> index % 64 < 31
  {
    hide LowBit, Without, Shl;
    if index % 64 < 31 {
      forall was: seq<Word>, undefined: Word | index / 64 < |was| ensures ClearsOneBit(was, index, undefined) {
        forall p | 0 <= p < 64
          ensures LowBit(Without(was[index / 64], SingleMask(index, undefined)), p)
             <==> LowBit(was[index / 64], p) && p != index % 64
        {
          LowBitWithout(was[index / 64], SingleMask(index, undefined), p);
          OneBit(index % 64, p);
        }
      }
    } else {
      var was: seq<Word> := seq(index / 64 + 1, i => Shl(1, index % 64));
      LowBitWithout(Shl(1, index % 64), 0, index % 64);
      OneBit(index % 64, index % 64);
      NoOnes(index % 64);
      assert !ClearsOneBit(was, index, 0);
    }
  }

  lemma ToggleExactIff(index: nat)
    ensures (forall was: seq<Word>, undefined: Word :: index / 64 < |was| ==> TogglesOneBit(was, index, undefined))
       <==> index % 64 < 31
  {
    hide LowBit, Flipped, Shl;
    if index % 64 < 31 {
      forall was: seq<Word>, undefined: Word | index / 64 < |was| ensures TogglesOneBit(was, index, undefined) {
        forall p | 0 <= p < 64
          ensures LowBit(Flipped(was[index / 64], SingleMask(index, undefined)), p)
             <==> LowBit(was[index / 64], p) != (p == index % 64)
        {
          LowBitFlipped(was[index / 64], SingleMask(index, undefined), p);
          OneBit(index % 64, p);
        }
      }
    } else {
      var was: seq<Word> := seq(index / 64 + 1, i => 0);
      LowBitFlipped(0, 0, index % 64);
      NoOnes(index % 64);
      assert !TogglesOneBit(was, index, 0);
    }
  }

  lemma BothZero(w: Word)
    ensures Both(w, 0) == 0
  {
  }

  lemma TestReadsBit(words: seq<Word>, index: nat, undefined: Word)
    requires index / 64 < |words| && index % 64 < 31
    ensures Both(words[index / 64], SingleMask(index, undefined)) != 0 <==> LowAt(words, index)
  {
    hide Both, Shl, LowBit;
    AndOneBit(words[index / 64], index % 64);
  }

  lemma GetExactIff(index: nat)
    ensures (forall was: seq<Word>, undefined: Word :: index / 64 < |was| ==> ReadsBit(was, index, undefined))
       <==> index % 64 < 31
  {
    hide LowBit, Both, Shl;
    if index % 64 < 31 {
      forall was: seq<Word>, undefined: Word | index / 64 < |was| ensures ReadsBit(was, index, undefined) {
        TestReadsBit(was, index, undefined);
      }
    } else {
      var was: seq<Word> := seq(index / 64 + 1, i => Shl(1, index % 64));
      OneBit(index % 64, index % 64);
      BothZero(Shl(1, index % 64));
      assert !ReadsBit(was, index, 0);
    }
  }

  lemma ClearChangesOneBit(was: seq<Word>, index: nat, undefined: Word, j: nat)
    requires index / 64 < |was| && j / 64 < |was| && index % 64 < 31
    ensures LowAt(was[index / 64 := Without(was[index / 64], SingleMask(index, undefined))], j)
       <==> LowAt(was, j) && j != index
  {
    hide LowBit, Shl, Without;
    LowBitWithout(was[index / 64], SingleMask(index, undefined), j % 64);
    OneBit(index % 64, j % 64);
  }

  lemma ToggleChangesOneBit(was: seq<Word>, index: nat, undefined: Word, j: nat)
    requires index / 64 < |was| && j / 64 < |was| && index % 64 < 31
    ensures LowAt(was[index / 64 := Flipped(was[index / 64], SingleMask(index, undefined))], j)
       <==> LowAt(was, j) != (j == index)
  {
    hide LowBit, Shl, Flipped;
    LowBitFlipped(was[index / 64], SingleMask(index, undefined), j % 64);
    OneBit(index % 64, j % 64);
  }

  // Growth keeps every bit and adds zeros.
  lemma GrownBits(s: Image, bits: nat, j: nat)
    requires bits <= MAX_BITS && j / 64 < |Grown(s, bits).words|
    ensures LowAt(Grown(s, bits).words, j) <==> j / 64 < |s.words| && LowAt(s.words, j)
  {
    hide LowBit;
    NoOnes(j % 64);
  }

  // Growth keeps every word, and what is past the words in use is zero.
  lemma GrownIsSound(s: Image, bits: nat)
    requires Sound(s) && s.bits <= bits <= MAX_BITS
    ensures Sound(Grown(s, bits)) && |s.words| <= |Grown(s, bits).words|
    ensures Grown(s, bits).words[..|s.words|] == s.words
  {
    var words, more := RoundupBitsToWords(s.bits), RoundupBitsToWords(bits);
    OneCapacity(|Grown(s, bits).words|, bits);
    assert words <= more;
    if more <= |s.words| {
      CapacityStays(|s.words|, words, more);
      OneCapacity(|s.words|, bits);
    } else {
      assert LeastPow2(CapacityFor(bits), more);
    }
  }

  lemma EnoughWords(s: Image)
    requires Sound(s)
    ensures RoundupBitsToWords(s.bits) <= |s.words|
  {
  }

  lemma StepIsSound(s: Image, op: Op)
    requires Sound(s) && op.index <= MAX_BITS
    ensures Allowed(s, op) && Sound(Next(s, op))
    ensures s.bits <= Next(s, op).bits && |s.words| <= |Next(s, op).words|
  {
    hide With, Without, Flipped, SingleMask;
    if op.index >= s.bits { GrownIsSound(s, op.index); } else { InWords(op.index, s.bits); EnoughWords(s); }
  }

  lemma StepAgrees(s: Image, m: Model, op: Op)
    requires Sound(s) && Agrees(s, m) && Narrow(s, op) && op.index <= MAX_BITS
    ensures Allowed(s, op)
    ensures Agrees(Next(s, op), ModelNext(m, op))
    ensures Answer(s, op) <==> op.index < m.bits && op.index in m.ones
  {
    hide With, Without, Flipped, Both, SingleMask, LowAt, Resized, Sound;
    StepIsSound(s, op);
    var t, n := Next(s, op), ModelNext(m, op);
    forall j: nat | j / 64 < |t.words| ensures LowAt(t.words, j) <==> j in n.ones {
      if op.index >= s.bits {
        GrownBits(s, op.index, j);
      } else {
        SetChangesOneBit(s.words, op.index, op.undefined, j);
        ClearChangesOneBit(s.words, op.index, op.undefined, j);
        ToggleChangesOneBit(s.words, op.index, op.undefined, j);
      }
    }
    if op.index < s.bits { TestReadsBit(s.words, op.index, op.undefined); }
  }

  /** A bit that is not set yet: after bit_array_set_bit it is set, and lies in the array, if
      and only if it was below the end before. Beyond the end the call changes the size only. */
  lemma SetTakesEffectIff(s: Image, m: Model, index: nat, undefined: Word)
    requires Sound(s) && Agrees(s, m) && index <= MAX_BITS && index !in m.ones
    requires index < s.bits ==> index % 64 < 31
    ensures Allowed(s, Set(index, undefined))
    ensures var t := Next(s, Set(index, undefined));
            && (index < t.bits <==> index < s.bits)
            && (index / 64 < |t.words| && LowAt(t.words, index) <==> index < s.bits)
  {
    hide LowAt, Next, Sound;
    StepIsSound(s, Set(index, undefined));
    StepAgrees(s, m, Set(index, undefined));
  }

  // ------------------------------------------------------------------ runs

  ghost predicate Runs(s: Image, ops: seq<Op>)
    decreases |ops|
  {
    ops == [] || (Allowed(s, ops[0]) && Runs(Next(s, ops[0]), ops[1..]))
  }

  function After(s: Image, ops: seq<Op>): Image
    requires Runs(s, ops)
    decreases |ops|
  {
    if ops == [] then s else After(Next(s, ops[0]), ops[1..])
  }

  function ModelAfter(m: Model, ops: seq<Op>): Model
    decreases |ops|
  {
    if ops == [] then m else ModelAfter(ModelNext(m, ops[0]), ops[1..])
  }

  // Every call that hits a bit of the array hits one the mask is wide enough for.
  predicate AllNarrow(m: Model, ops: seq<Op>)
    decreases |ops|
  {
    ops == [] || ((ops[0].index < m.bits ==> ops[0].index % 64 < 31) && AllNarrow(ModelNext(m, ops[0]), ops[1..]))
  }

  // However long the run: the words past those in use are zero, the capacity is the least
  // power of two that fits, and no word is given up.
  lemma {:induction false} RunIsSound(s: Image, ops: seq<Op>)
    requires Sound(s) && forall op <- ops :: op.index <= MAX_BITS
    ensures Runs(s, ops) && Sound(After(s, ops))
    ensures s.bits <= After(s, ops).bits && |s.words| <= |After(s, ops).words|
    decreases |ops|
  {
    hide Sound, Next, Allowed;
    if ops != [] {
      StepIsSound(s, ops[0]);
      RunIsSound(Next(s, ops[0]), ops[1..]);
    }
  }

  /** Every run of single-bit calls acts on the array as the same calls act on a size and a
      set of numbers. */
  lemma {:induction false} RunAgrees(s: Image, m: Model, ops: seq<Op>)
    requires Sound(s) && Agrees(s, m) && AllNarrow(m, ops)
    requires forall op <- ops :: op.index <= MAX_BITS
    ensures Runs(s, ops) && Agrees(After(s, ops), ModelAfter(m, ops))
    decreases |ops|
  {
    hide Sound, Next, ModelNext, Allowed;
    if ops != [] {
      assert Narrow(s, ops[0]);
      StepIsSound(s, ops[0]);
      StepAgrees(s, m, ops[0]);
      RunAgrees(Next(s, ops[0]), ModelNext(m, ops[0]), ops[1..]);
    }
  }

  lemma EmptyAgrees(bits: nat)
    requires bits <= MAX_BITS
    ensures Sound(Empty(bits)) && Agrees(Empty(bits), BitSet(bits, {}))
  {
    hide LowBit;
    OneCapacity(CapacityFor(bits), bits);
    forall j: nat | j / 64 < |Empty(bits).words| ensures !LowAt(Empty(bits).words, j) {
      NoOnes(j % 64);
    }
  }

  // ------------------------------------------------------------------ the struct

  ghost predicate TidyWords(numOfBits: nat, numOfWords: nat, capacity: nat, words: seq<Word>) {
    && numOfBits < TWO_64
    && numOfWords == RoundupBitsToWords(numOfBits)
    && MIN_CAPACITY <= capacity && numOfWords <= capacity <= |words| <= 8 * capacity
    && (forall i :: numOfWords <= i < capacity ==> words[i] == 0)
  }

  // A region within the words in use leaves the others as they were.
  lemma RegionKeepsTidy(numOfBits: nat, numOfWords: nat, capacity: nat, was: seq<Word>, now: seq<Word>,
                        start: nat, length: nat)
    requires SetBy(was, now, start, length) || ClearedBy(was, now, start, length) || ToggledBy(was, now, start, length)
    ensures TidyWords(numOfBits, numOfWords, capacity, was) && start + length <= 64 * numOfWords ==>
              TidyWords(numOfBits, numOfWords, capacity, now)
  {
    if start + length <= 64 * numOfWords { OutsideRegion(was, now, start, length, numOfWords); }
  }

  lemma SmallPow2(pow2: nat, words: nat)
    requires words <= TWO_63
    requires if words == 0 then pow2 == 1 else LeastPow2(pow2, words)
    ensures IsCapacity(if pow2 > MIN_CAPACITY then pow2 else MIN_CAPACITY, words)
  {
  }

  class Bits {
    var numOfBits: nat
    var numOfWords: nat
    var capacity: nat
    var buff: array<Word>

    // What every change of size keeps, even one that wraps around: the words in use lie in
    // the buffer, and the words from numOfWords up to capacity are zero.
    ghost predicate Tidy()
      reads this, buff
    {
      TidyWords(numOfBits, numOfWords, capacity, buff[..])
    }

    ghost predicate Valid()
      reads this, buff
    {
      Tidy() && numOfBits <= MAX_BITS && IsCapacity(capacity, numOfWords)
    }

    // The words up to capacity.
    function Contents(): (words: seq<Word>)
      requires capacity <= buff.Length
      reads this, buff
    {
      buff[..capacity]
    }

    /** bit_array_init: the array is valid exactly when rounding up to words does not wrap. */
    constructor (numOfBits: nat)
      requires numOfBits < TWO_64
      ensures Tidy() && fresh(buff)
      ensures this.numOfBits == numOfBits && IsCapacity(capacity, numOfWords)
      ensures Contents() == seq(capacity, i => 0)
      ensures Valid() <==> numOfBits <= MAX_BITS
      ensures numOfBits <= MAX_BITS ==> Image() == Empty(numOfBits)
      ensures numOfBits <= MAX_BITS ==> numOfBits <= 64 * numOfWords < numOfBits + 64
      ensures numOfBits > MAX_BITS ==> numOfWords == 0
      ensures buff.Length == capacity && (numOfWords <= 2 ==> capacity == 2)
    {
      WordsForBits(numOfBits);
      this.numOfBits := numOfBits;
      var words := RoundupBitsToWords(numOfBits);
      numOfWords := words;
      var pow2 := RoundupWord64ToPow2(words);
      SmallPow2(pow2, words);
      OneCapacity(if pow2 > MIN_CAPACITY then pow2 else MIN_CAPACITY, numOfBits);
      capacity := if pow2 > MIN_CAPACITY then pow2 else MIN_CAPACITY;
      buff := new Word[if pow2 > MIN_CAPACITY then pow2 else MIN_CAPACITY](_ => 0);
    }

    /** bit_array_resize: the words in use before and after are kept, all others up to the
        capacity are zero, and the capacity only grows, to the least power of two that fits. */
    method Resize(newNumOfBits: nat)
      requires Tidy() && newNumOfBits < TWO_64
      modifies this, buff
      ensures Tidy() && numOfBits == newNumOfBits && (buff == old(buff) || fresh(buff))
      ensures numOfWords <= old(capacity) ==> capacity == old(capacity)
      ensures numOfWords > old(capacity) ==> LeastPow2(capacity, numOfWords)
      ensures old(capacity) <= capacity
      ensures Contents() == Resized(old(Contents()), Min(old(numOfWords), numOfWords), capacity)
      ensures newNumOfBits <= MAX_BITS ==> newNumOfBits <= 64 * numOfWords < newNumOfBits + 64
      ensures newNumOfBits > MAX_BITS ==> numOfWords == 0
      ensures buff.Length == if numOfWords > old(capacity) then 8 * capacity else old(buff.Length)
      ensures forall i :: old(capacity) <= i < old(capacity) + 8 * (capacity - old(capacity)) ==>
                i < buff.Length && buff[i] == 0
    {
      hide LeastPow2, RoundupBitsToWords;
      WordsForBits(newNumOfBits);
      var oldNumOfWords, newNumOfWords := numOfWords, RoundupBitsToWords(newNumOfBits);
      numOfBits, numOfWords := newNumOfBits, newNumOfWords;
      if newNumOfWords > capacity {
        var oldCapacity := capacity;
        capacity := RoundupWord64ToPow2(numOfWords);
        EnoughRoom(capacity, numOfWords);
        Realloc(8 * capacity);
        ZeroWords(oldCapacity, 8 * (capacity - oldCapacity));
      } else if newNumOfWords < oldNumOfWords {
        ZeroWords(newNumOfWords, oldNumOfWords - newNumOfWords);
      }
    }

    // realloc to a block of `words` words: what was there is kept, the rest is arbitrary.
    method Realloc(words: nat)
      requires buff.Length <= words
      modifies this`buff
      ensures fresh(buff) && buff.Length == words && buff[..old(buff.Length)] == old(buff[..])
    {
      var source := buff;
      var block := new Word[words];
      for i := 0 to source.Length
        invariant block[..i] == source[..i]
      {
        block[i] := source[i];
      }
      buff := block;
    }

    // memset of n words to zero.
    method ZeroWords(first: nat, n: nat)
      requires first + n <= buff.Length
      modifies buff
      ensures forall i :: 0 <= i < buff.Length ==> buff[i] == if first <= i < first + n then 0 else old(buff[i])
    {
      for k := first to first + n
        invariant forall i :: 0 <= i < buff.Length ==> buff[i] == if first <= i < k then 0 else old(buff[i])
      {
        buff[k] := 0;
      }
    }

    // ---------------------------------------------------------------- single bits

    /** bit_array_set_bit. Beyond the end it only resizes: the bit is not set, and does not
        even come to lie inside the array. */
    method SetBit(index: nat, undefined: Word)
      requires Valid() && index < TWO_64
      modifies this, buff
      ensures numOfBits == if index < old(numOfBits) then old(numOfBits) else index
      ensures Tidy() && (buff == old(buff) || fresh(buff))
      ensures index <= MAX_BITS ==> Valid() && Image() == Next(old(Image()), Set(index, undefined))
    {
      if index >= numOfBits {
        Grow(index);
        return;
      }
      InWords(index, numOfBits);
      ghost var was := Contents();
      buff[index / 64] := With(buff[index / 64], SingleMask(index, undefined));
      assert Contents() == was[index / 64 := buff[index / 64]];
    }

    method ClearBit(index: nat, undefined: Word)
      requires Valid() && index < TWO_64
      modifies this, buff
      ensures numOfBits == if index < old(numOfBits) then old(numOfBits) else index
      ensures Tidy() && (buff == old(buff) || fresh(buff))
      ensures index <= MAX_BITS ==> Valid() && Image() == Next(old(Image()), Clear(index, undefined))
    {
      if index >= numOfBits {
        Grow(index);
        return;
      }
      InWords(index, numOfBits);
      ghost var was := Contents();
      buff[index / 64] := Without(buff[index / 64], SingleMask(index, undefined));
      assert Contents() == was[index / 64 := buff[index / 64]];
    }

    method ToggleBit(index: nat, undefined: Word)
      requires Valid() && index < TWO_64
      modifies this, buff
      ensures numOfBits == if index < old(numOfBits) then old(numOfBits) else index
      ensures Tidy() && (buff == old(buff) || fresh(buff))
      ensures index <= MAX_BITS ==> Valid() && Image() == Next(old(Image()), Toggle(index, undefined))
    {
      if index >= numOfBits {
        Grow(index);
        return;
      }
      InWords(index, numOfBits);
      ghost var was := Contents();
      buff[index / 64] := Flipped(buff[index / 64], SingleMask(index, undefined));
      assert Contents() == was[index / 64 := buff[index / 64]];
    }

    method GetBit(index: nat, undefined: Word) returns (bit: bool)
      requires Valid() && index < TWO_64
      modifies this, buff
      ensures numOfBits == if index < old(numOfBits) then old(numOfBits) else index
      ensures Tidy() && (buff == old(buff) || fresh(buff))
      ensures index <= MAX_BITS ==> Valid() && Image() == Next(old(Image()), Get(index, undefined))
      ensures bit == (index <= MAX_BITS && Answer(old(Image()), Get(index, undefined)))
    {
      if index >= numOfBits {
        Grow(index);
        return false;
      }
      InWords(index, numOfBits);
      assert Contents()[index / 64] == buff[index / 64];
      bit := Both(buff[index / 64], SingleMask(index, undefined)) != 0;
    }

    // The resize behind an index that is too large.
    method Grow(index: nat)
      requires Valid() && numOfBits <= index < TWO_64
      modifies this, buff
      ensures numOfBits == index
      ensures Tidy() && (buff == old(buff) || fresh(buff))
      ensures index <= MAX_BITS ==> Valid() && Image() == Grown(old(Image()), index)
    {
      ghost var was := Image();
      Resize(index);
      if index <= MAX_BITS {
        GrownIsSound(was, index);
        OneCapacity(capacity, index);
        if numOfWords <= |was.words| { CapacityStays(|was.words|, RoundupBitsToWords(was.bits), numOfWords); }
        assert Contents() == Grown(was, index).words;
      }
    }

    // The value of the array.
    ghost function Image(): Image
      requires Tidy()
      reads this, buff
    {
      BitImage(numOfBits, Contents())
    }

    // A run of single-bit calls.
    method Play(ops: seq<Op>)
      requires Valid() && forall op <- ops :: op.index <= MAX_BITS
      modifies this, buff
      ensures Valid() && (buff == old(buff) || fresh(buff))
      ensures Runs(old(Image()), ops) && Image() == After(old(Image()), ops)
    {
      ghost var start := Image();
      RunIsSound(start, ops);
      for i := 0 to |ops|
        invariant Valid() && (buff == old(buff) || fresh(buff))
        invariant Runs(Image(), ops[i..]) && After(Image(), ops[i..]) == After(start, ops)
      {
        hide Valid, Next, Allowed, Answer;
        assert ops[i..][0] == ops[i] && ops[i..][1..] == ops[i + 1..];
        match ops[i]
        case Set(index, undefined) => SetBit(index, undefined);
        case Clear(index, undefined) => ClearBit(index, undefined);
        case Toggle(index, undefined) => ToggleBit(index, undefined);
        case Get(index, undefined) => var _ := GetBit(index, undefined);
      }
    }

    // ---------------------------------------------------------------- regions

    /** bit_array_set_region. The region is not checked against the size of the array: the
        caller must keep it inside the buffer. */
    method SetRegion(start: nat, length: nat)
      requires start + length <= 64 * buff.Length && start + length < TWO_64
      modifies buff
      ensures SetBy(old(buff[..]), buff[..], start, length)
      ensures old(Valid()) && start + length <= 64 * numOfWords ==> Valid()
    {
      hide With, RestMask64, BitMask64, Shl, RegionMask, IsCapacity, TidyWords;
      ghost var was := buff[..];
      forall w: Word ensures With(w, 0) == w && With(w, WORD_MAX) == WORD_MAX { NoMask(w); FullMask(w); }
      if length == 0 { EmptyMask(start); return; }
      var firstWord, firstOffset := start / 64, start % 64;
      var lastWord, lastOffset := (start + length - 1) / 64, (start + length - 1) % 64;
      MaskWords(start, length);
      if firstWord == lastWord {
        buff[firstWord] := With(buff[firstWord], Shl(BitMask64(length), firstOffset));
      } else {
        buff[firstWord] := With(buff[firstWord], RestMask64(firstOffset));
        for i := firstWord + 1 to lastWord
          invariant forall k :: 0 <= k < i ==> buff[k] == With(was[k], RegionMask(start, length, k))
          invariant forall k :: i <= k < buff.Length ==> buff[k] == was[k]
        {
          buff[i] := WORD_MAX;
        }
        buff[lastWord] := With(buff[lastWord], BitMask64(lastOffset + 1));
      }
      assert SetBy(was, buff[..], start, length);
      RegionKeepsTidy(numOfBits, numOfWords, capacity, was, buff[..], start, length);
    }

    // bit_array_clear_region
    method ClearRegion(start: nat, length: nat)
      requires start + length <= 64 * buff.Length && start + length < TWO_64
      modifies buff
      ensures ClearedBy(old(buff[..]), buff[..], start, length)
      ensures old(Valid()) && start + length <= 64 * numOfWords ==> Valid()
    {
      hide Without, Both, RestMask64, BitMask64, Shl, RegionMask, IsCapacity, TidyWords;
      ghost var was := buff[..];
      forall w: Word ensures Without(w, 0) == w && Without(w, WORD_MAX) == 0 { NoMask(w); FullMask(w); }
      if length == 0 { EmptyMask(start); return; }
      var firstWord, firstOffset := start / 64, start % 64;
      var lastWord, lastOffset := (start + length - 1) / 64, (start + length - 1) % 64;
      MaskWords(start, length);
      if firstWord == lastWord {
        buff[firstWord] := Without(buff[firstWord], Shl(BitMask64(length), firstOffset));
      } else {
        BothIsWithout(buff[firstWord], firstOffset);
        buff[firstWord] := Both(buff[firstWord], BitMask64(firstOffset));
        for i := firstWord + 1 to lastWord
          invariant forall k :: 0 <= k < i ==> buff[k] == Without(was[k], RegionMask(start, length, k))
          invariant forall k :: i <= k < buff.Length ==> buff[k] == was[k]
        {
          buff[i] := 0;
        }
        buff[lastWord] := Without(buff[lastWord], BitMask64(lastOffset + 1));
      }
      assert ClearedBy(was, buff[..], start, length);
      RegionKeepsTidy(numOfBits, numOfWords, capacity, was, buff[..], start, length);
    }

    // bit_array_toggle_region
    method ToggleRegion(start: nat, length: nat)
      requires start + length <= 64 * buff.Length && start + length < TWO_64
      modifies buff
      ensures ToggledBy(old(buff[..]), buff[..], start, length)
      ensures old(Valid()) && start + length <= 64 * numOfWords ==> Valid()
    {
      hide Flipped, RestMask64, BitMask64, Shl, RegionMask, IsCapacity, TidyWords;
      ghost var was := buff[..];
      forall w: Word ensures Flipped(w, 0) == w { NoMask(w); }
      if length == 0 { EmptyMask(start); return; }
      var firstWord, firstOffset := start / 64, start % 64;
      var lastWord, lastOffset := (start + length - 1) / 64, (start + length - 1) % 64;
      MaskWords(start, length);
      if firstWord == lastWord {
        buff[firstWord] := Flipped(buff[firstWord], Shl(BitMask64(length), firstOffset));
      } else {
        buff[firstWord] := Flipped(buff[firstWord], RestMask64(firstOffset));
        for i := firstWord + 1 to lastWord
          invariant forall k :: 0 <= k < i ==> buff[k] == Flipped(was[k], RegionMask(start, length, k))
          invariant forall k :: i <= k < buff.Length ==> buff[k] == was[k]
        {
          buff[i] := Flipped(buff[i], WORD_MAX);
        }
        buff[lastWord] := Flipped(buff[lastWord], BitMask64(lastOffset + 1));
      }
      assert ToggledBy(was, buff[..], start, length);
      RegionKeepsTidy(numOfBits, numOfWords, capacity, was, buff[..], start, length);
    }

    // ---------------------------------------------------------------- search

    /** bit_array_find_set_bit: the least candidate below numOfBits that is set, or none. The
        first word is read unchecked; `behind` is the word after the buffer. */
    method FindSetBit(start: nat, behind: Word) returns (found: bool, result: nat)
      requires Valid() && start < TWO_64
      ensures found ==> IsFirst(buff[..], start, numOfBits, true, result)
      ensures start > numOfBits ==> !found
      ensures !found ==> start > numOfBits || NoneBelow(buff[..], start, true, numOfBits)
    {
      hide LowBit, Without, Neither, BitMask64, LowestBit, Hit, IsCapacity, Candidate;
      if start > numOfBits { return false, 0; }
      var iWord := start / 64;
      var curWord := Without(if iWord < buff.Length then buff[iWord] else behind, BitMask64(start % 64));
      NothingBefore(buff[..], start, true);
      while true
        invariant start / 64 <= iWord <= buff.Length
        invariant iWord < buff.Length ==> curWord == Masked(buff[..], start, iWord, true)
        invariant iWord == buff.Length ==> numOfBits <= 64 * iWord
        invariant NoneBelow(buff[..], start, true, 64 * iWord)
        decreases buff.Length - iWord
      {
        if iWord < buff.Length { LowestHit(buff[..], start, iWord, true); }
        if curWord != 0 {
          var pos := 64 * iWord + LowestBit(curWord);
          if pos < numOfBits { return true, pos; }
        }
        iWord := iWord + 1;
        if iWord >= numOfWords { break; }
        NoMask(buff[iWord]);
        curWord := buff[iWord];
      }
      return false, 0;
    }

    /** bit_array_find_clear_bit: the least candidate below numOfBits that is clear, or none. The
        first word is read unchecked; `behind` is the word after the buffer. */
    method FindClearBit(start: nat, behind: Word) returns (found: bool, result: nat)
      requires Valid() && start < TWO_64
      ensures found ==> IsFirst(buff[..], start, numOfBits, false, result)
      ensures start > numOfBits ==> !found
      ensures !found ==> start > numOfBits || NoneBelow(buff[..], start, false, numOfBits)
    {
      hide LowBit, Without, Neither, BitMask64, LowestBit, Hit, IsCapacity, Candidate;
      if start > numOfBits { return false, 0; }
      var iWord := start / 64;
      var curWord := Neither(if iWord < buff.Length then buff[iWord] else behind, BitMask64(start % 64));
      NothingBefore(buff[..], start, false);
      while true
        invariant start / 64 <= iWord <= buff.Length
        invariant iWord < buff.Length ==> curWord == Masked(buff[..], start, iWord, false)
        invariant iWord == buff.Length ==> numOfBits <= 64 * iWord
        invariant NoneBelow(buff[..], start, false, 64 * iWord)
        decreases buff.Length - iWord
      {
        if iWord < buff.Length { LowestHit(buff[..], start, iWord, false); }
        if curWord != 0 {
          var pos := 64 * iWord + LowestBit(curWord);
          if pos < numOfBits { return true, pos; }
        }
        iWord := iWord + 1;
        if iWord >= numOfWords { break; }
        NeitherZero(buff[iWord]);
        curWord := !buff[iWord];
      }
      return false, 0;
    }
  }
}

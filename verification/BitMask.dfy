/**
  Word-level bit masks (internal/matrix/program.go, bitMask).

  A mask is a sequence of 64-bit words.  `Bits` gives its meaning, the finite set of bit
  positions it holds; every mask operation is proved against the corresponding set operation,
  for masks of any number of words.
 */
module BitMask {

  type Mask = seq<bv64>

  // ---- one word ----
  // Word operators are wrapped in functions, so that a proof about masks can hide them.

  function Or(a: bv64, b: bv64): bv64 { a | b }

  /** Go's `a &^ b`. */
  function AndNot(a: bv64, b: bv64): bv64 { a & !b }

  function Doubled(x: bv64): bv64 { x << 1 }

  predicate Meets(x: bv64, m: bv64) { x & m != 0 }

  predicate MeetsBelow(x: bv64, m: bv64) { x & (m - 1) != 0 }

  predicate IsPower(m: bv64) { m & (m - 1) == 0 }

  function Shifted(x: bv64, i: nat): bv64
    decreases i
  {
    if i == 0 then x else Doubled(Shifted(x, i - 1))
  }

  /** `uint64(1) << i`, as i one-bit shifts. */
  function OneHot(i: nat): bv64 {
    Shifted(1, i)
  }

  predicate InWord(x: bv64, i: nat) {
    Meets(x, OneHot(i))
  }

  ghost function WordBits(x: bv64): set<nat> {
    set i: nat | i < 64 && InWord(x, i)
  }

  // Facts about single words, for all words.

  lemma OrMeetsNeither(a: bv64, b: bv64, m: bv64)
    ensures !Meets(a, m) && !Meets(b, m) ==> !Meets(Or(a, b), m)
  {
  }

  lemma OrMeetsEither(a: bv64, b: bv64, m: bv64)
    ensures Meets(a, m) ==> Meets(Or(a, b), m) && Meets(Or(b, a), m)
  {
  }

  lemma DoubledPower(m: bv64)
    requires IsPower(m)
    ensures IsPower(Doubled(m))
  {
  }

  lemma MeetsBelowDoubled(x: bv64, m: bv64)
    requires IsPower(m)
    ensures MeetsBelow(x, Doubled(m)) <==> MeetsBelow(x, m) || Meets(x, m)
  {
  }

  lemma DoubledStaysAbove(p: bv64, m: bv64)
    requires IsPower(m) && !MeetsBelow(p, m)
    ensures !MeetsBelow(Doubled(p), m)
  {
  }

  lemma AndNotMeets(a: bv64, b: bv64, m: bv64)
    ensures AndNot(a, b) == 0 && Meets(a, m) ==> Meets(b, m)
  {
  }

  lemma AndNotAtPower(a: bv64, b: bv64, m: bv64)
    requires IsPower(m) && Meets(AndNot(a, b), m)
    ensures Meets(a, m) && !Meets(b, m)
  {
  }

  lemma MeetsFacts(x: bv64, m: bv64)
    ensures !Meets(0, m) && (x != 0 ==> Meets(x, x)) && (Meets(x, m) ==> Meets(m, x))
    ensures !MeetsBelow(x, 1) && (x != 0 ==> MeetsBelow(x, 0))
    ensures IsPower(1) && Doubled(0) == 0
  {
  }

  lemma EightDoublings(x: bv64)
    ensures Doubled(Doubled(Doubled(Doubled(Doubled(Doubled(Doubled(Doubled(x)))))))) == x << 8
  {
  }

  // The same facts, about bit positions.

  lemma {:induction false} OneHotIsPower(i: nat)
    ensures IsPower(OneHot(i))
  {
    hide Doubled, IsPower;
    if i == 0 {
      MeetsFacts(1, 1);
    } else {
      OneHotIsPower(i - 1);
      DoubledPower(OneHot(i - 1));
    }
  }

  predicate HoldsBelow(x: bv64, k: nat) {
    MeetsBelow(x, OneHot(k))
  }

  lemma HoldsBelowStep(x: bv64, k: nat)
    ensures HoldsBelow(x, k + 1) <==> HoldsBelow(x, k) || InWord(x, k)
  {
    hide Doubled, IsPower, Meets, MeetsBelow;
    OneHotIsPower(k);
    MeetsBelowDoubled(x, OneHot(k));
  }

  lemma {:induction false} HoldsBelowIsExact(x: bv64, k: nat)
    ensures HoldsBelow(x, k) <==> exists i: nat :: i < k && InWord(x, i)
  {
    if k == 0 {
      MeetsFacts(x, 1);
    } else {
      hide HoldsBelow, InWord;
      HoldsBelowStep(x, k - 1);
      HoldsBelowIsExact(x, k - 1);
    }
  }

  /** 1 << i holds nothing below place i. */
  lemma {:induction false} OneHotClearBelow(i: nat, k: nat)
    requires k <= i
    ensures !HoldsBelow(OneHot(i), k)
    decreases i
  {
    hide Doubled, IsPower, Meets, MeetsBelow;
    OneHotIsPower(k);
    if i == k {
      PowerClearBelow(OneHot(i));
    } else {
      OneHotClearBelow(i - 1, k);
      DoubledStaysAbove(OneHot(i - 1), OneHot(k));
    }
  }

  lemma PowerClearBelow(m: bv64)
    requires IsPower(m)
    ensures !MeetsBelow(m, m)
  {
  }

  lemma {:induction false} ShiftedTwice(x: bv64, i: nat, j: nat)
    ensures Shifted(Shifted(x, i), j) == Shifted(x, i + j)
    decreases j
  {
    hide Doubled;
    if j > 0 {
      ShiftedTwice(x, i, j - 1);
    }
  }

  lemma ShiftedByte(x: bv64)
    ensures Shifted(x, 8) == x << 8
  {
    hide Doubled;
    EightDoublings(x);
    assert Shifted(x, 2) == Doubled(Doubled(x));
    assert Shifted(x, 4) == Doubled(Doubled(Shifted(x, 2)));
    assert Shifted(x, 6) == Doubled(Doubled(Shifted(x, 4)));
  }

  lemma NextByte(i: nat, x: bv64)
    requires OneHot(i) == x
    ensures OneHot(i + 8) == x << 8
  {
    hide Doubled;
    ShiftedTwice(1, i, 8);
    ShiftedByte(x);
  }

  lemma OneHotOverflows()
    ensures OneHot(64) == 0
  {
    NextByte(0, 1);
    NextByte(8, 0x100);
    NextByte(16, 0x1_0000);
    NextByte(24, 0x100_0000);
    NextByte(32, 0x1_0000_0000);
    NextByte(40, 0x100_0000_0000);
    NextByte(48, 0x1_0000_0000_0000);
    NextByte(56, 0x100_0000_0000_0000);
  }

  lemma NonZeroHasBit(x: bv64) returns (i: nat)
    requires x != 0
    ensures i < 64 && InWord(x, i)
  {
    hide MeetsBelow;
    OneHotOverflows();
    MeetsFacts(x, 0);
    HoldsBelowIsExact(x, 64);
    i :| i < 64 && InWord(x, i);
  }

  lemma {:induction false} InWordBelowOneHot(i: nat, j: nat)
    requires j < i
    ensures !InWord(OneHot(i), j) && !InWord(OneHot(j), i)
  {
    hide Meets;
    OneHotClearBelow(i, i);
    HoldsBelowIsExact(OneHot(i), i);
    assert !InWord(OneHot(i), j);
    MeetsFacts(OneHot(j), OneHot(i));
  }

  lemma {:induction false} OneHotIsNonZero(i: nat)
    requires i < 64
    ensures OneHot(i) != 0
  {
    if OneHot(i) == 0 {
      ShiftedZero(63 - i);
      ShiftedTwice(1, i, 63 - i);
      OneHotTop();
    }
  }

  lemma {:induction false} ShiftedZero(k: nat)
    ensures Shifted(0, k) == 0
    decreases k
  {
    MeetsFacts(0, 0);
    if k > 0 {
      ShiftedZero(k - 1);
    }
  }

  lemma OneHotTop()
    ensures OneHot(63) != 0
  {
    assert OneHot(7) == 0x80;
    NextByte(7, 0x80);
    NextByte(15, 0x8000);
    NextByte(23, 0x80_0000);
    NextByte(31, 0x8000_0000);
    NextByte(39, 0x80_0000_0000);
    NextByte(47, 0x8000_0000_0000);
    NextByte(55, 0x80_0000_0000_0000);
  }

  // Words as sets of bit positions.

  lemma OrIsUnion(a: bv64, b: bv64)
    ensures WordBits(Or(a, b)) == WordBits(a) + WordBits(b)
  {
    hide Or, Meets, OneHot;
    forall i: nat
      ensures InWord(Or(a, b), i) <==> InWord(a, i) || InWord(b, i)
    {
      OrMeetsNeither(a, b, OneHot(i));
      OrMeetsEither(a, b, OneHot(i));
      OrMeetsEither(b, a, OneHot(i));
    }
  }

  lemma OneHotIsSingleton(i: nat)
    requires i < 64
    ensures WordBits(OneHot(i)) == {i}
  {
    hide Meets, OneHot;
    OneHotIsNonZero(i);
    MeetsFacts(OneHot(i), OneHot(i));
    forall j: nat | j < 64 && j != i
      ensures !InWord(OneHot(i), j)
    {
      if j < i {
        InWordBelowOneHot(i, j);
      } else {
        InWordBelowOneHot(j, i);
      }
    }
  }

  /** `a &^ b == 0` says that every bit of a is a bit of b. */
  lemma AndNotIsSubset(a: bv64, b: bv64)
    ensures AndNot(a, b) == 0 <==> WordBits(a) <= WordBits(b)
  {
    hide AndNot, Meets, OneHot;
    if AndNot(a, b) == 0 {
      forall i: nat | InWord(a, i)
        ensures InWord(b, i)
      {
        AndNotMeets(a, b, OneHot(i));
      }
    } else {
      var i := NonZeroHasBit(AndNot(a, b));
      OneHotIsPower(i);
      AndNotAtPower(a, b, OneHot(i));
      assert i in WordBits(a) && i !in WordBits(b);
    }
  }

  lemma ZeroIsEmpty()
    ensures WordBits(0) == {}
  {
    hide Meets, OneHot;
    forall i: nat
      ensures !InWord(0, i)
    {
      MeetsFacts(0, OneHot(i));
    }
  }

  // ---- whole masks ----

  /** The number of words that hold `n` bits. */
  function WordsFor(n: nat): nat {
    (n + 63) / 64
  }

  /** What a mask means: the set of its bit positions. */
  ghost function Bits(m: Mask): set<nat> {
    set b: nat | b < 64 * |m| && b % 64 in WordBits(m[b / 64])
  }

  function Has(m: Mask, bit: nat): (r: bool)
    requires bit < 64 * |m|
    ensures r <==> bit in Bits(m)
  {
    InWord(m[bit / 64], bit % 64)
  }

  function Zero(words: nat): (m: Mask)
    ensures |m| == words && Bits(m) == {}
  {
    ZeroIsEmpty();
    seq(words, _ => 0)
  }

  /** Sets one bit: `mask[bit/64] |= 1 << (bit%64)`. */
  function SetBit(m: Mask, bit: nat): (r: Mask)
    requires bit < 64 * |m|
    ensures |r| == |m| && Bits(r) == Bits(m) + {bit}
  {
    SetBitAdds(m, bit);
    m[bit / 64 := Or(m[bit / 64], OneHot(bit % 64))]
  }

  lemma SetBitAdds(m: Mask, bit: nat)
    requires bit < 64 * |m|
    ensures Bits(m[bit / 64 := Or(m[bit / 64], OneHot(bit % 64))]) == Bits(m) + {bit}
  {
    hide WordBits, OneHot, Or;
    OrIsUnion(m[bit / 64], OneHot(bit % 64));
    OneHotIsSingleton(bit % 64);
  }

  /** A mask is contained in another of the same width exactly when its bits are. */
  method SubsetOf(m: Mask, other: Mask) returns (r: bool)
    requires |m| == |other|
    ensures r <==> Bits(m) <= Bits(other)
  {
    hide WordBits, AndNot;
    for i := 0 to |m|
      invariant forall k :: 0 <= k < i ==> WordBits(m[k]) <= WordBits(other[k])
    {
      AndNotIsSubset(m[i], other[i]);
      if AndNot(m[i], other[i]) != 0 {
        ExcessBit(m, other, i);
        return false;
      }
    }
    return true;
  }

  lemma ExcessBit(m: Mask, other: Mask, i: nat)
    requires i < |m| == |other| && !(WordBits(m[i]) <= WordBits(other[i]))
    ensures !(Bits(m) <= Bits(other))
  {
    hide InWord;
    var low :| low in WordBits(m[i]) && low !in WordBits(other[i]);
    assert (64 * i + low) / 64 == i && (64 * i + low) % 64 == low;
    assert 64 * i + low in Bits(m);
  }

  /** The union of two masks of the same width holds exactly the bits of both. */
  method UnionMask(left: Mask, right: Mask) returns (result: Mask)
    requires |left| == |right|
    ensures |result| == |left| && Bits(result) == Bits(left) + Bits(right)
  {
    hide WordBits, Or;
    result := [];
    for i := 0 to |left|
      invariant |result| == i
      invariant forall k :: 0 <= k < i ==> WordBits(result[k]) == WordBits(left[k]) + WordBits(right[k])
    {
      OrIsUnion(left[i], right[i]);
      result := result + [Or(left[i], right[i])];
    }
  }

  /** The mask that holds the `n` lowest bits. */
  method FullMask(n: nat) returns (mask: Mask)
    ensures |mask| == WordsFor(n)
    ensures forall b: nat :: b in Bits(mask) <==> b < n
  {
    mask := Zero(WordsFor(n));
    for bit := 0 to n
      invariant |mask| == WordsFor(n)
      invariant forall b: nat :: b in Bits(mask) <==> b < bit
    {
      hide *;
      mask := SetBit(mask, bit);
    }
  }
}

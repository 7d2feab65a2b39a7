/** 64-bit words and the number each one denotes. */
module Words {
  const TWO_TO_64: int := 0x1_0000_0000_0000_0000
  type u64 = n: int | 0 <= n < TWO_TO_64
  const ALL_ONES: bv64 := 0xFFFF_FFFF_FFFF_FFFF

  predicate Odd(b: bv64) { b & 1 == 1 }

  function Half(b: bv64): bv64 { b >> 1 }

  predicate Within(a: bv64, b: bv64) { a | b == b }

  predicate Next(b: bv64, c: bv64) { b != ALL_ONES && c == b + 1 }

  lemma HalfShrinks(b: bv64)
    requires b != 0
    ensures Half(b) < b
    ensures Half(b) == 0 ==> Odd(b)
  {}

  // The number a word denotes, read bit by bit.
  function Val(b: bv64): nat
    decreases b
  {
    if b == 0 then 0
    else HalfShrinks(b); 2 * Val(Half(b)) + (if Odd(b) then 1 else 0)
  }

  lemma ValUnfold(b: bv64)
    ensures Val(b) == 2 * Val(Half(b)) + (if Odd(b) then 1 else 0)
  {
    if b == 0 {
      assert Half(b) == 0;
    }
  }

  lemma HalfDetermines(a: bv64, b: bv64)
    requires Half(a) == Half(b) && Odd(a) == Odd(b)
    ensures a == b
  {}

  lemma {:induction false} ValIsNonzero(b: bv64)
    requires b != 0
    ensures Val(b) != 0
    decreases b
  {
    HalfShrinks(b);
    if Half(b) != 0 {
      ValIsNonzero(Half(b));
    }
  }

  lemma {:induction false} ValIsInjective(a: bv64, b: bv64)
    requires Val(a) == Val(b)
    ensures a == b
    decreases a
  {
    if a == 0 {
      if b != 0 { ValIsNonzero(b); }
    } else if b == 0 {
      ValIsNonzero(a);
    } else {
      HalfShrinks(a);
      ValUnfold(a);
      ValUnfold(b);
      ValIsInjective(Half(a), Half(b));
      HalfDetermines(a, b);
    }
  }

  lemma NextOfOdd(b: bv64, c: bv64)
    requires Next(b, c) && Odd(b)
    ensures !Odd(c) && Next(Half(b), Half(c))
  {}

  lemma NextOfEven(b: bv64, c: bv64)
    requires Next(b, c) && !Odd(b)
    ensures Odd(c) && Half(c) == Half(b)
  {}

  lemma OddIsNonzero(b: bv64)
    requires Odd(b)
    ensures b != 0
  {}

  lemma {:induction false} ValOfNext(b: bv64, c: bv64)
    requires Next(b, c)
    ensures Val(c) == Val(b) + 1
    decreases b
  {
    ValUnfold(b);
    ValUnfold(c);
    if Odd(b) {
      OddIsNonzero(b);
      HalfShrinks(b);
      NextOfOdd(b, c);
      ValOfNext(Half(b), Half(c));
    } else {
      NextOfEven(b, c);
    }
  }

  lemma WithinHalves(a: bv64, b: bv64)
    requires Within(a, b)
    ensures Within(Half(a), Half(b)) && (Odd(a) ==> Odd(b))
  {}

  lemma {:induction false} ValIsMonotone(a: bv64, b: bv64)
    requires Within(a, b)
    ensures Val(a) <= Val(b)
    decreases a
  {
    if a != 0 {
      ValUnfold(a);
      ValUnfold(b);
      WithinHalves(a, b);
      HalfShrinks(a);
      ValIsMonotone(Half(a), Half(b));
    }
  }

  lemma OnesBelow(h: bv64, b: bv64)
    requires h < 0x8000_0000_0000_0000 && b == (h << 1) | 1
    ensures Half(b) == h && Odd(b)
  {}

  lemma AppendOne(h: bv64) returns (b: bv64)
    requires h < 0x8000_0000_0000_0000
    ensures b == (h << 1) | 1
    ensures Val(b) == 2 * Val(h) + 1
  {
    b := (h << 1) | 1;
    OnesBelow(h, b);
    ValUnfold(b);
  }

  lemma AppendFourOnes(h: bv64, b: bv64)
    requires h < 0x1000_0000_0000_0000 && b == (h << 4) | 15
    ensures Val(b) == 16 * Val(h) + 15
  {
    var h1 := AppendOne(h);
    var h2 := AppendOne(h1);
    var h3 := AppendOne(h2);
    var h4 := AppendOne(h3);
  }

  lemma ValOfAllOnes()
    ensures Val(ALL_ONES) == TWO_TO_64 - 1
  {
    AppendFourOnes(0x0, 0xF);
    AppendFourOnes(0xF, 0xFF);
    AppendFourOnes(0xFF, 0xFFF);
    AppendFourOnes(0xFFF, 0xFFFF);
    AppendFourOnes(0xFFFF, 0xF_FFFF);
    AppendFourOnes(0xF_FFFF, 0xFF_FFFF);
    AppendFourOnes(0xFF_FFFF, 0xFFF_FFFF);
    AppendFourOnes(0xFFF_FFFF, 0xFFFF_FFFF);
    AppendFourOnes(0xFFFF_FFFF, 0xF_FFFF_FFFF);
    AppendFourOnes(0xF_FFFF_FFFF, 0xFF_FFFF_FFFF);
    AppendFourOnes(0xFF_FFFF_FFFF, 0xFFF_FFFF_FFFF);
    AppendFourOnes(0xFFF_FFFF_FFFF, 0xFFFF_FFFF_FFFF);
    AppendFourOnes(0xFFFF_FFFF_FFFF, 0xF_FFFF_FFFF_FFFF);
    AppendFourOnes(0xF_FFFF_FFFF_FFFF, 0xFF_FFFF_FFFF_FFFF);
    AppendFourOnes(0xFF_FFFF_FFFF_FFFF, 0xFFF_FFFF_FFFF_FFFF);
    AppendFourOnes(0xFFF_FFFF_FFFF_FFFF, 0xFFFF_FFFF_FFFF_FFFF);
  }

  lemma ValIsBounded(b: bv64)
    ensures Val(b) < TWO_TO_64
  {
    assert Within(b, ALL_ONES);
    ValIsMonotone(b, ALL_ONES);
    ValOfAllOnes();
  }

  // The word that denotes n, reached by counting up from zero.
  function WordOf(n: nat): bv64 {
    if n == 0 then 0 else WordOf(n - 1) + 1
  }

  lemma {:induction false} ValOfWordOf(n: nat)
    requires n < TWO_TO_64
    ensures Val(WordOf(n)) == n
  {
    if n > 0 {
      ValOfWordOf(n - 1);
      ValOfAllOnes();
      ValOfNext(WordOf(n - 1), WordOf(n));
    }
  }

  lemma WordOfVal(b: bv64)
    ensures Val(b) < TWO_TO_64 && WordOf(Val(b)) == b
  {
    ValIsBounded(b);
    ValOfWordOf(Val(b));
    ValIsInjective(b, WordOf(Val(b)));
  }
}

/** The xor-shifts of a 64-bit word and the maps that undo them. */
module XorShifts {
  import opened Words

  function Xor(a: bv64, b: bv64): bv64 { a ^ b }

  function Shift30(z: bv64): bv64 { Xor(z, z >> 30) }
  function Shift27(z: bv64): bv64 { Xor(z, z >> 27) }
  function Shift31(z: bv64): bv64 { Xor(z, z >> 31) }

  function Unshift30(z: bv64): bv64 { Xor(z, Xor(z >> 30, z >> 60)) }
  function Unshift27(z: bv64): bv64 { Xor(z, Xor(z >> 27, z >> 54)) }
  function Unshift31(z: bv64): bv64 { Xor(z, Xor(z >> 31, z >> 62)) }

  lemma XorMoves(p: bv64, a: bv64, b: bv64)
    requires p == Xor(a, b)
    ensures Xor(p, b) == a
  {}

  lemma XorUnwinds(y: bv64, z: bv64, p: bv64, a: bv64, b: bv64)
    requires y == Xor(z, a) && p == Xor(a, b)
    ensures Xor(y, Xor(p, b)) == z
  {
    XorMoves(p, a, b);
    XorMoves(y, z, a);
  }

  lemma Spread30(y: bv64, z: bv64)
    requires y == Xor(z, z >> 30)
    ensures y >> 30 == Xor(z >> 30, z >> 60) && y >> 60 == z >> 60
  {}

  lemma Spread27(y: bv64, z: bv64)
    requires y == Xor(z, z >> 27)
    ensures y >> 27 == Xor(z >> 27, z >> 54) && y >> 54 == z >> 54
  {}

  lemma Spread31(y: bv64, z: bv64)
    requires y == Xor(z, z >> 31)
    ensures y >> 31 == Xor(z >> 31, z >> 62) && y >> 62 == z >> 62
  {}

  lemma Unwind30(z: bv64, y: bv64)
    requires y == Xor(z, z >> 30)
    ensures Xor(y, Xor(y >> 30, y >> 60)) == z
  {
    Spread30(y, z);
    XorUnwinds(y, z, y >> 30, z >> 30, z >> 60);
  }

  lemma Unwind27(z: bv64, y: bv64)
    requires y == Xor(z, z >> 27)
    ensures Xor(y, Xor(y >> 27, y >> 54)) == z
  {
    Spread27(y, z);
    XorUnwinds(y, z, y >> 27, z >> 27, z >> 54);
  }

  lemma Unwind31(z: bv64, y: bv64)
    requires y == Xor(z, z >> 31)
    ensures Xor(y, Xor(y >> 31, y >> 62)) == z
  {
    Spread31(y, z);
    XorUnwinds(y, z, y >> 31, z >> 31, z >> 62);
  }

  lemma UnshiftIs30(y: bv64)
    ensures Unshift30(y) == Xor(y, Xor(y >> 30, y >> 60))
  {}

  lemma UnshiftIs27(y: bv64)
    ensures Unshift27(y) == Xor(y, Xor(y >> 27, y >> 54))
  {}

  lemma UnshiftIs31(y: bv64)
    ensures Unshift31(y) == Xor(y, Xor(y >> 31, y >> 62))
  {}

  lemma UndoneFrom30(z: bv64, y: bv64)
    requires y == Xor(z, z >> 30)
    ensures Unshift30(y) == z
  {
    Unwind30(z, y);
    UnshiftIs30(y);
  }

  lemma UndoneFrom27(z: bv64, y: bv64)
    requires y == Xor(z, z >> 27)
    ensures Unshift27(y) == z
  {
    Unwind27(z, y);
    UnshiftIs27(y);
  }

  lemma UndoneFrom31(z: bv64, y: bv64)
    requires y == Xor(z, z >> 31)
    ensures Unshift31(y) == z
  {
    Unwind31(z, y);
    UnshiftIs31(y);
  }

  lemma ShiftsAreUndone(z: bv64)
    ensures Unshift30(Shift30(z)) == z
    ensures Unshift27(Shift27(z)) == z
    ensures Unshift31(Shift31(z)) == z
  {
    UndoneFrom30(z, Shift30(z));
    UndoneFrom27(z, Shift27(z));
    UndoneFrom31(z, Shift31(z));
  }

  lemma FoldBits30(s: bv64, x: bv64)
    requires s == x ^ ((x >> 30) ^ (x >> 60))
    ensures s >> 30 == (x >> 30) ^ (x >> 60)
  {}

  lemma Fold30(s: bv64, x: bv64)
    requires s == Xor(x, Xor(x >> 30, x >> 60))
    ensures s >> 30 == Xor(x >> 30, x >> 60)
  {
    FoldBits30(s, x);
  }

  lemma FoldBits27(s: bv64, x: bv64)
    requires s == x ^ ((x >> 27) ^ (x >> 54))
    ensures s >> 27 == (x >> 27) ^ (x >> 54)
  {}

  lemma Fold27(s: bv64, x: bv64)
    requires s == Xor(x, Xor(x >> 27, x >> 54))
    ensures s >> 27 == Xor(x >> 27, x >> 54)
  {
    FoldBits27(s, x);
  }

  lemma FoldBits31(s: bv64, x: bv64)
    requires s == x ^ ((x >> 31) ^ (x >> 62))
    ensures s >> 31 == (x >> 31) ^ (x >> 62)
  {}

  lemma Fold31(s: bv64, x: bv64)
    requires s == Xor(x, Xor(x >> 31, x >> 62))
    ensures s >> 31 == Xor(x >> 31, x >> 62)
  {
    FoldBits31(s, x);
  }

  lemma RedoneBy30(x: bv64, s: bv64)
    requires s == Xor(x, Xor(x >> 30, x >> 60))
    ensures Shift30(s) == x
  {
    Fold30(s, x);
    XorMoves(s, x, Xor(x >> 30, x >> 60));
  }

  lemma RedoneBy27(x: bv64, s: bv64)
    requires s == Xor(x, Xor(x >> 27, x >> 54))
    ensures Shift27(s) == x
  {
    Fold27(s, x);
    XorMoves(s, x, Xor(x >> 27, x >> 54));
  }

  lemma RedoneBy31(x: bv64, s: bv64)
    requires s == Xor(x, Xor(x >> 31, x >> 62))
    ensures Shift31(s) == x
  {
    Fold31(s, x);
    XorMoves(s, x, Xor(x >> 31, x >> 62));
  }

  lemma ShiftsReachEveryWord(x: bv64)
    ensures Shift30(Unshift30(x)) == x
    ensures Shift27(Unshift27(x)) == x
    ensures Shift31(Unshift31(x)) == x
  {
    UnshiftIs30(x);
    UnshiftIs27(x);
    UnshiftIs31(x);
    RedoneBy30(x, Unshift30(x));
    RedoneBy27(x, Unshift27(x));
    RedoneBy31(x, Unshift31(x));
  }
}

/** The random member choice: a SplitMix64 generator with rejection sampling. */
module RandomIndex {
  import opened Arithmetic
  import opened Words
  import opened XorShifts

  const GOLDEN: u64 := 0x9E37_79B9_7F4A_7C15
  const FIRST_FACTOR: u64 := 0xBF58_476D_1CE4_E5B9
  const SECOND_FACTOR: u64 := 0x94D0_49BB_1331_11EB
  // The inverses of those three odd constants modulo 2^64.
  const GOLDEN_INVERSE: u64 := 0xF1DE_83E1_9937_733D
  const FIRST_INVERSE: u64 := 0x96DE_1B17_3F11_9089
  const SECOND_INVERSE: u64 := 0x3196_42B2_D24D_8EC3

  function WrappingAdd(a: u64, b: u64): u64 { (a + b) % TWO_TO_64 }

  function WrappingMul(a: u64, b: u64): u64 { (a * b) % TWO_TO_64 }

  function OnWord(f: bv64 -> bv64, n: u64): u64 {
    ValIsBounded(f(WordOf(n))); Val(f(WordOf(n)))
  }

  // The word derived from one generator state.
  function Mix(s: u64): u64 {
    var a := WrappingMul(OnWord(Shift30, s), FIRST_FACTOR);
    var b := WrappingMul(OnWord(Shift27, a), SECOND_FACTOR);
    OnWord(Shift31, b)
  }

  function Unmix(w: u64): u64 {
    var b := WrappingMul(OnWord(Unshift31, w), SECOND_INVERSE);
    var a := WrappingMul(OnWord(Unshift27, b), FIRST_INVERSE);
    OnWord(Unshift30, a)
  }

  lemma OnWordsInTurn(f: bv64 -> bv64, g: bv64 -> bv64, n: u64)
    requires g(f(WordOf(n))) == WordOf(n)
    ensures OnWord(g, OnWord(f, n)) == n
  {
    WordOfVal(f(WordOf(n)));
    ValOfWordOf(n);
  }

  lemma ShiftsCancel(n: u64)
    ensures OnWord(Unshift30, OnWord(Shift30, n)) == n == OnWord(Shift30, OnWord(Unshift30, n))
    ensures OnWord(Unshift27, OnWord(Shift27, n)) == n == OnWord(Shift27, OnWord(Unshift27, n))
    ensures OnWord(Unshift31, OnWord(Shift31, n)) == n == OnWord(Shift31, OnWord(Unshift31, n))
  {
    ShiftsAreUndone(WordOf(n));
    ShiftsReachEveryWord(WordOf(n));
    OnWordsInTurn(Shift30, Unshift30, n);
    OnWordsInTurn(Unshift30, Shift30, n);
    OnWordsInTurn(Shift27, Unshift27, n);
    OnWordsInTurn(Unshift27, Shift27, n);
    OnWordsInTurn(Shift31, Unshift31, n);
    OnWordsInTurn(Unshift31, Shift31, n);
  }

  lemma RemainderOfMultiple(x: int, q: int, n: int)
    requires x == q * TWO_TO_64 + n && 0 <= n < TWO_TO_64
    ensures x % TWO_TO_64 == n
  {}

  lemma ProductsCancel(n: u64)
    ensures WrappingMul(WrappingMul(n, FIRST_FACTOR), FIRST_INVERSE) == n
    ensures WrappingMul(WrappingMul(n, FIRST_INVERSE), FIRST_FACTOR) == n
    ensures WrappingMul(WrappingMul(n, SECOND_FACTOR), SECOND_INVERSE) == n
    ensures WrappingMul(WrappingMul(n, SECOND_INVERSE), SECOND_FACTOR) == n
  {
    FactorCancels(n, FIRST_FACTOR, FIRST_INVERSE, (FIRST_FACTOR * FIRST_INVERSE) / TWO_TO_64);
    FactorCancels(n, FIRST_INVERSE, FIRST_FACTOR, (FIRST_FACTOR * FIRST_INVERSE) / TWO_TO_64);
    FactorCancels(n, SECOND_FACTOR, SECOND_INVERSE, (SECOND_FACTOR * SECOND_INVERSE) / TWO_TO_64);
    FactorCancels(n, SECOND_INVERSE, SECOND_FACTOR, (SECOND_FACTOR * SECOND_INVERSE) / TWO_TO_64);
  }

  lemma FactorCancels(n: u64, c: u64, inverse: u64, m: int)
    requires c * inverse == m * TWO_TO_64 + 1
    ensures WrappingMul(WrappingMul(n, c), inverse) == n
  {
    var q := (n * c) / TWO_TO_64;
    var r := WrappingMul(n, c);
    calc {
      r * inverse;
      (n * c - q * TWO_TO_64) * inverse;
      n * (c * inverse) - q * inverse * TWO_TO_64;
      n * (m * TWO_TO_64 + 1) - q * inverse * TWO_TO_64;
      (n * m - q * inverse) * TWO_TO_64 + n;
    }
    RemainderOfMultiple(r * inverse, n * m - q * inverse, n);
  }

  // The mixing step is a bijection on 64-bit words.
  lemma MixIsBijective(w: u64)
    ensures Unmix(Mix(w)) == w && Mix(Unmix(w)) == w
  {
    var a := OnWord(Shift30, w);
    var b := OnWord(Shift27, WrappingMul(a, FIRST_FACTOR));
    ShiftsCancel(w);
    ProductsCancel(a);
    ShiftsCancel(WrappingMul(a, FIRST_FACTOR));
    ProductsCancel(b);
    ShiftsCancel(WrappingMul(b, SECOND_FACTOR));
    var c := OnWord(Unshift31, w);
    var d := OnWord(Unshift27, WrappingMul(c, SECOND_INVERSE));
    ProductsCancel(c);
    ShiftsCancel(WrappingMul(c, SECOND_INVERSE));
    ProductsCancel(d);
    ShiftsCancel(WrappingMul(d, FIRST_INVERSE));
  }

  // The generator's state after k increments.
  function Advance(seed: u64, k: nat): u64 {
    if k == 0 then seed else WrappingAdd(Advance(seed, k - 1), GOLDEN)
  }

  lemma {:induction false} AdvanceIsLinear(seed: u64, k: nat) returns (wraps: nat)
    ensures Advance(seed, k) == seed + k * GOLDEN - wraps * TWO_TO_64
  {
    if k == 0 {
      wraps := 0;
    } else {
      var w := AdvanceIsLinear(seed, k - 1);
      var before := Advance(seed, k - 1);
      wraps := w + (before + GOLDEN) / TWO_TO_64;
    }
  }

  lemma OnlyMultipleInRange(d: int, n: int)
    requires -TWO_TO_64 < d < TWO_TO_64
    requires d * GOLDEN == n * TWO_TO_64
    ensures d == 0
  {
    var m := 0x957BBF35006ED677;
    assert GOLDEN * GOLDEN_INVERSE == m * TWO_TO_64 + 1;
    assert d == (n * GOLDEN_INVERSE - m * d) * TWO_TO_64;
  }

  lemma SameLine(seed: int, i: int, j: int, v: int, w: int)
    requires -TWO_TO_64 < i - j < TWO_TO_64
    requires seed + i * GOLDEN - v * TWO_TO_64 == seed + j * GOLDEN - w * TWO_TO_64
    ensures i == j
  {
    ProductOfDifference(i, j, GOLDEN);
    ProductOfDifference(v, w, TWO_TO_64);
    OnlyMultipleInRange(i - j, v - w);
  }

  // No state comes back within 2^64 increments.
  lemma StatesDoNotRepeat(seed: u64, i: nat, j: nat)
    requires i < TWO_TO_64 && j < TWO_TO_64
    requires Advance(seed, i) == Advance(seed, j)
    ensures i == j
  {
    var v := AdvanceIsLinear(seed, i);
    var w := AdvanceIsLinear(seed, j);
    SameLine(seed, i, j, v, w);
  }

  ghost predicate Bijective(mix: u64 -> u64, unmix: u64 -> u64) {
    forall w: u64 :: unmix(mix(w)) == w && mix(unmix(w)) == w
  }

  function Threshold(count: nat): nat
    requires count > 0
  {
    (TWO_TO_64 - count) % count
  }

  function Draw(mix: u64 -> u64, seed: u64, k: nat): u64 { mix(Advance(seed, k)) }

  lemma DrawsDoNotRepeat(mix: u64 -> u64, unmix: u64 -> u64, seed: u64, i: nat, j: nat)
    requires Bijective(mix, unmix)
    requires i < TWO_TO_64 && j < TWO_TO_64
    requires Draw(mix, seed, i) == Draw(mix, seed, j)
    ensures i == j
  {
    assert unmix(mix(Advance(seed, i))) == unmix(mix(Advance(seed, j)));
    StatesDoNotRepeat(seed, i, j);
  }

  function Image<A, B(==)>(s: set<A>, f: A -> B): set<B> { set x | x in s :: f(x) }

  lemma {:induction false} ImageHasSameSize<A, B>(s: set<A>, f: A -> B)
    requires forall x, y :: x in s && y in s && f(x) == f(y) ==> x == y
    ensures |Image(s, f)| == |s|
    decreases s
  {
    if s != {} {
      var x :| x in s;
      ImageHasSameSize(s - {x}, f);
      assert Image(s, f) == Image(s - {x}, f) + {f(x)};
    }
  }

  predicate Between(lo: int, n: int, hi: int) { lo <= n < hi }

  function Range(lo: int, hi: int): set<int> { set n: int | lo <= n < hi && Between(lo, n, hi) }

  lemma {:induction false} RangeSize(lo: int, hi: int)
    requires lo <= hi
    ensures |Range(lo, hi)| == hi - lo
    decreases hi - lo
  {
    if lo < hi {
      RangeSize(lo, hi - 1);
      assert Range(lo, hi) == Range(lo, hi - 1) + {hi - 1};
    }
  }

  lemma SubsetSize<A>(s: set<A>, t: set<A>)
    requires s <= t
    ensures |s| <= |t|
  {
    assert s + (t - s) == t;
  }

  lemma Pigeonhole(f: int -> int, k: nat, t: nat)
    requires forall j :: 1 <= j <= k ==> 0 <= f(j) < t
    requires forall i, j :: 1 <= i <= k && 1 <= j <= k && f(i) == f(j) ==> i == j
    ensures k <= t
  {
    var steps := Range(1, k + 1);
    ImageHasSameSize(steps, f);
    RangeSize(1, k + 1);
    RangeSize(0, t);
    SubsetSize(Image(steps, f), Range(0, t));
  }

  // At most 2^64 mod count draws in a row can be rejected.
  lemma RejectionsAreBounded(mix: u64 -> u64, unmix: u64 -> u64, seed: u64, k: nat, count: nat)
    requires Bijective(mix, unmix) && 0 < count < TWO_TO_64
    requires forall j :: 1 <= j <= k ==> Draw(mix, seed, j) < Threshold(count)
    ensures k <= Threshold(count)
  {
    var t := Threshold(count);
    DistinctDrawsFit(mix, unmix, seed, if k > t then t + 1 else k, t);
  }

  lemma DistinctDrawsFit(mix: u64 -> u64, unmix: u64 -> u64, seed: u64, k: nat, t: nat)
    requires Bijective(mix, unmix) && k < TWO_TO_64
    requires forall j :: 1 <= j <= k ==> Draw(mix, seed, j) < t
    ensures k <= t
  {
    var f := (j: int) => if j >= 0 then Draw(mix, seed, j) else 0;
    forall i, j | 1 <= i <= k && 1 <= j <= k && f(i) == f(j) ensures i == j {
      DrawsDoNotRepeat(mix, unmix, seed, i, j);
    }
    Pigeonhole(f, k, t);
  }

  // Draw number k + 1 is the first that is not rejected.
  predicate FirstAccepted(mix: u64 -> u64, seed: u64, k: nat, count: nat)
    requires count > 0
  {
    && (forall j :: 1 <= j <= k ==> Draw(mix, seed, j) < Threshold(count))
    && Draw(mix, seed, k + 1) >= Threshold(count)
  }

  // The index and state left behind by drawing until a word is accepted.
  ghost predicate Chosen(mix: u64 -> u64, state: u64, count: nat, index: nat, state': u64)
    requires count > 0
  {
    exists k :: 0 <= k <= Threshold(count) && FirstAccepted(mix, state, k, count)
      && state' == Advance(state, k + 1) && index == Draw(mix, state, k + 1) % count
  }

  lemma {:induction false} AdvanceOn(seed: u64, i: nat, k: nat)
    ensures Advance(Advance(seed, i), k) == Advance(seed, i + k)
  {
    if k > 0 {
      AdvanceOn(seed, i, k - 1);
    }
  }

  // Draw number `now` of the sequence from this seed gives the index, and those after number `before`
  // that come in between are rejected.
  ghost predicate DrawnNext(mix: u64 -> u64, seed: u64, before: nat, now: nat, count: nat, index: nat)
    requires count > 0
  {
    && before < now && index == Draw(mix, seed, now) % count && Draw(mix, seed, now) >= Threshold(count)
    && forall j :: before < j < now ==> Draw(mix, seed, j) < Threshold(count)
  }

  // A choice made from within a sequence continues that sequence.
  lemma ChosenContinues(mix: u64 -> u64, seed: u64, before: nat, state: u64, count: nat, index: nat, state': u64)
    returns (now: nat)
    requires count > 0 && state == Advance(seed, before) && Chosen(mix, state, count, index, state')
    ensures state' == Advance(seed, now) && DrawnNext(mix, seed, before, now, count, index)
  {
    var k: nat :| k <= Threshold(count) && FirstAccepted(mix, state, k, count)
      && state' == Advance(state, k + 1) && index == Draw(mix, state, k + 1) % count;
    now := before + k + 1;
    AdvanceOn(seed, before, k + 1);
    forall j | before < j < now ensures Draw(mix, seed, j) < Threshold(count) {
      AdvanceOn(seed, before, j - before);
      assert Draw(mix, state, j - before) == Draw(mix, seed, j);
    }
  }

  lemma MixingIsBijective()
    ensures Bijective(Mix, Unmix)
  {
    forall w: u64 ensures Unmix(Mix(w)) == w && Mix(Unmix(w)) == w {
      MixIsBijective(w);
    }
  }

  method ChooseWith(mix: u64 -> u64, ghost unmix: u64 -> u64, state: u64, count: nat)
    returns (index: nat, state': u64)
    requires Bijective(mix, unmix) && 0 < count < TWO_TO_64
    ensures index < count
    ensures Chosen(mix, state, count, index, state')
  {
    var threshold := (TWO_TO_64 - count) % count;
    state' := state;
    ghost var k := 0;
    while true
      invariant k <= threshold && state' == Advance(state, k)
      invariant forall j :: 1 <= j <= k ==> Draw(mix, state, j) < threshold
      decreases threshold - k
    {
      state' := WrappingAdd(state', GOLDEN);
      var z := mix(state');
      assert z == Draw(mix, state, k + 1);
      if z >= threshold {
        assert FirstAccepted(mix, state, k, count);
        return z % count, state';
      }
      k := k + 1;
      RejectionsAreBounded(mix, unmix, state, k, count);
    }
  }

  /** Draws an index below count; fewer than count draws are ever thrown away. */
  method Choose(state: u64, count: nat) returns (index: nat, state': u64)
    requires 0 < count < TWO_TO_64
    ensures index < count
    ensures Threshold(count) < count && Chosen(Mix, state, count, index, state')
  {
    MixingIsBijective();
    index, state' := ChooseWith(Mix, Unmix, state, count);
  }

  lemma ThresholdIsRemainder(count: nat)
    requires 0 < count < TWO_TO_64
    ensures Threshold(count) == TWO_TO_64 % count
    ensures TWO_TO_64 == Threshold(count) + (TWO_TO_64 / count) * count
  {
    var q, r := (TWO_TO_64 - count) / count, Threshold(count);
    assert TWO_TO_64 == (q + 1) * count + r;
    QuotientIsUnique(TWO_TO_64, count, q + 1, r);
  }

  function Residues(lo: nat, hi: nat, count: nat, r: nat): set<int>
    requires count > 0
  {
    set n: int | lo <= n < hi && n % count == r
  }

  // Every run of count consecutive numbers holds each residue exactly once.
  lemma OneInEachBlock(lo: nat, count: nat, r: nat) returns (n: nat)
    requires r < count
    ensures lo <= n < lo + count && n % count == r
    ensures forall m: int | lo <= m < lo + count && m % count == r :: m == n
  {
    var q, s := lo / count, lo % count;
    var whole := q * count;
    assert lo == whole + s;
    if s <= r {
      n := whole + r;
      QuotientIsUnique(n, count, q, r);
    } else {
      n := whole + count + r;
      ProductOfSum(q, 1, count);
      QuotientIsUnique(n, count, q + 1, r);
    }
    forall m: int | lo <= m < lo + count && m % count == r ensures m == n {
      SameResidueSameBlock(m, n, count);
    }
  }

  lemma SameResidueSameBlock(m: int, n: int, count: int)
    requires count > 0 && m % count == n % count && -count < m - n < count
    ensures m == n
  {
    var d := m / count - n / count;
    assert m == (m / count) * count + m % count;
    assert n == (n / count) * count + n % count;
    assert m - n == d * count;
    if d >= 1 {
      ProductAtLeast(d, count);
    } else if d <= -1 {
      ProductAtLeast(-d, count);
    }
  }

  lemma {:induction false} ResiduesAreEven(lo: nat, blocks: nat, count: nat, r: nat)
    requires r < count
    ensures |Residues(lo, lo + blocks * count, count, r)| == blocks
    decreases blocks
  {
    if blocks == 0 {
      assert Residues(lo, lo, count, r) == {};
    } else {
      var mid := lo + (blocks - 1) * count;
      assert lo + blocks * count == mid + count;
      ResiduesAreEven(lo, blocks - 1, count, r);
      var n := OneInEachBlock(mid, count, r);
      assert Residues(lo, mid + count, count, r) == Residues(lo, mid, count, r) + {n};
    }
  }

  predicate Yields(mix: u64 -> u64, s: u64, count: nat, r: nat)
    requires count > 0
  {
    mix(s) >= Threshold(count) && mix(s) % count == r
  }

  // A chosen index is what a multiple of the count leaves of the word that the new state yields, and that
  // word is not among the lowest 2^64 mod count.
  lemma ChosenIsYielded(mix: u64 -> u64, state: u64, count: nat, index: nat, state': u64) returns (q: nat)
    requires 0 < count < TWO_TO_64 && Chosen(mix, state, count, index, state')
    ensures mix(state') == q * count + index && index < count && mix(state') >= TWO_TO_64 % count
    ensures Yields(mix, state', count, index)
  {
    ThresholdIsRemainder(count);
    q := Quotient(mix(state'), count);
  }

  lemma Quotient(n: nat, d: nat) returns (q: nat)
    requires d > 0
    ensures n == q * d + n % d && n % d < d
  {
    q := n / d;
  }

  // The states whose word is accepted and gives index r, listed by that word.
  ghost function StatesYielding(unmix: u64 -> u64, count: nat, r: nat): set<u64>
    requires count > 0
  {
    set n: u64 | n in Residues(Threshold(count), TWO_TO_64, count, r) :: unmix(n)
  }

  lemma EachWordHasOneState(mix: u64 -> u64, unmix: u64 -> u64, words: set<int>)
    requires Bijective(mix, unmix)
    requires forall n :: n in words ==> 0 <= n < TWO_TO_64
    ensures |set n: u64 | n in words :: unmix(n)| == |words|
    ensures forall s: u64 :: s in (set n: u64 | n in words :: unmix(n)) <==> mix(s) in words
  {
    var f := (n: int) => if 0 <= n < TWO_TO_64 then unmix(n) else 0;
    forall m, n | m in words && n in words && f(m) == f(n) ensures m == n {
      assert mix(unmix(m)) == mix(unmix(n));
    }
    ImageHasSameSize(words, f);
    assert Image(words, f) == (set n: u64 | n in words :: unmix(n));
    forall s: u64 ensures s in (set n: u64 | n in words :: unmix(n)) <==> mix(s) in words {
      assert unmix(mix(s)) == s;
    }
  }

  lemma BijectiveChoiceIsUnbiased(mix: u64 -> u64, unmix: u64 -> u64, count: nat, r: nat)
    requires Bijective(mix, unmix) && r < count < TWO_TO_64
    ensures forall s: u64 :: s in StatesYielding(unmix, count, r) <==> Yields(mix, s, count, r)
    ensures |StatesYielding(unmix, count, r)| == TWO_TO_64 / count
  {
    EachWordHasOneState(mix, unmix, Residues(Threshold(count), TWO_TO_64, count, r));
    ThresholdIsRemainder(count);
    ResiduesAreEven(Threshold(count), TWO_TO_64 / count, count, r);
  }

  // Exactly unbiased: every index below count is produced by exactly floor(2^64 / count)
  // of the 2^64 generator states, and by no other.
  lemma ChoiceIsUnbiased(count: nat, r: nat)
    requires r < count < TWO_TO_64
    ensures forall s: u64 :: s in StatesYielding(Unmix, count, r) <==> Yields(Mix, s, count, r)
    ensures |StatesYielding(Unmix, count, r)| == TWO_TO_64 / count
  {
    MixingIsBijective();
    BijectiveChoiceIsUnbiased(Mix, Unmix, count, r);
  }

  // ---- a full cycle of the generator ----

  lemma InRangeOnce(a: u64, b: u64, n: int)
    requires a - b == n * TWO_TO_64
    ensures a == b
  {}

  // Every state is reached from every seed within 2^64 increments.
  lemma StateIsReached(seed: u64, s: u64) returns (j: nat)
    ensures 1 <= j <= TWO_TO_64 && Advance(seed, j) == s
  {
    var d := s - seed;
    var product := d * GOLDEN_INVERSE;
    var q := product / TWO_TO_64;
    j := product % TWO_TO_64;
    if j == 0 {
      j, q := TWO_TO_64, q - 1;
    }
    assert product == q * TWO_TO_64 + j;
    var w := AdvanceIsLinear(seed, j);
    var n := SolvesFor(d, q, j);
    InRangeOnce(Advance(seed, j), s, n - w);
  }

  lemma SolvesFor(d: int, q: int, j: int) returns (n: int)
    requires d * GOLDEN_INVERSE == q * TWO_TO_64 + j
    ensures j * GOLDEN - d == n * TWO_TO_64
  {
    var m := 0x957BBF35006ED677;
    assert GOLDEN * GOLDEN_INVERSE == m * TWO_TO_64 + 1;
    n := d * m - q * GOLDEN;
    assert (d * GOLDEN_INVERSE) * GOLDEN == d * (m * TWO_TO_64 + 1);
    assert (q * TWO_TO_64 + j) * GOLDEN == q * GOLDEN * TWO_TO_64 + j * GOLDEN;
  }

  // Which of the draws numbered 1 to 2^64 are accepted and give index r.
  ghost function DrawsYielding(mix: u64 -> u64, seed: u64, count: nat, r: nat): set<int>
    requires count > 0
  {
    set j: int | 1 <= j <= TWO_TO_64 && Yields(mix, StateAfter(seed, j), count, r)
  }

  function StateAfter(seed: u64, j: int): u64 { if j >= 0 then Advance(seed, j) else seed }

  lemma CycleStatesDiffer(seed: u64, i: int, j: int)
    requires 1 <= i <= TWO_TO_64 && 1 <= j <= TWO_TO_64 && StateAfter(seed, i) == StateAfter(seed, j)
    ensures i == j
  {
    var v := AdvanceIsLinear(seed, i);
    var w := AdvanceIsLinear(seed, j);
    SameLine(seed, i, j, v, w);
  }

  // Among any 2^64 draws in a row, whatever the seed, every index below count comes up exactly
  // floor(2^64 / count) times.
  lemma EveryCycleIsEven(seed: u64, count: nat, r: nat)
    requires r < count < TWO_TO_64
    ensures |DrawsYielding(Mix, seed, count, r)| == TWO_TO_64 / count
  {
    ChoiceIsUnbiased(count, r);
    var draws, states := DrawsYielding(Mix, seed, count, r), StatesYielding(Unmix, count, r);
    var f := (j: int) => StateAfter(seed, j);
    forall i, j | i in draws && j in draws && f(i) == f(j) ensures i == j {
      CycleStatesDiffer(seed, i, j);
    }
    ImageHasSameSize(draws, f);
    forall s: u64 | s in states ensures s in Image(draws, f) {
      var j := StateIsReached(seed, s);
      assert f(j) == s && j in draws;
    }
    assert Image(draws, f) == states;
  }
}

// The words a for loop's counter goes through: comparing and stepping it, with the
// conversions that type checking inserts, is arithmetic on numbers modulo the word size.
module CounterWords {
  import opened Words
  import opened Tree
  import opened Source

  // ----- congruence -----

  lemma {:induction false} Apart(a: int, b: int, m: int)
    requires m > 0 && a % m == b % m
    ensures a == b + (a / m - b / m) * m
  {
    assert a == (a / m) * m + a % m;
    assert b == (b / m) * m + b % m;
    assert (a / m - b / m) * m == (a / m) * m - (b / m) * m;
  }

  lemma {:induction false} SumsCongruent(a: int, b: int, c: int, d: int, m: int)
    requires m > 0 && a % m == b % m && c % m == d % m
    ensures (a + c) % m == (b + d) % m && (a - c) % m == (b - d) % m
  {
    var p, q := a / m - b / m, c / m - d / m;
    Apart(a, b, m);
    Apart(c, d, m);
    assert p * m + q * m == (p + q) * m && p * m - q * m == (p - q) * m;
    ModCongruent(a + c, b + d, m, p + q);
    ModCongruent(a - c, b - d, m, p - q);
  }

  lemma {:induction false} ModTwice(a: int, m: int)
    requires m > 0
    ensures (a % m) % m == a % m
  {
    ModUnique(a % m, m, 0, a % m);
  }

  lemma {:induction false} DifferenceVanishes(a: int, b: int, m: int)
    requires m > 0
    ensures a % m == b % m <==> (a - b) % m == 0
  {
    if a % m == b % m {
      SumsCongruent(a, b, b, b, m);
      assert (b - b) % m == 0;
    }
    if (a - b) % m == 0 {
      assert 0 % m == 0;
      SumsCongruent(a - b, 0, b, b, m);
    }
  }

  /** Congruent modulo a multiple of m is congruent modulo m. */
  lemma {:induction false} CoarserModulus(a: int, b: int, c: int, m: int)
    requires m > 0 && c > 0 && a % (c * m) == b % (c * m)
    ensures a % m == b % m
  {
    var k := a / (c * m) - b / (c * m);
    Apart(a, b, c * m);
    assert k * (c * m) == (k * c) * m;
    ModCongruent(a, b, m, k * c);
  }

  // ----- numbers of a type -----

  /** v is a number of the type. */
  ghost predicate InRange(v: int, ty: IntType)
  {
    var w := ty.Width();
    ty.Int? && if ty.signed then w > 0 && -Pow2(w - 1) <= v < Pow2(w - 1) else 0 <= v < Pow2(w)
  }

  lemma {:induction false} DecodeNumber(v: int, ty: IntType)
    requires InRange(v, ty)
    ensures Decode(ty, v) == v && Decode(ty, Unsigned(v, ty.Width())) == v
  {
    if ty.signed {
      SignedOfNumber(v, ty.Width());
    } else {
      ModUnique(v, Pow2(ty.Width()), 0, v);
    }
  }

  lemma DecodeInRange(ty: IntType, x: int)
    requires ty.Int? && ty.Width() > 0
    ensures InRange(Decode(ty, x), ty)
  {
    assert Pow2(ty.Width()) == 2 * Pow2(ty.Width() - 1);
  }

  /** A word that is congruent to a number of the type stands for it. */
  lemma {:induction false} WordOfNumber(ty: IntType, x: int, v: int)
    requires InRange(v, ty) && x % Pow2(ty.Width()) == v % Pow2(ty.Width())
    ensures Decode(ty, x) == v
  {
    DecodeNumber(v, ty);
    EqualReadings(x, v, ty.Width());
  }

  /** The number a word stands for is congruent to it. */
  lemma {:induction false} DecodesModulo(ty: IntType, x: int)
    ensures Decode(ty, x) % Pow2(ty.Width()) == x % Pow2(ty.Width())
  {
    var m := Pow2(ty.Width());
    var k := ReadingsDiffer(x, ty.Width());
    ModCongruent(Signed(x, ty.Width()), Unsigned(x, ty.Width()), m, k);
    ModTwice(x, m);
  }

  lemma {:induction false} MeaningModulo(op: BinOp, ty: IntType, x: int, v: int, undef: (int, int) -> int)
    requires op in {Add, Sub}
    ensures Meaning(op, ty, x, v, undef) == (if op == Add then x + v else x - v) % Pow2(ty.Width())
  {
    hide Decode, Pow2;
    DecodesModulo(ty, x);
    DecodesModulo(ty, v);
    SumsCongruent(Decode(ty, x), x, Decode(ty, v), v, Pow2(ty.Width()));
  }

  // ----- conversions -----

  /** The types that type checking gives a for loop: of one signedness, the operands of the
      comparison and of the sum at least as wide as the counter. */
  predicate Fitting(ty: CounterTypes)
  {
    && ty.counter.Int? && ty.test.Int? && ty.next.Int?
    && ty.counter.signed == ty.test.signed == ty.next.signed
    && 0 < ty.counter.bytes <= ty.test.bytes && ty.counter.bytes <= ty.next.bytes
  }

  lemma {:induction false} PowersDivide(v: nat, w: nat) returns (c: int)
    requires v <= w
    ensures c > 0 && Pow2(w) == c * Pow2(v)
  {
    c := Pow2(w - v);
    Pow2Splits(v, w - v);
  }

  lemma {:induction false} InWiderRange(v: int, from: IntType, to: IntType)
    requires from.Int? && to.Int? && from.signed == to.signed && from.bytes <= to.bytes && InRange(v, from)
    ensures InRange(v, to)
  {
    PowersGrow(from.Width(), to.Width());
    if from.signed {
      PowersGrow(from.Width() - 1, to.Width() - 1);
    }
  }

  lemma {:induction false} PowersGrow(v: nat, w: nat)
    requires v <= w
    ensures Pow2(v) <= Pow2(w)
  {
    if v < w {
      PowersGrow(v, w - 1);
    }
  }

  /** Widening keeps the number. */
  lemma {:induction false} WideningKeeps(from: IntType, to: IntType, x: int)
    requires from.Int? && to.Int? && from.signed == to.signed && 0 < from.bytes <= to.bytes
    ensures Decode(to, Convert(from, to, x)) == Decode(from, x)
  {
    if from != to {
      var v := Decode(from, x);
      DecodeInRange(from, x);
      InWiderRange(v, from, to);
      DecodeNumber(v, to);
    }
  }

  /** A conversion from a type at least as wide keeps the number modulo the word size. */
  lemma {:induction false} NarrowingModulo(from: IntType, to: IntType, x: int)
    requires to.Width() <= from.Width() && from != to
    ensures Convert(from, to, x) == x % Pow2(to.Width())
  {
    hide Decode, Pow2;
    var c := PowersDivide(to.Width(), from.Width());
    DecodesModulo(from, x);
    CoarserModulus(Decode(from, x), x, c, Pow2(to.Width()));
  }

  lemma {:induction false} WideningModulo(from: IntType, to: IntType, x: int)
    requires from.Width() <= to.Width()
    ensures Convert(from, to, x) % Pow2(from.Width()) == x % Pow2(from.Width())
  {
    hide Decode, Pow2;
    if from != to {
      var c := PowersDivide(from.Width(), to.Width());
      var v := Decode(from, x);
      ModTwice(v, Pow2(to.Width()));
      CoarserModulus(v % Pow2(to.Width()), v, c, Pow2(from.Width()));
      DecodesModulo(from, x);
    }
  }

  // ----- counters -----

  predicate IsRange(cmp: BinOp) { cmp in {Lt, Le, Gt, Ge} }

  function Signum(cmp: BinOp): int { if cmp in {Lt, Le} then 1 else -1 }

  predicate Holds(cmp: BinOp, b: int, limit: int)
  {
    match cmp case Lt => b < limit case Le => b <= limit case Gt => b > limit case _ => b >= limit
  }

  function Moved(cmp: BinOp, b: int, k: int): int { if cmp in {Lt, Le} then b + k else b - k }

  /** The counter is compared as the number it stands for. */
  lemma {:induction false} TestedNumber(cmp: BinOp, ty: CounterTypes, x: int, limit: int, undef: (int, int) -> int)
    requires IsRange(cmp) && Fitting(ty)
    ensures Truth(Tested(cmp, ty, x, limit, undef)) == Holds(cmp, Decode(ty.counter, x), Decode(ty.test, limit))
  {
    hide Decode, Convert;
    WideningKeeps(ty.counter, ty.test, x);
  }

  /** The next counter is the sum, wrapped to the counter's width. */
  lemma {:induction false} NextModulo(cmp: BinOp, ty: CounterTypes, x: int, delta: int, undef: (int, int) -> int)
    requires Fitting(ty)
    ensures NextWord(cmp, ty, x, delta, undef) == Moved(cmp, x, delta) % Pow2(ty.counter.Width())
  {
    hide Decode, Pow2, Convert, Meaning;
    var m, y := Pow2(ty.counter.Width()), Convert(ty.counter, ty.next, x);
    var z := Moved(cmp, y, delta);
    MeaningModulo(Advance(cmp), ty.next, y, delta, undef);
    WideningModulo(ty.counter, ty.next, x);
    SumsCongruent(y, x, delta, delta, m);
    var c := PowersDivide(ty.counter.Width(), ty.next.Width());
    ModTwice(z, Pow2(ty.next.Width()));
    CoarserModulus(z % Pow2(ty.next.Width()), z, c, m);
    SameTypeConverts(ty, x, z % Pow2(ty.next.Width()));
  }

  lemma {:induction false} SameTypeConverts(ty: CounterTypes, x: int, z: int)
    requires Fitting(ty) && 0 <= z < Pow2(ty.next.Width())
    ensures Convert(ty.next, ty.counter, z) == z % Pow2(ty.counter.Width())
  {
    if ty.next == ty.counter {
      ModUnique(z, Pow2(ty.next.Width()), 0, z);
    } else {
      NarrowingModulo(ty.next, ty.counter, z);
    }
  }

  /** Steps whose amounts are congruent move the counter alike. */
  lemma {:induction false} NextNumber(cmp: BinOp, ty: CounterTypes, x: int, delta: int, k: int,
                                      undef: (int, int) -> int)
    requires Fitting(ty) && delta % Pow2(ty.counter.Width()) == k % Pow2(ty.counter.Width())
    requires InRange(Moved(cmp, Decode(ty.counter, x), k), ty.counter)
    ensures Decode(ty.counter, NextWord(cmp, ty, x, delta, undef)) == Moved(cmp, Decode(ty.counter, x), k)
  {
    hide Decode, Pow2, NextWord, InRange;
    var m := Pow2(ty.counter.Width());
    NextModulo(cmp, ty, x, delta, undef);
    DecodesModulo(ty.counter, x);
    SumsCongruent(x, Decode(ty.counter, x), delta, k, m);
    ModTwice(Moved(cmp, x, delta), m);
    WordOfNumber(ty.counter, NextWord(cmp, ty, x, delta, undef), Moved(cmp, Decode(ty.counter, x), k));
  }

  /** Two steps are one of both amounts. */
  lemma {:induction false} StepsCombine(cmp: BinOp, ty: CounterTypes, x: int, j: int, k: int, undef: (int, int) -> int)
    requires Fitting(ty)
    ensures NextWord(cmp, ty, NextWord(cmp, ty, x, j, undef), k, undef) == NextWord(cmp, ty, x, j + k, undef)
  {
    hide Pow2, NextWord;
    var m, y := Pow2(ty.counter.Width()), NextWord(cmp, ty, x, j, undef);
    NextModulo(cmp, ty, x, j, undef);
    NextModulo(cmp, ty, y, k, undef);
    NextModulo(cmp, ty, x, j + k, undef);
    ModTwice(Moved(cmp, x, j), m);
    SumsCongruent(y, Moved(cmp, x, j), k, k, m);
  }
}

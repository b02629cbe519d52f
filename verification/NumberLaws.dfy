// What the operations on words are, told apart from how they are computed: division, and the
// bitwise operators one bit at a time.
module NumberLaws {
  import opened Words

  // ----- powers -----

  lemma PowersOf(w: nat)
    requires w == 64
    ensures Pow2(w - 1) == 0x8000_0000_0000_0000 && Pow2(w) == 0x1_0000_0000_0000_0000
  {
    hide Pow2;
    PowerZero();
    Doubled(w);
    EightMore(w - 8);
    EightMore(w - 16);
    EightMore(w - 24);
    EightMore(w - 32);
    EightMore(w - 40);
    EightMore(w - 48);
    EightMore(w - 56);
    EightMore(w - 64);
  }

  lemma Doubled(w: nat)
    requires w > 0
    ensures Pow2(w) == 2 * Pow2(w - 1)
  {}

  lemma {:induction false} EightMore(w: nat)
    ensures Pow2(w + 8) == 256 * Pow2(w)
  {
    Pow2Splits(w, 8);
  }

  // ----- division -----

  function Abs(a: int): nat { if a < 0 then -a else a }

  /** The quotient q and the remainder r of dividing a by b, as C++ and LLVM define them: the
      remainder is smaller than the divisor and has the sign of the dividend. */
  predicate Divides(a: int, b: int, q: int, r: int) { Leaves(a, b, q * b, r) }

  predicate Leaves(a: int, b: int, p: int, r: int)
  {
    a == p + r && Abs(r) < Abs(b) && (a >= 0 ==> r >= 0) && (a <= 0 ==> r <= 0)
  }

  lemma LeavesAbs(a: int, b: int, p: int, r: int)
    requires b != 0 && Abs(a) == p + r && 0 <= r < Abs(b) && (a == 0 ==> p == 0)
    ensures Leaves(a, b, if a < 0 then -p else p, if a < 0 then -r else r)
  {}

  lemma DividesAbs(a: int, b: int, q: int, r: int)
    requires b != 0 && Abs(a) == q * b + r && 0 <= r < Abs(b)
    ensures Divides(a, b, if a < 0 then -q else q, if a < 0 then -r else r)
  {
    hide Leaves;
    NegatedMultiple(q, b);
    if a == 0 {
      SmallMultiple(q, b);
    }
    LeavesAbs(a, b, q * b, r);
  }

  lemma EuclideanDivision(n: nat, b: int) returns (q: int, r: int)
    requires b != 0
    ensures q == n / b && r == n % b && n == q * b + r && 0 <= r < Abs(b)
  {
    q, r := n / b, n % b;
  }

  lemma {:induction false} TruncationDivides(a: int, b: int)
    requires b != 0
    ensures Divides(a, b, TruncDiv(a, b), TruncMod(a, b))
  {
    var q, r := EuclideanDivision(Abs(a), b);
    DividesAbs(a, b, q, r);
  }

  lemma {:induction false} SmallMultiple(d: int, b: int)
    requires b != 0 && Abs(d * b) < Abs(b)
    ensures d == 0
  {
    if b > 0 {
      MultipleIsFar(d, b);
    } else {
      assert (-d) * -b == d * b;
      MultipleIsFar(-d, -b);
    }
  }

  /** There is only one such pair. */
  lemma {:induction false} DivisionIsUnique(a: int, b: int, q: int, r: int, q': int, r': int)
    requires b != 0 && Divides(a, b, q, r) && Divides(a, b, q', r')
    ensures q == q' && r == r'
  {
    assert (q - q') * b == q * b - q' * b;
    SmallMultiple(q - q', b);
  }

  /** Truncating division is the one with such a remainder. */
  lemma {:induction false} TruncationIsDivision(a: int, b: int, q: int, r: int)
    requires b != 0
    ensures Divides(a, b, q, r) <==> q == TruncDiv(a, b) && r == TruncMod(a, b)
  {
    hide TruncDiv, TruncMod, Divides;
    TruncationDivides(a, b);
    if Divides(a, b, q, r) {
      DivisionIsUnique(a, b, q, r, TruncDiv(a, b), TruncMod(a, b));
    }
  }

  // ----- bits -----

  /** Bit i of a number, negative ones in two's complement. */
  function Bit(a: int, i: nat): bool { (a / Pow2(i)) % 2 == 1 }

  function OnBits(k: BitKind, x: bool, y: bool): bool
  {
    match k case And => x && y case Or => x || y case Xor => x != y
  }

  lemma {:induction false} BitOfHalf(a: int, i: nat)
    requires i > 0
    ensures Bit(a, i) == Bit(a / 2, i - 1)
  {
    HalfThenPower(a, Pow2(i - 1));
  }

  lemma {:induction false} HalfThenPower(a: int, m: int)
    requires m > 0
    ensures a / (2 * m) == (a / 2) / m
  {
    var h := a / 2;
    var q, r := h / m, h % m;
    assert h == q * m + r && a == 2 * h + a % 2;
    assert q * (2 * m) == 2 * (q * m);
    ModUnique(a, 2 * m, q, 2 * r + a % 2);
  }

  lemma {:induction false} BitZero(a: int)
    ensures Bit(a, 0) == (a % 2 == 1)
  {
    assert Pow2(0) == 1 && a / 1 == a;
  }

  /** A bitwise operator does to each bit what its name says, and sets no other. */
  lemma {:induction false} BitwiseIsBitByBit(k: BitKind, a: nat, b: nat, w: nat, i: nat)
    ensures Bit(BitOp(k, a, b, w), i) == (i < w && OnBits(k, Bit(a, i), Bit(b, i)))
    ensures 0 <= BitOp(k, a, b, w) < Pow2(w)
    decreases w
  {
    var r := BitOp(k, a, b, w);
    if w == 0 {
      NoBits(i);
    } else {
      var rest := BitOp(k, a / 2, b / 2, w - 1);
      if i == 0 {
        BitZero(a);
        BitZero(b);
        BitZero(r);
        BitwiseIsBitByBit(k, a / 2, b / 2, w - 1, 0);
        LowestBit(k, a, b, w);
      } else {
        BitOfHalf(a, i);
        BitOfHalf(b, i);
        BitOfHalf(r, i);
        LowestBit(k, a, b, w);
        BitwiseIsBitByBit(k, a / 2, b / 2, w - 1, i - 1);
      }
    }
  }

  lemma NoBits(i: nat)
    ensures !Bit(0, i)
  {
    ModUnique(0, Pow2(i), 0, 0);
  }

  lemma LowestBit(k: BitKind, a: nat, b: nat, w: nat)
    requires w > 0
    ensures BitOp(k, a, b, w) / 2 == BitOp(k, a / 2, b / 2, w - 1)
    ensures BitOp(k, a, b, w) % 2 == (if OnBits(k, a % 2 == 1, b % 2 == 1) then 1 else 0)
  {
    var x, y := a % 2, b % 2;
    assert (x == 0 || x == 1) && (y == 0 || y == 1);
    assert x * y == if x == 1 && y == 1 then 1 else 0;
  }

  /** Bits below w make up a number below 2^w. */
  lemma {:induction false} BitsDetermine(a: nat, b: nat, w: nat)
    requires a < Pow2(w) && b < Pow2(w) && forall i: nat :: i < w ==> Bit(a, i) == Bit(b, i)
    ensures a == b
    decreases w
  {
    if w > 0 {
      BitZero(a);
      BitZero(b);
      assert Bit(a, 0) == Bit(b, 0);
      forall i: nat | i < w - 1 ensures Bit(a / 2, i) == Bit(b / 2, i) {
        BitOfHalf(a, i + 1);
        BitOfHalf(b, i + 1);
        assert Bit(a, i + 1) == Bit(b, i + 1);
      }
      BitsDetermine(a / 2, b / 2, w - 1);
    }
  }
}

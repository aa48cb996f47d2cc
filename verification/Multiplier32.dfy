/**
 The software multiplier of 32-bit words: sixteen ordinary integer products of words with
 three holes between bits, sampled where no carry can arrive.
 */
module Multiplier32 {
  import opened Bits
  import opened CarryLess
  import opened Common

  /** The bits whose position counted from the low end is a modulo four: 0x11111111 for a = 0, and so on. */
  function Mask(x: Bits, a: nat): (r: Bits)
    ensures |r| == |x|
  {
    seq(|x|, i requires 0 <= i < |x| => (|x| - 1 - i) % 4 == a && x[i])
  }

  /** An ordinary product of two unsigned words, as wide as both together. */
  function IntMul(a: Bits, b: Bits): (r: Bits)
    ensures |r| == |a| + |b|
  {
    ToBits(Value(a) * Value(b), |a| + |b|)
  }

  function Xor4(a: Bits, b: Bits, c: Bits, d: Bits): (r: Bits)
    requires |a| == |b| == |c| == |d|
    ensures |r| == |a|
  {
    Xor(Xor(Xor(a, b), c), d)
  }

  /** s_bmul32; its two results rh and rl are the halves of this word. */
  function Bmul32(x: Bits, y: Bits): (z: Bits)
    requires |x| == |y| == 32
    ensures |z| == 64
  {
    var (x0, x1, x2, x3) := (Mask(x, 0), Mask(x, 1), Mask(x, 2), Mask(x, 3));
    var (y0, y1, y2, y3) := (Mask(y, 0), Mask(y, 1), Mask(y, 2), Mask(y, 3));
    var z0 := Mask(Xor4(IntMul(x0, y0), IntMul(x1, y3), IntMul(x2, y2), IntMul(x3, y1)), 0);
    var z1 := Mask(Xor4(IntMul(x0, y1), IntMul(x1, y0), IntMul(x2, y3), IntMul(x3, y2)), 1);
    var z2 := Mask(Xor4(IntMul(x0, y2), IntMul(x1, y1), IntMul(x2, y0), IntMul(x3, y3)), 2);
    var z3 := Mask(Xor4(IntMul(x0, y3), IntMul(x1, y2), IntMul(x2, y1), IntMul(x3, y0)), 3);
    Or(Or(z2, Or(z0, z1)), z3)
  }

  lemma CoefMask(x: Bits, a: nat, k: int)
    ensures Coef(Mask(x, a), k) == (k % 4 == a && Coef(x, k))
  {
  }

  lemma CoefOr(a: Bits, b: Bits, k: int)
    requires |a| == |b|
    ensures Coef(Or(a, b), k) == (Coef(a, k) || Coef(b, k))
  {
  }

  lemma CoefXor4(a: Bits, b: Bits, c: Bits, d: Bits, k: int)
    requires |a| == |b| == |c| == |d|
    ensures Coef(Xor4(a, b, c, d), k) == (((Coef(a, k) != Coef(b, k)) != Coef(c, k)) != Coef(d, k))
  {
    hide Xor, Coef;
    CoefXor(a, b, k);
    CoefXor(Xor(a, b), c, k);
    CoefXor(Xor(Xor(a, b), c), d, k);
  }

  // ---- words with holes ----

  /** Every bit of l moved to a group of four of its own, at place a of the group. */
  function Spread(l: Bits, a: nat): (r: Bits)
    requires a < 4
    ensures |r| == 4 * |l|
  {
    if l == [] then [] else Spread(l[..|l| - 1], a) + Group(l[|l| - 1], a)
  }

  function Group(c: bool, a: nat): (r: Bits)
    requires a < 4
    ensures |r| == 4
  {
    [a == 3 && c, a == 2 && c, a == 1 && c, a == 0 && c]
  }

  /** The bits of x at places a of its groups of four. */
  function Lane(x: Bits, a: nat): (l: Bits)
    requires a < 4 && |x| % 4 == 0
    ensures |l| == |x| / 4
  {
    seq(|x| / 4, i requires 0 <= i < |x| / 4 => x[4 * i + 3 - a])
  }

  lemma SpreadPush(l: Bits, c: bool, a: nat)
    requires a < 4
    ensures Spread(l + [c], a) == Spread(l, a) + Group(c, a)
  {
    assert (l + [c])[..|l|] == l;
  }

  lemma {:induction false} CoefSpread(l: Bits, a: nat, k: int)
    requires a < 4
    ensures Coef(Spread(l, a), k) == (k >= 0 && k % 4 == a && Coef(l, k / 4))
  {
    if l == [] {
    } else {
      CoefSpread(l[..|l| - 1], a, k - 4);
    }
  }

  lemma MaskIsSpread(x: Bits, a: nat)
    requires a < 4 && |x| % 4 == 0
    ensures Mask(x, a) == Spread(Lane(x, a), a)
  {
    hide Mask, Spread;
    forall k | 0 <= k < |x|
      ensures Coef(Mask(x, a), k) == Coef(Spread(Lane(x, a), a), k)
    {
      CoefMask(x, a, k);
      CoefSpread(Lane(x, a), a, k);
    }
    SameCoefs(Mask(x, a), Spread(Lane(x, a), a));
  }

  // ---- the carry-less product of two such words ----

  lemma CoefProductPush(l: Bits, c: bool, m: Bits, k: int)
    ensures Coef(ClMul(l + [c], m), k) == (Coef(ClMul(l, m), k - 1) != (c && Coef(m, k)))
  {
    hide Xor, Pad, When, ClMul, Coef;
    ClMulStep(l, c, m);
    CoefXor(Pad(0, ClMul(l, m), 1), Pad(|l| + 1, When(c, m), 0), k);
    CoefPad(0, ClMul(l, m), 1, k);
    CoefPad(|l| + 1, When(c, m), 0, k);
    CoefWhen(c, m, k);
  }

  lemma CoefProductGroup(l: Bits, c: bool, a: nat, m: Bits, k: int)
    requires a < 4
    ensures Coef(ClMul(l + Group(c, a), m), k) == (Coef(ClMul(l, m), k - 4) != (c && Coef(m, k - a)))
  {
    hide ClMul, Coef;
    var (g3, g2, g1, g0) := (a == 3 && c, a == 2 && c, a == 1 && c, a == 0 && c);
    assert l + Group(c, a) == l + [g3] + [g2] + [g1] + [g0];
    CoefProductPush(l + [g3] + [g2] + [g1], g0, m, k);
    CoefProductPush(l + [g3] + [g2], g1, m, k - 1);
    CoefProductPush(l + [g3], g2, m, k - 2);
    CoefProductPush(l, g3, m, k - 3);
  }

  /** Spreading commutes with the product: the coefficients move to places a + b, four apart. */
  lemma {:induction false} CoefSpreadProduct(l: Bits, a: nat, m: Bits, b: nat, k: int)
    requires a < 4 && b < 4
    ensures Coef(ClMul(Spread(l, a), Spread(m, b)), k)
         == (k >= a + b && (k - a - b) % 4 == 0 && Coef(ClMul(l, m), (k - a - b) / 4))
  {
    hide *;
    if |l| == 0 {
      CoefEmptyProduct(l, m, (k - a - b) / 4);
      CoefEmptyProduct(Spread(l, a), Spread(m, b), k);
    } else {
      var (l0, c) := (l[..|l| - 1], l[|l| - 1]);
      assert l == l0 + [c];
      CoefSpreadProduct(l0, a, m, b, k - 4);
      CoefSpreadProductStep(l0, c, a, m, b, k);
    }
  }

  lemma CoefSpreadProductStep(l: Bits, c: bool, a: nat, m: Bits, b: nat, k: int)
    requires a < 4 && b < 4
    requires Coef(ClMul(Spread(l, a), Spread(m, b)), k - 4)
          == (k - 4 >= a + b && (k - 4 - a - b) % 4 == 0 && Coef(ClMul(l, m), (k - 4 - a - b) / 4))
    ensures Coef(ClMul(Spread(l + [c], a), Spread(m, b)), k)
         == (k >= a + b && (k - a - b) % 4 == 0 && Coef(ClMul(l + [c], m), (k - a - b) / 4))
  {
    hide *;
    var q := (k - a - b) / 4;
    SpreadPush(l, c, a);
    CoefProductGroup(Spread(l, a), c, a, Spread(m, b), k);
    CoefSpread(m, b, k - a);
    Places(k, a, b);
    CoefProductPush(l, c, m, q);
    CoefNegative(m, q);
    CoefNegative(ClMul(l, m), q - 1);
  }

  lemma CoefEmptyProduct(l: Bits, m: Bits, k: int)
    requires |l| == 0
    ensures !Coef(ClMul(l, m), k)
  {
  }

  /** Where a coefficient comes from when the lower factor sits at place b and the product at a + b. */
  lemma Places(k: int, a: nat, b: nat)
    requires a < 4 && b < 4
    ensures var j := k - a - b;
            && (j % 4 == 0 <==> (k - a) % 4 == b)
            && (j - 4) % 4 == j % 4 && (j - 4) / 4 == j / 4 - 1
            && (j % 4 == 0 ==> (k - a) / 4 == j / 4)
  {
  }

  lemma CoefNegative(m: Bits, k: int)
    ensures k < 0 ==> !Coef(m, k)
  {
  }

  // ---- the integer product of two such words ----

  /** How many pairs of set bits meet in column k of the schoolbook product. */
  function Column(l: Bits, m: Bits, k: int): nat {
    if l == [] then 0
    else Column(l[..|l| - 1], m, k - 1) + (if l[|l| - 1] && Coef(m, k) then 1 else 0)
  }

  lemma ColumnPush(l: Bits, c: bool, m: Bits, k: int)
    ensures Column(l + [c], m, k) == Column(l, m, k - 1) + (if c && Coef(m, k) then 1 else 0)
  {
    assert (l + [c])[..|l|] == l;
  }

  /** A column holds at most as many pairs as the left factor has bits, and its parity is the carry-less coefficient. */
  lemma {:induction false} ColumnParity(l: Bits, m: Bits, k: int)
    ensures Column(l, m, k) <= |l|
    ensures Column(l, m, k) % 2 == 1 <==> Coef(ClMul(l, m), k)
    ensures k < 0 ==> Column(l, m, k) == 0
  {
    hide ClMul, Coef;
    if |l| == 0 {
      CoefEmptyProduct(l, m, k);
    } else {
      hide Column;
      var (l0, c) := (l[..|l| - 1], l[|l| - 1]);
      assert l == l0 + [c];
      ColumnParity(l0, m, k - 1);
      ColumnPush(l0, c, m, k);
      CoefProductPush(l0, c, m, k);
      CoefNegative(m, k);
    }
  }

  /** The bits of l as digits to the base sixteen. */
  function Base16(l: Bits): nat {
    if l == [] then 0 else 16 * Base16(l[..|l| - 1]) + (if l[|l| - 1] then 1 else 0)
  }

  /** The digits of m from position k up to n, to the base sixteen. */
  function Digits(m: Bits, k: int, n: int): nat
    decreases n - k
  {
    if k >= n then 0 else (if Coef(m, k) then 1 else 0) + 16 * Digits(m, k + 1, n)
  }

  /** The columns from position k up to n, to the base sixteen. */
  function Columns(l: Bits, m: Bits, k: int, n: int): nat
    decreases n - k
  {
    if k >= n then 0 else Column(l, m, k) + 16 * Columns(l, m, k + 1, n)
  }

  lemma {:induction false} DigitsPush(m: Bits, c: bool, k: int, n: int)
    requires k >= 1
    ensures Digits(m + [c], k, n) == Digits(m, k - 1, n - 1)
    decreases n - k
  {
    hide Coef;
    if k < n {
      DigitsPush(m, c, k + 1, n);
      CoefPush(m, c, k);
    }
  }

  lemma {:induction false} DigitsAreBase16(m: Bits, n: int)
    requires n >= |m|
    ensures Digits(m, 0, n) == Base16(m)
  {
    if |m| == 0 {
      NoDigits(m, 0, n);
    } else {
      hide Coef;
      var (m0, c) := (m[..|m| - 1], m[|m| - 1]);
      assert m == m0 + [c];
      DigitsPush(m0, c, 1, n);
      CoefPush(m0, c, 0);
      DigitsAreBase16(m0, n - 1);
    }
  }

  lemma {:induction false} NoDigits(m: Bits, k: int, n: int)
    requires |m| == 0
    ensures Digits(m, k, n) == 0
    decreases n - k
  {
    if k < n {
      NoDigits(m, k + 1, n);
    }
  }

  lemma {:induction false} ColumnsPush(l: Bits, c: bool, m: Bits, k: int, n: int)
    ensures Columns(l + [c], m, k, n) == Columns(l, m, k - 1, n - 1) + (if c then Digits(m, k, n) else 0)
    decreases n - k
  {
    hide Coef, Column;
    if k < n {
      ColumnsPush(l, c, m, k + 1, n);
      ColumnPush(l, c, m, k);
    }
  }

  /** The product of two numbers written with digits zero and one to the base sixteen, column by column. */
  lemma {:induction false} ColumnsAreProduct(l: Bits, m: Bits, n: int)
    requires n >= |l| + |m|
    ensures Columns(l, m, 0, n) == Base16(l) * Base16(m)
  {
    if |l| == 0 {
      NoColumns(l, m, 0, n);
    } else {
      hide *;
      var (l0, c) := (l[..|l| - 1], l[|l| - 1]);
      assert l == l0 + [c];
      ColumnsPush(l0, c, m, 0, n);
      ColumnsBelowZero(l0, m, n - 1);
      ColumnsAreProduct(l0, m, n - 1);
      DigitsAreBase16(m, n);
      Base16Push(l0, c);
      PushTimes(Base16(l0), c, Base16(m));
    }
  }

  lemma ColumnsBelowZero(l: Bits, m: Bits, n: int)
    requires n >= 0
    ensures Columns(l, m, -1, n) == 16 * Columns(l, m, 0, n)
  {
    ColumnParity(l, m, -1);
  }

  lemma Base16Push(l: Bits, c: bool)
    ensures Base16(l + [c]) == 16 * Base16(l) + (if c then 1 else 0)
  {
    assert (l + [c])[..|l|] == l;
  }

  lemma PushTimes(x: nat, c: bool, y: nat)
    ensures (16 * x + (if c then 1 else 0)) * y == 16 * (x * y) + (if c then y else 0)
  {
    assert (16 * x) * y == 16 * (x * y);
    assert (16 * x + 1) * y == (16 * x) * y + y;
  }

  lemma {:induction false} NoColumns(l: Bits, m: Bits, k: int, n: int)
    requires |l| == 0
    ensures Columns(l, m, k, n) == 0
    decreases n - k
  {
    if k < n {
      NoColumns(l, m, k + 1, n);
    }
  }

  lemma BitAtGroup(v: nat, k: nat)
    ensures BitAt(v, k + 4) == BitAt(v / 16, k)
  {
    assert BitAt(v, k + 4) == BitAt(v / 2, k + 3) == BitAt(v / 2 / 2, k + 2);
    assert BitAt(v / 2 / 2, k + 2) == BitAt(v / 2 / 2 / 2, k + 1) == BitAt(v / 2 / 2 / 2 / 2, k);
    assert v / 2 / 2 / 2 / 2 == v / 16;
  }

  lemma LowGroup(c: nat, rest: nat)
    requires c < 16
    ensures (c + 16 * rest) % 2 == c % 2 && (c + 16 * rest) / 16 == rest
  {
  }

  /** Columns of fewer than sixteen do not carry into each other: the low bit of a group is a column's parity. */
  lemma {:induction false} NoCarry(l: Bits, m: Bits, k: int, n: int, j: nat)
    requires |l| < 16 && k + j < n
    ensures BitAt(Columns(l, m, k, n), 4 * j) == Coef(ClMul(l, m), k + j)
    decreases j
  {
    hide Coef, ClMul, Column;
    ColumnParity(l, m, k);
    var (c, rest) := (Column(l, m, k), Columns(l, m, k + 1, n));
    LowGroup(c, rest);
    if j > 0 {
      NoCarry(l, m, k + 1, n, j - 1);
      BitAtGroup(c + 16 * rest, 4 * (j - 1));
    }
  }

  lemma {:induction false} Pow2Adds(a: nat, b: nat)
    ensures Pow2(a) * Pow2(b) == Pow2(a + b)
  {
    if a > 0 {
      Pow2Adds(a - 1, b);
    }
  }

  lemma {:induction false} BitAtScaled(v: nat, e: nat, k: nat)
    ensures BitAt(Pow2(e) * v, k) == (k >= e && BitAt(v, k - e))
  {
    if e > 0 {
      var w := Pow2(e - 1) * v;
      assert Pow2(e) * v == 2 * w;
      assert (2 * w) % 2 == 0 && (2 * w) / 2 == w;
      if k > 0 {
        BitAtScaled(v, e - 1, k - 1);
      }
    }
  }

  lemma ValuePush(x: Bits, c: bool)
    ensures Value(x + [c]) == 2 * Value(x) + (if c then 1 else 0)
  {
    assert (x + [c])[..|x|] == x;
  }

  lemma ValuePushGroup(x: Bits, c: bool, a: nat)
    requires a < 4
    ensures Value(x + Group(c, a)) == 16 * Value(x) + (if c then Pow2(a) else 0)
  {
    hide Value;
    var (g3, g2, g1, g0) := (a == 3 && c, a == 2 && c, a == 1 && c, a == 0 && c);
    assert x + Group(c, a) == x + [g3] + [g2] + [g1] + [g0];
    ValuePush(x, g3);
    ValuePush(x + [g3], g2);
    ValuePush(x + [g3] + [g2], g1);
    ValuePush(x + [g3] + [g2] + [g1], g0);
    assert Pow2(0) == 1 && Pow2(1) == 2 && Pow2(2) == 4 && Pow2(3) == 8;
  }

  lemma {:induction false} ValueOfSpread(l: Bits, a: nat)
    requires a < 4
    ensures Value(Spread(l, a)) == Pow2(a) * Base16(l)
  {
    if |l| == 0 {
    } else {
      hide Value, Group, Pow2;
      var (l0, c) := (l[..|l| - 1], l[|l| - 1]);
      assert l == l0 + [c];
      SpreadPush(l0, c, a);
      ValuePushGroup(Spread(l0, a), c, a);
      ValueOfSpread(l0, a);
      assert Pow2(a) * (16 * Base16(l0)) == 16 * (Pow2(a) * Base16(l0));
    }
  }

  /** At the sampled places the integer product of two spread words agrees with the carry-less one. */
  lemma SampledProduct(l: Bits, a: nat, m: Bits, b: nat, k: nat)
    requires a < 4 && b < 4 && |l| < 16
    requires k < 4 * (|l| + |m|) && k % 4 == (a + b) % 4
    ensures Coef(IntMul(Spread(l, a), Spread(m, b)), k) == Coef(ClMul(Spread(l, a), Spread(m, b)), k)
  {
    hide Coef, ClMul, BitAt, Value, Spread, Columns, Base16, Pow2, ToBits;
    var (p, q) := (Spread(l, a), Spread(m, b));
    var n := |l| + |m|;
    var v := Columns(l, m, 0, n);
    CoefToBits(Value(p) * Value(q), 4 * n, k);
    ValueOfSpread(l, a);
    ValueOfSpread(m, b);
    ColumnsAreProduct(l, m, n);
    Pow2Adds(a, b);
    Interchange(Pow2(a), Base16(l), Pow2(b), Base16(m));
    BitAtScaled(v, a + b, k);
    CoefSpreadProduct(l, a, m, b, k);
    if k >= a + b {
      var j := (k - a - b) / 4;
      assert k - a - b == 4 * j;
      NoCarry(l, m, 0, n, j);
    }
  }

  lemma Interchange(a: nat, x: nat, b: nat, y: nat)
    ensures (a * x) * (b * y) == (a * b) * (x * y)
  {
    assert (a * x) * (b * y) == a * (x * (b * y)) == a * (b * (x * y));
  }

  // ---- the sixteen products together ----

  /** x as the sum of its four masks. */
  lemma MasksSum(x: Bits)
    ensures Xor4(Mask(x, 0), Mask(x, 1), Mask(x, 2), Mask(x, 3)) == x
  {
    hide Mask, Xor4;
    forall k | 0 <= k < |x|
      ensures Coef(Xor4(Mask(x, 0), Mask(x, 1), Mask(x, 2), Mask(x, 3)), k) == Coef(x, k)
    {
      hide Coef;
      CoefXor4(Mask(x, 0), Mask(x, 1), Mask(x, 2), Mask(x, 3), k);
      CoefMask(x, 0, k);
      CoefMask(x, 1, k);
      CoefMask(x, 2, k);
      CoefMask(x, 3, k);
    }
    SameCoefs(Xor4(Mask(x, 0), Mask(x, 1), Mask(x, 2), Mask(x, 3)), x);
  }

  lemma ClMulXor4Left(a: Bits, b: Bits, c: Bits, d: Bits, y: Bits)
    requires |a| == |b| == |c| == |d|
    ensures ClMul(Xor4(a, b, c, d), y) == Xor4(ClMul(a, y), ClMul(b, y), ClMul(c, y), ClMul(d, y))
  {
    hide ClMul, Xor;
    ClMulXorLeft(a, b, y);
    ClMulXorLeft(Xor(a, b), c, y);
    ClMulXorLeft(Xor(Xor(a, b), c), d, y);
  }

  lemma ClMulXor4Right(x: Bits, a: Bits, b: Bits, c: Bits, d: Bits)
    requires |a| == |b| == |c| == |d|
    ensures ClMul(x, Xor4(a, b, c, d)) == Xor4(ClMul(x, a), ClMul(x, b), ClMul(x, c), ClMul(x, d))
  {
    hide ClMul, Xor;
    ClMulXorRight(x, a, b);
    ClMulXorRight(x, Xor(a, b), c);
    ClMulXorRight(x, Xor(Xor(a, b), c), d);
  }

  /** Masked words meet only at the places where the sum of their places is. */
  lemma MaskedProduct(x: Bits, a: nat, y: Bits, b: nat, k: nat)
    requires a < 4 && b < 4 && |x| == |y| == 32 && k < 64
    ensures b != (k - a) % 4 ==> !Coef(ClMul(Mask(x, a), Mask(y, b)), k)
    ensures b == (k - a) % 4 ==>
              Coef(IntMul(Mask(x, a), Mask(y, b)), k) == Coef(ClMul(Mask(x, a), Mask(y, b)), k)
  {
    hide Coef, ClMul, IntMul, Mask, Spread;
    MaskIsSpread(x, a);
    MaskIsSpread(y, b);
    CoefSpreadProduct(Lane(x, a), a, Lane(y, b), b, k);
    if k % 4 == (a + b) % 4 {
      SampledProduct(Lane(x, a), a, Lane(y, b), b, k);
    }
  }

  /** Masks a and b meet at the place of coefficient k. */
  predicate Meets(a: nat, b: nat, k: int) {
    b == (k - a) % 4
  }

  /** Row a of the sixteen products: the coefficient comes from one mask of y alone. */
  lemma RowCoef(x: Bits, a: nat, y: Bits, b: nat, k: nat)
    requires a < 4 && |x| == |y| == 32 && k < 64 && Meets(a, b, k)
    ensures Coef(ClMul(Mask(x, a), y), k) == Coef(IntMul(Mask(x, a), Mask(y, b)), k)
  {
    hide Coef, ClMul, IntMul, Mask, Xor4;
    MasksSum(y);
    ClMulXor4Right(Mask(x, a), Mask(y, 0), Mask(y, 1), Mask(y, 2), Mask(y, 3));
    CoefXor4(ClMul(Mask(x, a), Mask(y, 0)), ClMul(Mask(x, a), Mask(y, 1)),
             ClMul(Mask(x, a), Mask(y, 2)), ClMul(Mask(x, a), Mask(y, 3)), k);
    MaskedProduct(x, a, y, 0, k);
    MaskedProduct(x, a, y, 1, k);
    MaskedProduct(x, a, y, 2, k);
    MaskedProduct(x, a, y, 3, k);
  }

  /** One sum of four integer products: mask a of x with mask b_a of y. */
  function MaskedSum(x: Bits, y: Bits, b0: nat, b1: nat, b2: nat, b3: nat): (s: Bits)
    requires |x| == |y| == 32
    ensures |s| == 64
  {
    Xor4(IntMul(Mask(x, 0), Mask(y, b0)), IntMul(Mask(x, 1), Mask(y, b1)),
         IntMul(Mask(x, 2), Mask(y, b2)), IntMul(Mask(x, 3), Mask(y, b3)))
  }

  lemma ProductCoef(x: Bits, y: Bits, b0: nat, b1: nat, b2: nat, b3: nat, k: nat)
    requires |x| == |y| == 32 && k < 64
    requires Meets(0, b0, k) && Meets(1, b1, k) && Meets(2, b2, k) && Meets(3, b3, k)
    ensures Coef(ClMul(x, y), k) == Coef(MaskedSum(x, y, b0, b1, b2, b3), k)
  {
    hide Meets, Coef, ClMul, IntMul, Mask, Xor4;
    MasksSum(x);
    ClMulXor4Left(Mask(x, 0), Mask(x, 1), Mask(x, 2), Mask(x, 3), y);
    CoefXor4(ClMul(Mask(x, 0), y), ClMul(Mask(x, 1), y), ClMul(Mask(x, 2), y), ClMul(Mask(x, 3), y), k);
    CoefXor4(IntMul(Mask(x, 0), Mask(y, b0)), IntMul(Mask(x, 1), Mask(y, b1)),
             IntMul(Mask(x, 2), Mask(y, b2)), IntMul(Mask(x, 3), Mask(y, b3)), k);
    RowCoef(x, 0, y, b0, k);
    RowCoef(x, 1, y, b1, k);
    RowCoef(x, 2, y, b2, k);
    RowCoef(x, 3, y, b3, k);
  }

  /** The software multiplier computes exactly the carry-less product of its two words. */
  lemma Bmul32IsClMul(x: Bits, y: Bits)
    requires |x| == |y| == 32
    ensures Bmul32(x, y) == ClMul(x, y)
  {
    forall k | 0 <= k < 64
      ensures Coef(Bmul32(x, y), k) == Coef(ClMul(x, y), k)
    {
      Bmul32Coef(x, y, k);
    }
    SameCoefs(Bmul32(x, y), ClMul(x, y));
  }

  lemma Bmul32Coef(x: Bits, y: Bits, k: nat)
    requires |x| == |y| == 32 && k < 64
    ensures Coef(Bmul32(x, y), k) == Coef(ClMul(x, y), k)
  {
    hide Coef, ClMul, Bmul32, MaskedSum, Or, Mask;
    Bmul32Rows(x, y);
    SampledOr(MaskedSum(x, y, 0, 3, 2, 1), MaskedSum(x, y, 1, 0, 3, 2),
              MaskedSum(x, y, 2, 1, 0, 3), MaskedSum(x, y, 3, 2, 1, 0), k);
    if k % 4 == 0 {
      ProductCoef(x, y, 0, 3, 2, 1, k);
    } else if k % 4 == 1 {
      ProductCoef(x, y, 1, 0, 3, 2, k);
    } else if k % 4 == 2 {
      ProductCoef(x, y, 2, 1, 0, 3, k);
    } else {
      ProductCoef(x, y, 3, 2, 1, 0, k);
    }
  }

  lemma Bmul32Rows(x: Bits, y: Bits)
    requires |x| == |y| == 32
    ensures Bmul32(x, y)
         == Or(Or(Mask(MaskedSum(x, y, 2, 1, 0, 3), 2),
                  Or(Mask(MaskedSum(x, y, 0, 3, 2, 1), 0), Mask(MaskedSum(x, y, 1, 0, 3, 2), 1))),
               Mask(MaskedSum(x, y, 3, 2, 1, 0), 3))
  {
    hide IntMul, Mask, Xor4, Or;
  }

  lemma SampledOr(s0: Bits, s1: Bits, s2: Bits, s3: Bits, k: nat)
    requires |s0| == |s1| == |s2| == |s3|
    ensures Coef(Or(Or(Mask(s2, 2), Or(Mask(s0, 0), Mask(s1, 1))), Mask(s3, 3)), k)
         == if k % 4 == 0 then Coef(s0, k) else if k % 4 == 1 then Coef(s1, k)
            else if k % 4 == 2 then Coef(s2, k) else Coef(s3, k)
  {
    hide Coef, Mask, Or;
    CoefOr(Or(Mask(s2, 2), Or(Mask(s0, 0), Mask(s1, 1))), Mask(s3, 3), k);
    CoefOr(Mask(s2, 2), Or(Mask(s0, 0), Mask(s1, 1)), k);
    CoefOr(Mask(s0, 0), Mask(s1, 1), k);
    CoefMask(s0, 0, k);
    CoefMask(s1, 1, k);
    CoefMask(s2, 2, k);
    CoefMask(s3, 3, k);
  }
}

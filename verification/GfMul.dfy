/**
 The software field multiplier: 32-bit carry-less pieces put together by two levels of
 Karatsuba, a one-bit shift and a folding reduction on 64-bit words.
 */
module GfMul {
  import opened Bits
  import opened CarryLess
  import opened Multiplier32
  import opened Gf128

  // ---- Karatsuba on words ----

  /** The block of s_gfmul that multiplies two 64-bit words given by their halves. */
  function Mul64(xh: Bits, xl: Bits, yh: Bits, yl: Bits): (p: Bits)
    requires |xh| == |xl| == |yh| == |yl| == 32
    ensures |p| == 128
  {
    var a := Bmul32(xh, yh);
    var b := Bmul32(xl, yl);
    var c := Bmul32(Xor(xh, xl), Xor(yh, yl));
    var ch := Xor(c[..32], Xor(a[..32], b[..32]));
    var cl := Xor(c[32..], Xor(a[32..], b[32..]));
    a[..32] + Xor(a[32..], ch) + Xor(b[..32], cl) + b[32..]
  }

  /** Adding the middle product at half-width offset, word by word. */
  lemma KaratsubaByWords(a: Bits, b: Bits, c: Bits, w: nat)
    requires |a| == |b| == |c| == 2 * w
    ensures var d := Xor(c, Xor(a, b));
            Karatsuba(a, b, c) == a[..w] + Xor(a[w..], d[..w]) + Xor(b[..w], d[w..]) + b[w..]
  {
    hide Xor, Pad;
    Pointwise();
  }

  lemma XorByWords(a: Bits, b: Bits, c: Bits, w: nat)
    requires |a| == |b| == |c| && w <= |a|
    ensures var d := Xor(c, Xor(a, b));
            d[..w] == Xor(c[..w], Xor(a[..w], b[..w])) && d[w..] == Xor(c[w..], Xor(a[w..], b[w..]))
  {
    hide Xor;
    Pointwise();
  }

  lemma Mul64IsClMul(xh: Bits, xl: Bits, yh: Bits, yl: Bits)
    requires |xh| == |xl| == |yh| == |yl| == 32
    ensures Mul64(xh, xl, yh, yl) == ClMul(xh + xl, yh + yl)
  {
    hide Xor, Bmul32, ClMul, Karatsuba;
    Bmul32IsClMul(xh, yh);
    Bmul32IsClMul(xl, yl);
    Bmul32IsClMul(Xor(xh, xl), Xor(yh, yl));
    var (a, b, c) := (ClMul(xh, yh), ClMul(xl, yl), ClMul(Xor(xh, xl), Xor(yh, yl)));
    KaratsubaIsProduct(xh, xl, yh, yl);
    KaratsubaByWords(a, b, c, 32);
    XorByWords(a, b, c, 32);
  }

  // ---- the shifted product acts like the two factors in turn ----

  lemma {:induction false} ShiftedProduct(a: Bits, b: Bits, v: Elem)
    requires |b| > 0
    ensures Apply(Shl(ClMul(a, b), 1), v) == Apply(a, Apply(b, v))
  {
    if |a| == 0 {
      hide Apply, Zeros;
      Pointwise();
      assert Shl(ClMul(a, b), 1) == Zeros(|b|);
      ApplyZeros(|b|, v);
      assert a == Zeros(0);
      ApplyZeros(0, Apply(b, v));
    } else {
      hide *;
      var (a0, c) := (a[..|a| - 1], a[|a| - 1]);
      assert a == a0 + [c];
      ShiftedProduct(a0, b, v);
      ShiftedProductStep(a0, c, b, v);
    }
  }

  lemma ShiftedProductStep(a: Bits, c: bool, b: Bits, v: Elem)
    requires |b| > 0
    requires Apply(Shl(ClMul(a, b), 1), v) == Apply(a, Apply(b, v))
    ensures Apply(Shl(ClMul(a + [c], b), 1), v) == Apply(a + [c], Apply(b, v))
  {
    hide *;
    var n := |a|;
    ClMulStep(a, c, b);
    var s := Shl(ClMul(a, b), 1);
    ShlSum(ClMul(a, b), When(c, b), n);
    ApplyXor(Pad(0, s, 1), Pad(n, When(c, b), 1), v);
    ApplyPad(0, s, 1, v);
    PowerZero(Apply(s, v));
    ApplyPad(n, When(c, b), 1, v);
    ApplyWhen(c, b, v);
    ApplyConcat(a, [c], Apply(b, v));
    ApplyOneBit(c, Power(n, Apply(b, v)));
    PowerScale(n, c, Apply(b, v));
  }

  lemma PowerZero(v: Elem)
    ensures Power(0, v) == v
  {
  }

  lemma ShlSum(p: Bits, w: Bits, n: nat)
    requires |p| == n + |w| && |w| > 0
    ensures Shl(Xor(Pad(0, p, 1), Pad(n + 1, w, 0)), 1) == Xor(Pad(0, Shl(p, 1), 1), Pad(n, w, 1))
  {
    hide Xor, Pad, Zeros;
    Pointwise();
  }

  lemma ApplyWhen(c: bool, b: Bits, v: Elem)
    ensures Apply(When(c, b), v) == Scale(c, Apply(b, v))
  {
    hide Apply;
    ApplyZeros(|b|, v);
  }

  lemma ApplyPad(l: nat, a: Bits, r: nat, v: Elem)
    ensures Apply(Pad(l, a, r), v) == Power(l, Apply(a, v))
  {
    hide Apply, Power, Zeros, Add;
    ApplyConcat(Zeros(l) + a, Zeros(r), v);
    ApplyConcat(Zeros(l), a, v);
    ApplyZeros(l, v);
    ApplyZeros(r, Power(l + |a|, v));
    AddZero(Apply(a, Power(l, v)));
    ApplyPower(a, l, v);
  }

  lemma {:induction false} PowerScale(n: nat, c: bool, v: Elem)
    ensures Power(n, Scale(c, v)) == Scale(c, Power(n, v))
  {
    hide MulX, Scale;
    if n > 0 {
      MulXScale(c, v);
      PowerScale(n - 1, c, MulX(v));
    }
  }

  // ---- reduction ----

  /** Shifts by 0, 1, 2 and 7 added up: multiplication by the field polynomial when nothing overflows. */
  function FoldShifts(v: Elem): Elem {
    Add(Add(v, Shr(v, 1)), Add(Shr(v, 2), Shr(v, 7)))
  }

  /** The bits that the shifts push out of the low half, put back at its top. */
  function Overflow(v: Elem): Elem {
    Add(Shl(v, 127), Add(Shl(v, 126), Shl(v, 121)))
  }

  /** The folding reduction on the two halves of a 256-bit product. */
  function Reduce(hi: Elem, lo: Elem): Elem {
    Add(hi, FoldShifts(Add(lo, Overflow(lo))))
  }

  /** k multiplications by x: a shift, and the bits shifted out times the field polynomial. */
  lemma PowerByShift(v: Elem, k: nat)
    requires 1 <= k <= 7
    ensures Power(k, v) == Add(Shr(v, k), FoldShifts(Shl(v, 128 - k)))
  {
    hide Apply, Unit, Pad, MulX, Power, Add, FoldShifts, Shr, Shl;
    var (head, tail) := (v[..128 - k], v[128 - k..]);
    assert v == head + tail;
    ApplyToOne(v);
    ApplyPower(v, k, Unit(0));
    ApplyConcat(head, tail, Power(k, Unit(0)));
    PowerUnit(k, 0);
    ApplyUnit(head, k);
    ShrPad(v, k);
    PowerAdds(128 - k, k, Unit(0));
    PowerOverflow(Unit(0));
    ApplyCommutes(tail, POLY, Unit(0));
    ApplyUnit(tail, 0);
    ShlPad(v, 128 - k);
    ApplyPolyShort(tail, Shl(v, 128 - k));
  }

  lemma ShrPad(v: Elem, k: nat)
    requires k <= 128
    ensures Pad(k, v[..128 - k], 0) == Shr(v, k)
  {
    hide Zeros;
    Pointwise();
  }

  lemma ShlPad(v: Elem, k: nat)
    requires k <= 128
    ensures Pad(0, v[k..], k) == Shl(v, k)
  {
    hide Zeros;
    Pointwise();
  }

  /** Times the field polynomial, for a block whose last seven bits are clear. */
  lemma ApplyPolyShort(tail: Bits, v: Elem)
    requires |tail| <= 7 && v == Pad(0, tail, 128 - |tail|)
    ensures Apply(POLY, v) == FoldShifts(v)
  {
    hide Apply, Add, Unit, Pad, Shr;
    ApplyPoly(v);
    ApplyUnit(tail, 0);
    PowerOfShort(tail, v, 1);
    PowerOfShort(tail, v, 2);
    PowerOfShort(tail, v, 7);
  }

  lemma PowerOfShort(tail: Bits, v: Elem, m: nat)
    requires |tail| <= 7 && v == Pad(0, tail, 128 - |tail|) && m <= 7
    ensures Power(m, v) == Shr(v, m)
  {
    hide Apply, Add, Unit, Pad, Power, Shr;
    ApplyUnit(tail, 0);
    ApplyPower(tail, m, Unit(0));
    PowerUnit(m, 0);
    ApplyUnit(tail, m);
    ShrOfShort(tail, m);
  }

  lemma ShrOfShort(tail: Bits, m: nat)
    requires |tail| <= 7 && m <= 7
    ensures Shr(Pad(0, tail, 128 - |tail|), m) == Pad(m, tail, 128 - m - |tail|)
  {
    hide Pad, Zeros;
    Pointwise();
  }

  /** The field polynomial applied to v is v + xv + x^2 v + x^7 v. */
  lemma ApplyPoly(v: Elem)
    ensures Apply(POLY, v) == Add(Add(v, Power(1, v)), Add(Power(2, v), Power(7, v)))
  {
    hide Apply, Add, MulX, Scale;
    var (x1, x2, x3) := (MulX(v), MulX(MulX(v)), MulX(MulX(MulX(v))));
    var x7 := Power(4, x3);
    PowerSteps(v);
    assert POLY == [true] + ([true] + ([true] + (Zeros(4) + [true])));
    ApplyPush(true, [true] + ([true] + (Zeros(4) + [true])), v);
    ApplyPush(true, [true] + (Zeros(4) + [true]), x1);
    ApplyPush(true, Zeros(4) + [true], x2);
    ApplyConcat(Zeros(4), [true], x3);
    ApplyZeros(4, x3);
    ApplyOneBit(true, x7);
    ScaleTrue(v);
    ScaleTrue(x1);
    ScaleTrue(x2);
    ScaleTrue(x7);
    AddZero(x7);
    AddAssociative(v, x1, Add(x2, x7));
  }

  lemma ScaleTrue(v: Elem)
    ensures Scale(true, v) == v
  {
  }

  lemma PowerSteps(v: Elem)
    ensures Power(1, v) == MulX(v) && Power(2, v) == MulX(MulX(v))
    ensures Power(7, v) == Power(4, MulX(MulX(MulX(v))))
  {
    hide MulX;
    var (x1, x2) := (MulX(v), MulX(MulX(v)));
    assert Power(2, v) == Power(1, x1) == Power(0, x2);
    assert Power(7, v) == Power(6, x1) == Power(5, x2) == Power(4, MulX(x2));
  }

  /** The folding reduction computes the residue of the 256-bit polynomial. */
  lemma ReduceIsResidue(hi: Elem, lo: Elem)
    ensures Reduce(hi, lo) == Apply(hi + lo, Unit(0))
  {
    hide Apply, Add, Unit, MulX, Power, Shr, Shl;
    ApplyConcat(hi, lo, Unit(0));
    ApplyToOne(hi);
    PowerOverflow(Unit(0));
    ApplyCommutes(lo, POLY, Unit(0));
    ApplyToOne(lo);
    ApplyPoly(lo);
    PowerByShift(lo, 1);
    PowerByShift(lo, 2);
    PowerByShift(lo, 7);
    var (p, q, r) := (Shl(lo, 127), Shl(lo, 126), Shl(lo, 121));
    FoldShiftsLinear(lo, Add(p, Add(q, r)));
    FoldShiftsLinear(p, Add(q, r));
    FoldShiftsLinear(q, r);
    FoldRegroup(lo, Shr(lo, 1), Shr(lo, 2), Shr(lo, 7), FoldShifts(p), FoldShifts(q), FoldShifts(r));
  }

  lemma FoldShiftsLinear(u: Elem, v: Elem)
    ensures FoldShifts(Add(u, v)) == Add(FoldShifts(u), FoldShifts(v))
  {
    hide Xor, Zeros;
    Pointwise();
  }

  lemma FoldRegroup(a: Elem, b: Elem, c: Elem, d: Elem, p: Elem, q: Elem, r: Elem)
    requires FoldShifts(a) == Add(Add(a, b), Add(c, d))
    ensures Add(FoldShifts(a), Add(p, Add(q, r))) == Add(Add(a, Add(b, p)), Add(Add(c, q), Add(d, r)))
  {
    hide FoldShifts, Xor;
    Pointwise();
  }

  // ---- the word-level code ----

  /** s_gfmul after its nine products: Karatsuba on 64-bit words. */
  function Mul128(yh: Bits, yl: Bits, hh: Bits, hl: Bits): (z: (Bits, Bits, Bits, Bits))
    requires |yh| == |yl| == |hh| == |hl| == 64
    ensures |z.0| == |z.1| == |z.2| == |z.3| == 64
  {
    var a := Mul64(yh[..32], yh[32..], hh[..32], hh[32..]);
    var b := Mul64(yl[..32], yl[32..], hl[..32], hl[32..]);
    var c := Mul64(Xor(yh[..32], yl[..32]), Xor(yh[32..], yl[32..]), Xor(hh[..32], hl[..32]), Xor(hh[32..], hl[32..]));
    var d := Xor(c, Xor(a, b));
    (a[..64], Xor(a[64..], d[..64]), Xor(b[..64], d[64..]), b[64..])
  }

  lemma Mul128IsClMul(yh: Bits, yl: Bits, hh: Bits, hl: Bits)
    requires |yh| == |yl| == |hh| == |hl| == 64
    ensures var z := Mul128(yh, yl, hh, hl); z.0 + z.1 + z.2 + z.3 == ClMul(yh + yl, hh + hl)
  {
    hide Xor, Mul64, ClMul, Karatsuba;
    Halves64(yh);
    Halves64(yl);
    Halves64(hh);
    Halves64(hl);
    XorHalves(yh, yl);
    XorHalves(hh, hl);
    Mul64IsClMul(yh[..32], yh[32..], hh[..32], hh[32..]);
    Mul64IsClMul(yl[..32], yl[32..], hl[..32], hl[32..]);
    Mul64IsClMul(Xor(yh[..32], yl[..32]), Xor(yh[32..], yl[32..]), Xor(hh[..32], hl[..32]), Xor(hh[32..], hl[32..]));
    var (a, b, c) := (ClMul(yh, hh), ClMul(yl, hl), ClMul(Xor(yh, yl), Xor(hh, hl)));
    KaratsubaIsProduct(yh, yl, hh, hl);
    KaratsubaByWords(a, b, c, 64);
  }

  lemma Halves64(w: Bits)
    requires |w| == 64
    ensures w[..32] + w[32..] == w
  {
  }

  lemma XorHalves(v: Bits, w: Bits)
    requires |v| == |w| == 64
    ensures Xor(v[..32], w[..32]) + Xor(v[32..], w[32..]) == Xor(v, w)
  {
    hide Xor;
    Pointwise();
  }

  function Xor3(a: Bits, b: Bits, c: Bits): (r: Bits)
    requires |a| == |b| == |c|
    ensures |r| == |a|
  {
    Xor(Xor(a, b), c)
  }

  /** s_gfmul: y0 and y1 are multiplied by the hash key in place. */
  method GfMul(hh: Bits, hl: Bits, y0: Bits, y1: Bits) returns (r0: Bits, r1: Bits)
    requires |hh| == |hl| == |y0| == |y1| == 64
    ensures |r0| == |r1| == 64
    ensures r0 + r1 == Product(y0 + y1, hh + hl)
  {
    hide Mul128, Shl, Shr, Xor3, Xor, Product, ClMul;
    var z := Mul128(y0, y1, hh, hl);
    var (zhh, zhl, zlh, zll) := z;
    zhh := zhh[1..] + [zhl[0]];
    zhl := zhl[1..] + [zlh[0]];
    zlh := zlh[1..] + [zll[0]];
    zll := Shl(zll, 1);
    ghost var hi: Elem := zhh + zhl;
    ghost var lo: Elem := zlh + zll;
    Mul128IsClMul(y0, y1, hh, hl);
    ShiftByWords(z.0, z.1, z.2, z.3);
    assert hi + lo == Shl(ClMul(y0 + y1, hh + hl), 1);
    zlh := Xor(zlh, Xor3(Shl(zll, 63), Shl(zll, 62), Shl(zll, 57)));
    OverflowByWords(lo[..64], zll);
    zhh := Xor(Xor(Xor(Xor(zhh, zlh), Shr(zlh, 1)), Shr(zlh, 2)), Shr(zlh, 7));
    zhl := Xor(Xor(Xor(Xor(Xor(zhl, zll), Shr(zll, 1)), Shr(zll, 2)), Shr(zll, 7)),
               Xor3(Shl(zlh, 63), Shl(zlh, 62), Shl(zlh, 57)));
    FoldByWords(hi[..64], hi[64..], zlh, zll);
    r0, r1 := zhh, zhl;
    ProductByParts(y0, y1, hh, hl, hi, lo);
  }

  lemma ShiftByWords(a: Bits, b: Bits, c: Bits, d: Bits)
    requires |a| == |b| == |c| == |d| == 64
    ensures a[1..] + [b[0]] + (b[1..] + [c[0]]) + (c[1..] + [d[0]] + Shl(d, 1)) == Shl(a + b + c + d, 1)
  {
    hide Zeros;
    Pointwise();
  }

  lemma OverflowByWords(zlh: Bits, zll: Bits)
    requires |zlh| == |zll| == 64
    ensures Xor(zlh, Xor3(Shl(zll, 63), Shl(zll, 62), Shl(zll, 57))) + zll
         == Add(zlh + zll, Overflow(zlh + zll))
  {
    hide Zeros, Xor;
    Pointwise();
  }

  lemma FoldByWords(zhh: Bits, zhl: Bits, zlh: Bits, zll: Bits)
    requires |zhh| == |zhl| == |zlh| == |zll| == 64
    ensures Xor(Xor(Xor(Xor(zhh, zlh), Shr(zlh, 1)), Shr(zlh, 2)), Shr(zlh, 7))
            + Xor(Xor(Xor(Xor(Xor(zhl, zll), Shr(zll, 1)), Shr(zll, 2)), Shr(zll, 7)),
                  Xor3(Shl(zlh, 63), Shl(zlh, 62), Shl(zlh, 57)))
         == Add(zhh + zhl, FoldShifts(zlh + zll))
  {
    hide Zeros, Xor;
    Pointwise();
  }

  lemma ProductByParts(y0: Bits, y1: Bits, hh: Bits, hl: Bits, hi: Elem, lo: Elem)
    requires |hh| == |hl| == |y0| == |y1| == 64
    requires hi + lo == Shl(ClMul(y0 + y1, hh + hl), 1)
    ensures Reduce(hi, lo) == Product(y0 + y1, hh + hl)
  {
    hide Reduce, Apply, ClMul, Product, Shl, Unit;
    var y: Elem := y0 + y1;
    var h: Elem := hh + hl;
    ReduceIsResidue(hi, lo);
    ShiftedProduct(y, h, Unit(0));
    ApplyToOne(h);
    ProductIsApply(y, h);
  }
}

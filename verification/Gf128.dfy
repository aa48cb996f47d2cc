/**
 The field GF(2^128) of section 6.3 of NIST SP 800-38D. A block is its bit string; position i
 holds the coefficient of x^i. Polynomials of any length act on blocks, which makes the
 product associative and commutative and turns reduction into one more such action.
 */
module Gf128 {
  import opened Bits

  type Elem = b: Bits | |b| == 128 witness seq(128, _ => false)

  const ZERO: Elem := Zeros(128)

  /** The field polynomial without its leading term: 1 + x + x^2 + x^7. */
  const POLY: Bits := [true, true, true, false, false, false, false, true]

  /** The block R of the standard. */
  const R: Elem := POLY + Zeros(120)

  function Add(u: Elem, v: Elem): Elem { Xor(u, v) }

  function Scale(c: bool, v: Elem): Elem { if c then v else ZERO }

  /** Multiplication by x: a shift to the right, folding R in when a one falls off. */
  function MulX(v: Elem): Elem { Add([false] + v[..127], Scale(v[127], R)) }

  /** The bit-serial product of the standard: V walks through y, xy, x^2 y, ... and Z collects. */
  function Serial(x: Bits, z: Elem, v: Elem): Elem {
    if |x| == 0 then z else Serial(x[1..], if x[0] then Add(z, v) else z, MulX(v))
  }

  function Product(x: Elem, y: Elem): Elem { Serial(x, ZERO, y) }

  // ---- polynomials acting on blocks ----

  /** The polynomial a, of any length, with multiplication by x for its variable, applied to v. */
  function Apply(a: Bits, v: Elem): Elem {
    if |a| == 0 then ZERO else Add(Scale(a[0], v), Apply(a[1..], MulX(v)))
  }

  /** x^n v. */
  function Power(n: nat, v: Elem): Elem {
    if n == 0 then v else Power(n - 1, MulX(v))
  }

  lemma AddAssociative(u: Elem, v: Elem, w: Elem)
    ensures Add(Add(u, v), w) == Add(u, Add(v, w))
  {
    hide Xor;
    Pointwise();
  }

  lemma AddCommutative(u: Elem, v: Elem)
    ensures Add(u, v) == Add(v, u)
  {
  }

  lemma AddZero(v: Elem)
    ensures Add(ZERO, v) == v && Add(v, ZERO) == v
  {
  }

  lemma Regroup(a: Elem, b: Elem, c: Elem, d: Elem)
    ensures Add(Add(a, b), Add(c, d)) == Add(Add(a, c), Add(b, d))
  {
    hide Xor;
    Pointwise();
  }

  lemma ScaleAdd(c: bool, u: Elem, v: Elem)
    ensures Scale(c, Add(u, v)) == Add(Scale(c, u), Scale(c, v))
  {
    hide Add;
    AddZero(ZERO);
  }

  lemma ScaleXor(c: bool, d: bool, e: bool, v: Elem)
    requires e == (c != d)
    ensures Scale(e, v) == Add(Scale(c, v), Scale(d, v))
  {
  }

  lemma MulXLinear(u: Elem, v: Elem)
    ensures MulX(Add(u, v)) == Add(MulX(u), MulX(v))
  {
    hide Xor;
    Pointwise();
  }

  lemma MulXZero()
    ensures MulX(ZERO) == ZERO
  {
  }

  lemma MulXScale(c: bool, v: Elem)
    ensures MulX(Scale(c, v)) == Scale(c, MulX(v))
  {
    hide MulX;
    MulXZero();
  }

  lemma {:induction false} SerialIsApply(x: Bits, z: Elem, v: Elem)
    ensures Serial(x, z, v) == Add(z, Apply(x, v))
  {
    hide Add, MulX;
    if |x| == 0 {
      AddZero(z);
    } else {
      SerialIsApply(x[1..], if x[0] then Add(z, v) else z, MulX(v));
      AddZero(Apply(x[1..], MulX(v)));
      AddAssociative(z, v, Apply(x[1..], MulX(v)));
    }
  }

  lemma {:induction false} ApplyLinear(a: Bits, u: Elem, v: Elem)
    ensures Apply(a, Add(u, v)) == Add(Apply(a, u), Apply(a, v))
  {
    hide Add, MulX, Scale;
    if |a| == 0 {
      AddZero(ZERO);
    } else {
      MulXLinear(u, v);
      ApplyLinear(a[1..], MulX(u), MulX(v));
      ScaleAdd(a[0], u, v);
      Regroup(Scale(a[0], u), Scale(a[0], v), Apply(a[1..], MulX(u)), Apply(a[1..], MulX(v)));
    }
  }

  lemma {:induction false} ApplyScale(a: Bits, c: bool, v: Elem)
    ensures Apply(a, Scale(c, v)) == Scale(c, Apply(a, v))
  {
    hide Add, MulX;
    if !c {
      ApplyToZero(a);
    }
  }

  lemma {:induction false} ApplyToZero(a: Bits)
    ensures Apply(a, ZERO) == ZERO
  {
    hide Add, MulX;
    AddZero(ZERO);
    if |a| > 0 {
      MulXZero();
      ApplyToZero(a[1..]);
    }
  }

  lemma {:induction false} ApplyZeros(n: nat, v: Elem)
    ensures Apply(Zeros(n), v) == ZERO
  {
    hide Add, MulX;
    if n > 0 {
      assert Zeros(n)[1..] == Zeros(n - 1);
      ApplyZeros(n - 1, MulX(v));
      AddZero(ZERO);
    }
  }

  lemma ApplyPush(c: bool, a: Bits, v: Elem)
    ensures Apply([c] + a, v) == Add(Scale(c, v), Apply(a, MulX(v)))
  {
    hide Add, MulX, Scale;
    assert ([c] + a)[1..] == a;
  }

  lemma ApplyOneBit(c: bool, v: Elem)
    ensures Apply([c], v) == Scale(c, v)
  {
    hide Add, MulX, Scale;
    AddZero(Scale(c, v));
  }

  lemma {:induction false} ApplyXor(a: Bits, b: Bits, v: Elem)
    requires |a| == |b|
    ensures Apply(Xor(a, b), v) == Add(Apply(a, v), Apply(b, v))
  {
    hide Add, MulX, Scale, Xor;
    if |a| == 0 {
      AddZero(ZERO);
    } else {
      var (c, d) := (a[0], b[0]);
      var e := c != d;
      XorTail(a, b, e);
      ApplyXor(a[1..], b[1..], MulX(v));
      ScaleXor(c, d, e, v);
      Regroup(Scale(c, v), Scale(d, v), Apply(a[1..], MulX(v)), Apply(b[1..], MulX(v)));
    }
  }

  lemma XorTail(a: Bits, b: Bits, e: bool)
    requires |a| == |b| > 0 && e == (a[0] != b[0])
    ensures Xor(a, b)[0] == e && Xor(a, b)[1..] == Xor(a[1..], b[1..])
  {
  }

  lemma {:induction false} ApplyConcat(a: Bits, b: Bits, v: Elem)
    ensures Apply(a + b, v) == Add(Apply(a, v), Apply(b, Power(|a|, v)))
  {
    hide Add, MulX, Scale;
    if |a| == 0 {
      assert a + b == b;
      AddZero(Apply(b, v));
    } else {
      assert (a + b)[1..] == a[1..] + b;
      ApplyConcat(a[1..], b, MulX(v));
      AddAssociative(Scale(a[0], v), Apply(a[1..], MulX(v)), Apply(b, Power(|a|, v)));
    }
  }

  lemma {:induction false} ApplyMulX(a: Bits, v: Elem)
    ensures Apply(a, MulX(v)) == MulX(Apply(a, v))
  {
    hide Add, MulX, Scale;
    if |a| == 0 {
      MulXZero();
    } else {
      ApplyMulX(a[1..], MulX(v));
      MulXLinear(Scale(a[0], v), Apply(a[1..], MulX(v)));
      MulXScale(a[0], v);
    }
  }

  lemma {:induction false} ApplyPower(a: Bits, n: nat, v: Elem)
    ensures Apply(a, Power(n, v)) == Power(n, Apply(a, v))
  {
    hide Apply, MulX;
    if n > 0 {
      ApplyPower(a, n - 1, MulX(v));
      ApplyMulX(a, v);
    }
  }

  lemma {:induction false} PowerAdds(m: nat, n: nat, v: Elem)
    ensures Power(m, Power(n, v)) == Power(m + n, v)
  {
    hide MulX;
    if n > 0 {
      PowerAdds(m, n - 1, MulX(v));
    }
  }

  /** Polynomials in the same operator commute. */
  lemma {:induction false} ApplyCommutes(a: Bits, b: Bits, v: Elem)
    ensures Apply(a, Apply(b, v)) == Apply(b, Apply(a, v))
  {
    hide Add, MulX, Scale;
    if |a| == 0 {
      ApplyToZero(b);
    } else {
      var (c, rest) := (a[0], a[1..]);
      ApplyMulX(b, v);
      ApplyCommutes(rest, b, MulX(v));
      ApplyLinear(b, Scale(c, v), Apply(rest, MulX(v)));
      ApplyScale(b, c, v);
    }
  }

  // ---- one, and the powers of x ----

  /** x^k for k < 128. */
  function Unit(k: nat): Elem
    requires k < 128
  {
    Pad(k, [true], 127 - k)
  }

  lemma MulXUnit(k: nat)
    requires k < 127
    ensures MulX(Unit(k)) == Unit(k + 1)
  {
    hide Xor, Pad;
    Pointwise();
  }

  lemma MulXLast()
    ensures MulX(Unit(127)) == R
  {
    hide Xor, Pad;
    Pointwise();
  }

  /** A short polynomial applied to x^k stands at position k. */
  lemma {:induction false} ApplyUnit(a: Bits, k: nat)
    requires k + |a| <= 128 && k < 128
    ensures Apply(a, Unit(k)) == Pad(k, a, 128 - k - |a|)
  {
    hide Add, MulX, Scale, Unit, Pad, Apply;
    if |a| == 0 {
      EmptyPad(a, k);
    } else if k == 127 {
      var c := a[0];
      assert a == [c];
      ApplyOneBit(c, Unit(127));
      UnitBit(c, a, 127);
    } else {
      var (c, rest) := (a[0], a[1..]);
      assert a == [c] + rest;
      ApplyPush(c, rest, Unit(k));
      MulXUnit(k);
      ApplyUnit(rest, k + 1);
      UnitPush(c, rest, k);
    }
  }

  lemma EmptyPad(a: Bits, k: nat)
    requires |a| == 0 && k < 128
    ensures Pad(k, a, 128 - k) == ZERO == Apply(a, Unit(k))
  {
  }

  lemma UnitBit(c: bool, a: Bits, k: nat)
    requires a == [c] && k < 128
    ensures Scale(c, Unit(k)) == Pad(k, a, 127 - k)
  {
    hide Pad;
    Pointwise();
  }

  lemma UnitPush(c: bool, rest: Bits, k: nat)
    requires k + 1 + |rest| <= 128 && k < 127
    ensures Add(Scale(c, Unit(k)), Pad(k + 1, rest, 127 - k - |rest|)) == Pad(k, [c] + rest, 127 - k - |rest|)
  {
    hide Xor, Pad;
    Pointwise();
  }

  lemma ApplyToOne(a: Elem)
    ensures Apply(a, Unit(0)) == a
  {
    hide Apply, Unit, Pad;
    ApplyUnit(a, 0);
    FullPad(a);
  }

  lemma FullPad(a: Elem)
    ensures Pad(0, a, 0) == a
  {
  }

  lemma {:induction false} PowerUnit(n: nat, k: nat)
    requires n + k < 128
    ensures Power(n, Unit(k)) == Unit(n + k)
  {
    hide MulX, Unit;
    if n > 0 {
      MulXUnit(k);
      PowerUnit(n - 1, k + 1);
    }
  }

  /** x^128 is the field polynomial without its leading term. */
  lemma PowerOverflow(v: Elem)
    ensures Power(128, v) == Apply(POLY, v)
  {
    hide Apply, Unit, MulX;
    PowerUnit(127, 0);
    PowerAdds(1, 127, Unit(0));
    MulXLast();
    assert Power(1, Unit(127)) == R;
    ApplyUnit(POLY, 0);
    assert Apply(POLY, Unit(0)) == R;
    ApplyToOne(v);
    ApplyPower(v, 128, Unit(0));
    ApplyCommutes(v, POLY, Unit(0));
  }

  // ---- the field laws ----

  lemma ProductIsApply(x: Elem, y: Elem)
    ensures Product(x, y) == Apply(x, y)
  {
    hide Apply, Add;
    SerialIsApply(x, ZERO, y);
    AddZero(Apply(x, y));
  }

  lemma ProductCommutative(x: Elem, y: Elem)
    ensures Product(x, y) == Product(y, x)
  {
    hide Apply, Unit, Product;
    ProductIsApply(x, y);
    ProductIsApply(y, x);
    ApplyToOne(x);
    ApplyToOne(y);
    ApplyCommutes(x, y, Unit(0));
  }

  lemma ProductAssociative(x: Elem, y: Elem, z: Elem)
    ensures Product(Product(x, y), z) == Product(x, Product(y, z))
  {
    hide Apply, Unit, Product;
    ProductIsApply(x, y);
    ProductIsApply(y, z);
    ProductIsApply(Product(x, y), z);
    ProductIsApply(x, Product(y, z));
    ApplyToOne(z);
    ApplyToOne(Apply(x, y));
    ApplyCommutes(Apply(x, y), z, Unit(0));
    ApplyCommutes(z, x, y);
    ProductCommutative(y, z);
    ProductIsApply(z, y);
  }

  lemma ProductDistributes(x: Elem, y: Elem, z: Elem)
    ensures Product(Add(x, y), z) == Add(Product(x, z), Product(y, z))
  {
    hide Apply, Product;
    ProductIsApply(x, z);
    ProductIsApply(y, z);
    ProductIsApply(Add(x, y), z);
    ApplyXor(x, y, z);
  }
}

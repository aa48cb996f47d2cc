/**
 Carry-less multiplication: products of polynomials over GF(2), and the software
 multiplier that obtains them from ordinary integer products with holes between bits.
 */
module CarryLess {
  import opened Bits

  /**
   The schoolbook product of two words without carries. It is as long as both factors
   together; like the product of two n-bit integers it is right-aligned, so its first
   bit is never set.
   */
  function ClMul(a: Bits, b: Bits): (p: Bits)
    ensures |p| == |a| + |b|
  {
    if a == [] then Zeros(|b|)
    else
      var n := |a| - 1;
      Xor(Pad(0, ClMul(a[..n], b), 1), Pad(n + 1, When(a[n], b), 0))
  }

  // ---- algebra of the carry-less product ----

  lemma {:induction false} ClMulTopClear(a: Bits, b: Bits)
    requires |a| > 0
    ensures |b| > 0 ==> !ClMul(a, b)[0]
  {
    hide Xor, Pad, When;
    Pointwise();
    if |a| > 1 && |b| > 0 {
      ClMulTopClear(a[..|a| - 1], b);
    }
  }

  lemma ClMulStep(a: Bits, c: bool, b: Bits)
    ensures ClMul(a + [c], b) == Xor(Pad(0, ClMul(a, b), 1), Pad(|a| + 1, When(c, b), 0))
  {
    hide Xor, Pad, When;
    assert (a + [c])[..|a|] == a;
  }

  lemma {:induction false} ClMulXorLeft(a: Bits, a': Bits, b: Bits)
    requires |a| == |a'|
    ensures ClMul(Xor(a, a'), b) == Xor(ClMul(a, b), ClMul(a', b))
  {
    if |a| == 0 {
      assert Xor(a, a') == [];
    } else {
      hide *;
      var n := |a| - 1;
      assert a == a[..n] + [a[n]] && a' == a'[..n] + [a'[n]];
      ClMulXorLeft(a[..n], a'[..n], b);
      ClMulXorLeftStep(a[..n], a[n], a'[..n], a'[n], b);
    }
  }

  lemma ClMulXorLeftStep(a: Bits, c: bool, a': Bits, c': bool, b: Bits)
    requires |a| == |a'|
    requires ClMul(Xor(a, a'), b) == Xor(ClMul(a, b), ClMul(a', b))
    ensures ClMul(Xor(a + [c], a' + [c']), b) == Xor(ClMul(a + [c], b), ClMul(a' + [c'], b))
  {
    hide *;
    var d := c != c';
    XorStep(a, c, a', c', d);
    ClMulStep(a, c, b);
    ClMulStep(a', c', b);
    ClMulStep(Xor(a, a'), d, b);
    RegroupXor(ClMul(a, b), ClMul(a', b), c, c', d, b, |a|);
  }

  lemma XorStep(a: Bits, c: bool, a': Bits, c': bool, d: bool)
    requires |a| == |a'| && d == (c != c')
    ensures Xor(a + [c], a' + [c']) == Xor(a, a') + [d]
  {
  }

  lemma RegroupXor(p: Bits, q: Bits, c: bool, c': bool, d: bool, b: Bits, n: nat)
    requires |p| == |q| == n + |b| && d == (c != c')
    ensures Xor(Pad(0, Xor(p, q), 1), Pad(n + 1, When(d, b), 0))
         == Xor(Xor(Pad(0, p, 1), Pad(n + 1, When(c, b), 0)), Xor(Pad(0, q, 1), Pad(n + 1, When(c', b), 0)))
  {
    hide Xor, Pad, When;
    Pointwise();
  }

  lemma {:induction false} ClMulXorRight(a: Bits, b: Bits, b': Bits)
    requires |b| == |b'|
    ensures ClMul(a, Xor(b, b')) == Xor(ClMul(a, b), ClMul(a, b'))
  {
    if |a| == 0 {
      hide Xor, Zeros;
      Pointwise();
    } else {
      hide *;
      var n := |a| - 1;
      var (a0, c) := (a[..n], a[n]);
      ClMulXorRight(a0, b, b');
      assert a == a0 + [c];
      ClMulStep(a0, c, b);
      ClMulStep(a0, c, b');
      ClMulStep(a0, c, Xor(b, b'));
      RegroupXorRight(ClMul(a0, b), ClMul(a0, b'), c, b, b', n);
    }
  }

  lemma RegroupXorRight(p: Bits, q: Bits, c: bool, b: Bits, b': Bits, n: nat)
    requires |p| == |q| == n + |b| && |b| == |b'|
    ensures Xor(Pad(0, Xor(p, q), 1), Pad(n + 1, When(c, Xor(b, b')), 0))
         == Xor(Xor(Pad(0, p, 1), Pad(n + 1, When(c, b), 0)), Xor(Pad(0, q, 1), Pad(n + 1, When(c, b'), 0)))
  {
    hide Xor, Pad, When;
    Pointwise();
  }

  /** The product distributes over the halves of the left factor. */
  lemma {:induction false} ClMulConcatLeft(a: Bits, a': Bits, b: Bits)
    ensures ClMul(a + a', b) == Xor(Pad(0, ClMul(a, b), |a'|), Pad(|a|, ClMul(a', b), 0))
  {
    if |a'| == 0 {
      hide Xor, Pad, Zeros;
      Pointwise();
      assert a + a' == a;
      assert ClMul(a', b) == Zeros(|b|);
    } else {
      hide *;
      var n := |a'| - 1;
      assert a' == a'[..n] + [a'[n]];
      ClMulConcatLeft(a, a'[..n], b);
      ClMulConcatLeftStep(a, a'[..n], a'[n], b);
    }
  }

  lemma ClMulConcatLeftStep(a: Bits, a': Bits, c: bool, b: Bits)
    requires ClMul(a + a', b) == Xor(Pad(0, ClMul(a, b), |a'|), Pad(|a|, ClMul(a', b), 0))
    ensures ClMul(a + (a' + [c]), b) == Xor(Pad(0, ClMul(a, b), |a'| + 1), Pad(|a|, ClMul(a' + [c], b), 0))
  {
    hide *;
    assert a + (a' + [c]) == a + a' + [c];
    ClMulStep(a + a', c, b);
    ClMulStep(a', c, b);
    RegroupLeft(ClMul(a, b), ClMul(a', b), When(c, b), |a|, |a'|);
  }

  lemma RegroupLeft(p: Bits, q: Bits, w: Bits, m: nat, n: nat)
    requires |p| == m + |w| && |q| == n + |w|
    ensures Xor(Pad(0, Xor(Pad(0, p, n), Pad(m, q, 0)), 1), Pad(m + n + 1, w, 0))
         == Xor(Pad(0, p, n + 1), Pad(m, Xor(Pad(0, q, 1), Pad(n + 1, w, 0)), 0))
  {
    hide Xor, Pad, When;
    Pointwise();
  }

  /** The product distributes over the halves of the right factor. */
  lemma {:induction false} ClMulConcatRight(a: Bits, b: Bits, b': Bits)
    ensures ClMul(a, b + b') == Xor(Pad(0, ClMul(a, b), |b'|), Pad(|b|, ClMul(a, b'), 0))
  {
    if |a| == 0 {
      hide Xor, Pad, Zeros;
      Pointwise();
    } else {
      hide *;
      var n := |a| - 1;
      var (a0, c) := (a[..n], a[n]);
      ClMulConcatRight(a0, b, b');
      assert a == a0 + [c];
      ClMulStep(a0, c, b);
      ClMulStep(a0, c, b');
      ClMulStep(a0, c, b + b');
      RegroupRight(ClMul(a0, b), ClMul(a0, b'), c, b, b', n);
    }
  }

  lemma RegroupRight(p: Bits, q: Bits, c: bool, b: Bits, b': Bits, n: nat)
    requires |p| == n + |b| && |q| == n + |b'|
    ensures Xor(Pad(0, Xor(Pad(0, p, |b'|), Pad(|b|, q, 0)), 1), Pad(n + 1, When(c, b + b'), 0))
         == Xor(Pad(0, Xor(Pad(0, p, 1), Pad(n + 1, When(c, b), 0)), |b'|),
                Pad(|b|, Xor(Pad(0, q, 1), Pad(n + 1, When(c, b'), 0)), 0))
  {
    hide Xor, Pad, When;
    Pointwise();
  }

  /** Karatsuba's step: three half-size products give the full one. */
  function Karatsuba(hi: Bits, lo: Bits, mid: Bits): Bits
    requires |hi| == |lo| == |mid| && |hi| % 2 == 0
  {
    var w := |hi| / 2;
    var c := Xor(mid, Xor(hi, lo));
    Xor(hi + lo, Pad(w, c, w))
  }

  lemma KaratsubaIsProduct(ah: Bits, al: Bits, bh: Bits, bl: Bits)
    requires |ah| == |al| == |bh| == |bl|
    ensures Karatsuba(ClMul(ah, bh), ClMul(al, bl), ClMul(Xor(ah, al), Xor(bh, bl))) == ClMul(ah + al, bh + bl)
  {
    hide Xor, Pad, ClMul, Karatsuba;
    ClMulConcatLeft(ah, al, bh + bl);
    ClMulConcatRight(ah, bh, bl);
    ClMulConcatRight(al, bh, bl);
    ClMulXorLeft(ah, al, Xor(bh, bl));
    ClMulXorRight(ah, bh, bl);
    ClMulXorRight(al, bh, bl);
    RegroupSquare(ClMul(ah, bh), ClMul(ah, bl), ClMul(al, bh), ClMul(al, bl), |ah|);
  }

  lemma RegroupSquare(p: Bits, q: Bits, r: Bits, s: Bits, w: nat)
    requires |p| == |q| == |r| == |s| == 2 * w
    ensures Karatsuba(p, s, Xor(Xor(p, q), Xor(r, s)))
         == Xor(Pad(0, Xor(Pad(0, p, w), Pad(w, q, 0)), w), Pad(w, Xor(Pad(0, r, w), Pad(w, s, 0)), 0))
  {
    hide Xor, Pad, When;
    Pointwise();
  }
}

/**
 The hardware-assisted field multiplier. A 128-bit register is the bit string of its value,
 most significant bit first, which for a byte-swapped register is the block itself; the
 instructions it goes through are string operations.
 */
module GfMulNi {
  import opened Bits
  import opened CarryLess
  import opened Gf128
  import GfMul

  // ---- instructions ----

  function High(r: Elem): (w: Bits)
    ensures |w| == 64
  {
    r[..64]
  }

  function Low(r: Elem): (w: Bits)
    ensures |w| == 64
  {
    r[64..]
  }

  /** _mm_clmulepi64_si128 on chosen halves. */
  function Clmul(a: Bits, b: Bits): Elem
    requires |a| == |b| == 64
  {
    ClMul(a, b)
  }

  /** _mm_slli_epi32 and _mm_srli_epi32: shifts inside each of four lanes. */
  function ShlLanes(r: Elem, n: nat): Elem
    requires n <= 32
  {
    Shl(r[..32], n) + Shl(r[32..64], n) + Shl(r[64..96], n) + Shl(r[96..], n)
  }

  function ShrLanes(r: Elem, n: nat): Elem
    requires n <= 32
  {
    Shr(r[..32], n) + Shr(r[32..64], n) + Shr(r[64..96], n) + Shr(r[96..], n)
  }

  /** _mm_shuffle_epi32(r, 78): the two halves exchanged. */
  function SwapHalves(r: Elem): Elem { r[64..] + r[..64] }

  // ---- shift by one and reduction ----

  /** The tail of p_gmacPCLMUL128: the 256-bit product hi:lo shifted by one bit and folded. */
  function ShiftAndFold(hi: Elem, lo: Elem): Elem {
    var t5 := ShrLanes(lo, 31);
    var t1 := Or(ShlLanes(lo, 1), Shl(t5, 32));
    var t4 := Or(Or(ShlLanes(hi, 1), Shl(ShrLanes(hi, 31), 32)), Shr(t5, 96));
    var s := Add(Add(ShlLanes(t1, 31), ShlLanes(t1, 30)), ShlLanes(t1, 25));
    var u := Add(t1, Shl(s, 96));
    Add(Add(Add(Add(Add(t4, Shr(s, 32)), u), ShrLanes(u, 2)), ShrLanes(u, 7)), ShrLanes(u, 1))
  }

  /** One past the last position of the lane position i is in. */
  function LaneEnd(i: int): int {
    if i < 32 then 32 else if i < 64 then 64 else if i < 96 then 96 else 128
  }

  lemma ShlLanesAt(r: Elem, n: nat, i: nat)
    requires n <= 32 && i < 128
    ensures ShlLanes(r, n)[i] == (i + n < LaneEnd(i) && r[i + n])
  {
    hide Zeros;
    Pointwise();
  }

  lemma ShrLanesAt(r: Elem, n: nat, i: nat)
    requires n <= 32 && i < 128
    ensures ShrLanes(r, n)[i] == (i - n >= LaneEnd(i) - 32 && r[i - n])
  {
    hide Zeros;
    Pointwise();
  }

  /** What the lane shifts and the two shifts and or put at each position. */
  lemma LanesPointwise()
    ensures forall r: Elem, n: nat, i {:trigger ShlLanes(r, n)[i]} :: n <= 32 && 0 <= i < 128 ==>
              ShlLanes(r, n)[i] == (i + n < LaneEnd(i) && r[i + n])
    ensures forall r: Elem, n: nat, i {:trigger ShrLanes(r, n)[i]} :: n <= 32 && 0 <= i < 128 ==>
              ShrLanes(r, n)[i] == (i - n >= LaneEnd(i) - 32 && r[i - n])
    ensures forall r: Elem, n: nat, i {:trigger Shl(r, n)[i]} :: n <= 128 && 0 <= i < 128 ==>
              Shl(r, n)[i] == (i + n < 128 && r[i + n])
    ensures forall r: Elem, n: nat, i {:trigger Shr(r, n)[i]} :: n <= 128 && 0 <= i < 128 ==>
              Shr(r, n)[i] == (i - n >= 0 && r[i - n])
    ensures forall a: Elem, b: Elem, i {:trigger Or(a, b)[i]} :: 0 <= i < 128 ==> Or(a, b)[i] == (a[i] || b[i])
  {
    hide Zeros, ShlLanes, ShrLanes;
    Pointwise();
    forall r: Elem, n: nat, i: nat {:trigger ShlLanes(r, n)[i]} {:trigger ShrLanes(r, n)[i]} | n <= 32 && i < 128
      ensures ShlLanes(r, n)[i] == (i + n < LaneEnd(i) && r[i + n])
      ensures ShrLanes(r, n)[i] == (i - n >= LaneEnd(i) - 32 && r[i - n])
    {
      ShlLanesAt(r, n, i);
      ShrLanesAt(r, n, i);
    }
  }

  lemma ShiftLow(lo: Elem)
    ensures Or(ShlLanes(lo, 1), Shl(ShrLanes(lo, 31), 32)) == Shl(lo, 1)
  {
    hide Shl, ShlLanes, ShrLanes, Or;
    LanesPointwise();
  }

  lemma ShiftHigh(hi: Elem, lo: Elem)
    ensures Or(Or(ShlLanes(hi, 1), Shl(ShrLanes(hi, 31), 32)), Shr(ShrLanes(lo, 31), 96)) == hi[1..] + [lo[0]]
  {
    hide Shl, Shr, ShlLanes, ShrLanes, Or;
    LanesPointwise();
  }

  /** The bits that leave a lane to the right, for one shift distance. */
  lemma LaneSpill(t: Elem, n: nat)
    requires 1 <= n < 32
    ensures Shr(t, n) == Add(ShrLanes(t, n), Shr(ShlLanes(t, 32 - n), 32))
    ensures Shl(t, 128 - n) == Shl(ShlLanes(t, 32 - n), 96)
  {
    hide Xor, Shl, Shr, ShlLanes, ShrLanes;
    Pointwise();
    LanesPointwise();
  }

  lemma ShlLinear(u: Elem, v: Elem, n: nat)
    requires n <= 128
    ensures Shl(Add(u, v), n) == Add(Shl(u, n), Shl(v, n))
    ensures Shr(Add(u, v), n) == Add(Shr(u, n), Shr(v, n))
  {
    hide Zeros, Xor;
    Pointwise();
  }

  /** A change confined to the first seven bits of a register spills nothing that was not spilt before. */
  lemma SpillOfTop(t: Elem, o: Elem, n: nat)
    requires 1 <= n <= 7 && forall i :: 7 <= i < 128 ==> !o[i]
    ensures Shr(ShlLanes(Add(t, o), 32 - n), 32) == Shr(ShlLanes(t, 32 - n), 32)
  {
    hide Xor, Shr, ShlLanes;
    LanesPointwise();
    Pointwise();
  }

  lemma OverflowOnTop(t: Elem)
    ensures forall i :: 7 <= i < 128 ==> !GfMul.Overflow(t)[i]
  {
    hide Zeros, Xor;
    Pointwise();
  }

  /** Shifting by one and folding yields the residue of the shifted product. */
  lemma ShiftAndFoldIsReduce(hi: Elem, lo: Elem)
    ensures ShiftAndFold(hi, lo) == GfMul.Reduce(hi[1..] + [lo[0]], Shl(lo, 1))
  {
    hide Or, ShlLanes, ShrLanes, Shl, Shr, Add;
    ShiftLow(lo);
    ShiftHigh(hi, lo);
    FoldLanes(hi[1..] + [lo[0]], Shl(lo, 1));
  }

  lemma FoldLanes(t4: Elem, t1: Elem)
    ensures var s := Add(Add(ShlLanes(t1, 31), ShlLanes(t1, 30)), ShlLanes(t1, 25));
            var u := Add(t1, Shl(s, 96));
            GfMul.Reduce(t4, t1)
            == Add(Add(Add(Add(Add(t4, Shr(s, 32)), u), ShrLanes(u, 2)), ShrLanes(u, 7)), ShrLanes(u, 1))
  {
    hide ShlLanes, ShrLanes, Shl, Shr, Add;
    var (p, q, r) := (ShlLanes(t1, 31), ShlLanes(t1, 30), ShlLanes(t1, 25));
    var o := GfMul.Overflow(t1);
    ShlLinear(Add(p, q), r, 96);
    ShlLinear(p, q, 96);
    ShlLinear(Add(p, q), r, 32);
    ShlLinear(p, q, 32);
    LaneSpill(t1, 1);
    LaneSpill(t1, 2);
    LaneSpill(t1, 7);
    AddAssociative(Shl(p, 96), Shl(q, 96), Shl(r, 96));
    var u := Add(t1, o);
    OverflowOnTop(t1);
    SpillOfTop(t1, o, 1);
    SpillOfTop(t1, o, 2);
    SpillOfTop(t1, o, 7);
    LaneSpill(u, 1);
    LaneSpill(u, 2);
    LaneSpill(u, 7);
    SevenTerms(t4, Shr(p, 32), Shr(q, 32), Shr(r, 32), u, ShrLanes(u, 2), ShrLanes(u, 7), ShrLanes(u, 1));
  }

  lemma SevenTerms(t: Elem, p: Elem, q: Elem, r: Elem, u: Elem, u2: Elem, u7: Elem, u1: Elem)
    ensures Add(Add(Add(Add(Add(t, Add(Add(p, q), r)), u), u2), u7), u1)
         == Add(t, Add(Add(u, Add(u1, p)), Add(Add(u2, q), Add(u7, r))))
  {
    hide Xor;
    Pointwise();
  }

  /** The residue of a 256-bit product given by its halves. */
  lemma FoldIsResidue(hi: Elem, lo: Elem)
    ensures ShiftAndFold(hi, lo) == Apply(Shl(hi + lo, 1), Unit(0))
  {
    hide ShiftAndFold, Apply, Unit, Zeros;
    ShiftAndFoldIsReduce(hi, lo);
    assert Shl(hi + lo, 1) == hi[1..] + [lo[0]] + Shl(lo, 1);
    GfMul.ReduceIsResidue(hi[1..] + [lo[0]], Shl(lo, 1));
  }

  lemma ResidueOfProduct(h: Elem, y: Elem)
    ensures Apply(Shl(ClMul(h, y), 1), Unit(0)) == Product(y, h)
  {
    hide Apply, Product, Unit, Shl, ClMul;
    GfMul.ShiftedProduct(h, y, Unit(0));
    ApplyToOne(y);
    ProductIsApply(h, y);
    ProductCommutative(h, y);
  }

  // ---- one product ----

  /** p_gmacPCLMUL128 between its two byte swaps. */
  function MulNi(h: Elem, y: Elem): Elem {
    var t1 := Clmul(Low(h), Low(y));
    var t2 := Add(Clmul(High(h), Low(y)), Clmul(Low(h), High(y)));
    var t4 := Clmul(High(h), High(y));
    ShiftAndFold(Add(t4, Shr(t2, 64)), Add(t1, Shl(t2, 64)))
  }

  lemma SchoolbookByHalves(p: Elem, q: Elem, r: Elem, s: Elem)
    ensures var t := Add(q, r);
            Add(p, Shr(t, 64)) + Add(s, Shl(t, 64))
            == Xor(Pad(0, Xor(Pad(0, p, 64), Pad(64, r, 0)), 64), Pad(64, Xor(Pad(0, q, 64), Pad(64, s, 0)), 0))
  {
    hide Xor, Pad, Zeros;
    Pointwise();
  }

  lemma ClMulByHalves(h: Elem, y: Elem)
    ensures var t := Add(Clmul(Low(h), High(y)), Clmul(High(h), Low(y)));
            Add(Clmul(High(h), High(y)), Shr(t, 64)) + Add(Clmul(Low(h), Low(y)), Shl(t, 64)) == ClMul(h, y)
  {
    hide Xor, Pad, ClMul, Shl, Shr;
    assert h == High(h) + Low(h) && y == High(y) + Low(y);
    ClMulConcatLeft(High(h), Low(h), y);
    ClMulConcatRight(High(h), High(y), Low(y));
    ClMulConcatRight(Low(h), High(y), Low(y));
    SchoolbookByHalves(Clmul(High(h), High(y)), Clmul(Low(h), High(y)), Clmul(High(h), Low(y)), Clmul(Low(h), Low(y)));
  }

  /** The hardware multiplier computes the field product. */
  lemma MulNiIsProduct(h: Elem, y: Elem)
    ensures MulNi(h, y) == Product(y, h)
  {
    hide Add, Clmul, Shl, Shr, ShiftAndFold, Product, ClMul, Apply, Unit;
    ClMulByHalves(h, y);
    AddCommutative(Clmul(Low(h), High(y)), Clmul(High(h), Low(y)));
    var t2 := Add(Clmul(High(h), Low(y)), Clmul(Low(h), High(y)));
    FoldIsResidue(Add(Clmul(High(h), High(y)), Shr(t2, 64)), Add(Clmul(Low(h), Low(y)), Shl(t2, 64)));
    ResidueOfProduct(h, y);
  }

  // ---- four blocks with one reduction ----

  /** The powers of the hash key and the folded halves that p_init_aesni precomputes. */
  datatype Powers = Powers(h: Elem, hh: Elem, hhh: Elem, hhhh: Elem, h2: Elem, hh2: Elem, hhh2: Elem, hhhh2: Elem)

  const NO_POWERS := Powers(ZERO, ZERO, ZERO, ZERO, ZERO, ZERO, ZERO, ZERO)

  function Precompute(h: Elem): Powers {
    var hh := MulNi(h, h);
    var hhh := MulNi(h, hh);
    var hhhh := MulNi(h, hhh);
    Powers(h, hh, hhh, hhhh, Add(SwapHalves(h), h), Add(SwapHalves(hh), hh),
           Add(SwapHalves(hhh), hhh), Add(SwapHalves(hhhh), hhhh))
  }

  function Sum4(a: Elem, b: Elem, c: Elem, d: Elem): Elem { Add(Add(a, b), Add(c, d)) }

  /** Folds both halves of a block together, as the low half of SwapHalves(d) + d. */
  function Folded(d: Elem): (w: Bits)
    ensures |w| == 64
  {
    Low(Add(SwapHalves(d), d))
  }

  /** One turn of the 64-byte loop of p_aesNIUpdate; y has been added to d1 already. */
  function FourBlocks(k: Powers, d1: Elem, d2: Elem, d3: Elem, d4: Elem): Elem {
    var a := Sum4(Clmul(Low(k.hhhh), Low(d1)), Clmul(Low(k.hhh), Low(d2)), Clmul(Low(k.hh), Low(d3)), Clmul(Low(k.h), Low(d4)));
    var b := Sum4(Clmul(High(k.hhhh), High(d1)), Clmul(High(k.hhh), High(d2)),
                  Clmul(High(k.hh), High(d3)), Clmul(High(k.h), High(d4)));
    var c := Add(Sum4(Clmul(Low(k.hhhh2), Folded(d1)), Clmul(Low(k.hhh2), Folded(d2)),
                      Clmul(Low(k.hh2), Folded(d3)), Clmul(Low(k.h2), Folded(d4))), Add(a, b));
    ShiftAndFold(Add(Shr(c, 64), b), Add(Shl(c, 64), a))
  }

  lemma FoldedIsSum(d: Elem)
    ensures Folded(d) == Xor(High(d), Low(d))
  {
    hide Xor;
    Pointwise();
  }

  /** One Karatsuba product with its middle term still separate. */
  lemma KaratsubaHalves(h: Elem, d: Elem)
    ensures var (a, b, c) := (Clmul(Low(h), Low(d)), Clmul(High(h), High(d)), Clmul(Folded(h), Folded(d)));
            CombineHalves(a, b, c) == ClMul(h, d)
  {
    hide Xor, ClMul, Folded, Karatsuba, CombineHalves;
    FoldedIsSum(h);
    FoldedIsSum(d);
    assert h == High(h) + Low(h) && d == High(d) + Low(d);
    KaratsubaIsProduct(High(h), Low(h), High(d), Low(d));
    CombineIsKaratsuba(Clmul(Low(h), Low(d)), Clmul(High(h), High(d)), Clmul(Folded(h), Folded(d)));
  }

  /** The 256-bit word that the two halves and the middle product of Karatsuba's step make. */
  function CombineHalves(a: Elem, b: Elem, m: Elem): (p: Bits)
    ensures |p| == 256
  {
    var c := Add(m, Add(a, b));
    Add(Shr(c, 64), b) + Add(Shl(c, 64), a)
  }

  lemma CombineIsKaratsuba(a: Elem, b: Elem, m: Elem)
    ensures CombineHalves(a, b, m) == Karatsuba(b, a, m)
  {
    hide Xor, Pad, Zeros;
    Pointwise();
  }

  lemma CombineLinear(a: Elem, b: Elem, m: Elem, a': Elem, b': Elem, m': Elem)
    ensures CombineHalves(Add(a, a'), Add(b, b'), Add(m, m')) == Xor(CombineHalves(a, b, m), CombineHalves(a', b', m'))
  {
    hide Xor, Zeros;
    Pointwise();
  }

  lemma ShlXor(p: Bits, q: Bits)
    requires |p| == |q| == 256
    ensures Shl(Xor(p, q), 1) == Xor(Shl(p, 1), Shl(q, 1))
  {
    hide Xor, Zeros;
    Pointwise();
  }

  function Residue(p: Bits): Elem
    requires |p| == 256
  {
    Apply(Shl(p, 1), Unit(0))
  }

  lemma ResidueLinear(p: Bits, q: Bits)
    requires |p| == |q| == 256
    ensures Residue(Xor(p, q)) == Add(Residue(p), Residue(q))
  {
    hide Xor, Apply, Shl, Add;
    ShlXor(p, q);
    ApplyXor(Shl(p, 1), Shl(q, 1), Unit(0));
  }

  /** One reduction of the four summed products is the sum of the four field products. */
  lemma FourBlocksIsSum(h: Elem, d1: Elem, d2: Elem, d3: Elem, d4: Elem)
    ensures var k := Precompute(h);
            FourBlocks(k, d1, d2, d3, d4)
            == Sum4(Product(d1, k.hhhh), Product(d2, k.hhh), Product(d3, k.hh), Product(d4, k.h))
  {
    hide Xor, ClMul, Add, CombineHalves, Product, ShiftAndFold, Clmul, Low, High, SwapHalves, Shl, Shr, MulNi, Residue;
    var k := Precompute(h);
    var (a1, b1, m1) := (Clmul(Low(k.hhhh), Low(d1)), Clmul(High(k.hhhh), High(d1)), Clmul(Folded(k.hhhh), Folded(d1)));
    var (a2, b2, m2) := (Clmul(Low(k.hhh), Low(d2)), Clmul(High(k.hhh), High(d2)), Clmul(Folded(k.hhh), Folded(d2)));
    var (a3, b3, m3) := (Clmul(Low(k.hh), Low(d3)), Clmul(High(k.hh), High(d3)), Clmul(Folded(k.hh), Folded(d3)));
    var (a4, b4, m4) := (Clmul(Low(k.h), Low(d4)), Clmul(High(k.h), High(d4)), Clmul(Folded(k.h), Folded(d4)));
    KaratsubaHalves(k.hhhh, d1);
    KaratsubaHalves(k.hhh, d2);
    KaratsubaHalves(k.hh, d3);
    KaratsubaHalves(k.h, d4);
    CombineLinear(a1, b1, m1, a2, b2, m2);
    CombineLinear(a3, b3, m3, a4, b4, m4);
    CombineLinear(Add(a1, a2), Add(b1, b2), Add(m1, m2), Add(a3, a4), Add(b3, b4), Add(m3, m4));
    ResidueLinear(ClMul(k.hhhh, d1), ClMul(k.hhh, d2));
    ResidueLinear(ClMul(k.hh, d3), ClMul(k.h, d4));
    ResidueLinear(Xor(ClMul(k.hhhh, d1), ClMul(k.hhh, d2)), Xor(ClMul(k.hh, d3), ClMul(k.h, d4)));
    FoldCombined(Sum4(a1, a2, a3, a4), Sum4(b1, b2, b3, b4), Sum4(m1, m2, m3, m4));
    ResidueIsProduct(k.hhhh, d1);
    ResidueIsProduct(k.hhh, d2);
    ResidueIsProduct(k.hh, d3);
    ResidueIsProduct(k.h, d4);
  }

  lemma ResidueIsProduct(h: Elem, y: Elem)
    ensures Residue(ClMul(h, y)) == Product(y, h)
  {
    hide Apply, Product, ClMul, Shl;
    ResidueOfProduct(h, y);
  }

  lemma FoldCombined(a: Elem, b: Elem, m: Elem)
    ensures var c := Add(m, Add(a, b));
            ShiftAndFold(Add(Shr(c, 64), b), Add(Shl(c, 64), a)) == Residue(CombineHalves(a, b, m))
  {
    hide ShiftAndFold, Apply, Add, Shl, Shr, Unit;
    var c := Add(m, Add(a, b));
    FoldIsResidue(Add(Shr(c, 64), b), Add(Shl(c, 64), a));
  }

  /** Four steps of Y := (Y + X) H in a row. */
  function FourSteps(h: Elem, y: Elem, d1: Elem, d2: Elem, d3: Elem, d4: Elem): Elem {
    Product(Add(Product(Add(Product(Add(Product(Add(y, d1), h), d2), h), d3), h), d4), h)
  }

  /** The aggregated turn equals four sequential steps, for every key, state and four blocks. */
  lemma FourBlocksIsFourSteps(h: Elem, y: Elem, d1: Elem, d2: Elem, d3: Elem, d4: Elem)
    ensures FourBlocks(Precompute(h), Add(y, d1), d2, d3, d4) == FourSteps(h, y, d1, d2, d3, d4)
  {
    hide Product, Add, FourBlocks, MulNi;
    FourBlocksIsSum(h, Add(y, d1), d2, d3, d4);
    MulNiIsProduct(h, h);
    var h2 := Product(h, h);
    MulNiIsProduct(h, h2);
    var h3 := Product(h2, h);
    MulNiIsProduct(h, h3);
    var h4 := Product(h3, h);
    var x := Add(y, d1);
    var p1 := Product(x, h);
    var p2 := Product(Add(p1, d2), h);
    var p3 := Product(Add(p2, d3), h);
    ProductDistributes(p1, d2, h);
    ProductDistributes(p2, d3, h);
    ProductDistributes(Product(p1, h), Product(d2, h), h);
    ProductDistributes(p3, d4, h);
    ProductDistributes(Product(p2, h), Product(d3, h), h);
    ProductDistributes(Product(Product(p1, h), h), Product(Product(d2, h), h), h);
    PowerByPower(x, h);
    PowerByPower(d2, h);
    PowerByPower(d3, h);
    AddAssociative(Add(Product(x, h4), Product(d2, h3)), Product(d3, h2), Product(d4, h));
  }

  /** Multiplying by h again and again is multiplying by its powers. */
  lemma PowerByPower(x: Elem, h: Elem)
    ensures var h2 := Product(h, h);
            var h3 := Product(h2, h);
            && Product(Product(x, h), h) == Product(x, h2)
            && Product(Product(Product(x, h), h), h) == Product(x, h3)
            && Product(Product(Product(Product(x, h), h), h), h) == Product(x, Product(h3, h))
  {
    hide Product;
    var h2 := Product(h, h);
    var h3 := Product(h2, h);
    ProductAssociative(x, h, h);
    ProductAssociative(x, h2, h);
    ProductAssociative(x, h3, h);
  }
}

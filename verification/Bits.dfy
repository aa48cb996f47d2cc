/**
 Bit strings, most significant bit first: the words of the source as the standard for
 GHASH writes them. Shifts, masks and exclusive or are string operations.
 */
module Bits {
  type Bits = seq<bool>

  function Zeros(n: nat): (z: Bits)
    ensures |z| == n
  {
    seq(n, _ => false)
  }

  /** Exclusive or: addition of polynomials over GF(2). */
  function Xor(a: Bits, b: Bits): (r: Bits)
    requires |a| == |b|
    ensures |r| == |a|
  {
    seq(|a|, i requires 0 <= i < |a| => a[i] != b[i])
  }

  function Or(a: Bits, b: Bits): (r: Bits)
    requires |a| == |b|
    ensures |r| == |a|
  {
    seq(|a|, i requires 0 <= i < |a| => a[i] || b[i])
  }

  /** b if c holds, the zero string otherwise: the product of a bit and a string. */
  function When(c: bool, b: Bits): (r: Bits)
    ensures |r| == |b|
  {
    if c then b else Zeros(|b|)
  }

  /** a placed between l and r zeros. */
  function Pad(l: nat, a: Bits, r: nat): (p: Bits)
    ensures |p| == l + |a| + r
  {
    Zeros(l) + a + Zeros(r)
  }

  /** Logical shifts within the width of the word. */
  function Shr(a: Bits, n: nat): (r: Bits)
    requires n <= |a|
    ensures |r| == |a|
  {
    Zeros(n) + a[..|a| - n]
  }

  function Shl(a: Bits, n: nat): (r: Bits)
    requires n <= |a|
    ensures |r| == |a|
  {
    a[n..] + Zeros(n)
  }

  /** What the operations put at each position. */
  lemma Pointwise()
    ensures forall n: nat, i {:trigger Zeros(n)[i]} :: 0 <= i < n ==> !Zeros(n)[i]
    ensures forall a: Bits, b: Bits, i {:trigger Xor(a, b)[i]} :: |a| == |b| && 0 <= i < |a| ==>
              Xor(a, b)[i] == (a[i] != b[i])
    ensures forall c, b: Bits, i {:trigger When(c, b)[i]} :: 0 <= i < |b| ==> When(c, b)[i] == (c && b[i])
    ensures forall l: nat, a: Bits, r: nat, i {:trigger Pad(l, a, r)[i]} :: 0 <= i < l + |a| + r ==>
              Pad(l, a, r)[i] == (l <= i < l + |a| && a[i - l])
  {
  }

  /** The number a word stands for. */
  function Value(a: Bits): nat {
    if a == [] then 0 else 2 * Value(a[..|a| - 1]) + (if a[|a| - 1] then 1 else 0)
  }

  /** The low n bits of a number, as a word of n bits. */
  function ToBits(v: nat, n: nat): (w: Bits)
    ensures |w| == n
  {
    if n == 0 then [] else ToBits(v / 2, n - 1) + [v % 2 == 1]
  }

  lemma {:induction false} ToBitsOfValue(a: Bits)
    ensures ToBits(Value(a), |a|) == a
  {
    if a == [] {
    } else {
      ToBitsOfValue(a[..|a| - 1]);
    }
  }

  // ---- a word as a polynomial ----

  /** The coefficient of x^k, that is bit k of the word counted from its low end. */
  function Coef(a: Bits, k: int): bool {
    0 <= k < |a| && a[|a| - 1 - k]
  }

  lemma SameCoefs(a: Bits, b: Bits)
    requires |a| == |b| && forall k :: 0 <= k < |a| ==> Coef(a, k) == Coef(b, k)
    ensures a == b
  {
    forall i | 0 <= i < |a|
      ensures a[i] == b[i]
    {
      assert Coef(a, |a| - 1 - i) == Coef(b, |a| - 1 - i);
    }
  }

  lemma CoefXor(a: Bits, b: Bits, k: int)
    requires |a| == |b|
    ensures Coef(Xor(a, b), k) == (Coef(a, k) != Coef(b, k))
  {
  }

  lemma CoefWhen(c: bool, b: Bits, k: int)
    ensures Coef(When(c, b), k) == (c && Coef(b, k))
  {
  }

  lemma CoefPad(l: nat, a: Bits, r: nat, k: int)
    ensures Coef(Pad(l, a, r), k) == Coef(a, k - r)
  {
  }

  lemma CoefPush(a: Bits, c: bool, k: int)
    ensures Coef(a + [c], k) == if k == 0 then c else Coef(a, k - 1)
  {
  }

  /** Bit k of a number. */
  function BitAt(v: nat, k: nat): bool {
    if k == 0 then v % 2 == 1 else BitAt(v / 2, k - 1)
  }

  lemma {:induction false} CoefToBits(v: nat, n: nat, k: nat)
    requires k < n
    ensures Coef(ToBits(v, n), k) == BitAt(v, k)
  {
    if k == 0 {
    } else {
      CoefToBits(v / 2, n - 1, k - 1);
      CoefPush(ToBits(v / 2, n - 1), v % 2 == 1, k);
    }
  }
}

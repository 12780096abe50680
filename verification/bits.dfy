/** Python's unbounded-integer bit operations on non-negative integers.
    Every operation is defined by recursion on the lowest bit (`n % 2`) and
    the rest (`n / 2`), and characterised through `Bit(n, i)`, the value of
    `(n >> i) & 1`. Card sets (hands and decks) are such integers. */
module Bits {

  /** `1 << k` */
  function Pow2(k: nat): (r: nat)
    ensures r >= 1
  {
    if k == 0 then 1 else 2 * Pow2(k - 1)
  }

  /** `(n >> i) & 1 == 1` */
  predicate Bit(n: nat, i: nat) {
    if i == 0 then n % 2 == 1 else Bit(n / 2, i - 1)
  }

  lemma UnfoldBit(n: nat)
    ensures forall i: nat :: 0 < i ==> Bit(n, i) == Bit(n / 2, i - 1)
  {
  }

  lemma ZeroHasNoBits()
    ensures forall i: nat :: !Bit(0, i)
  {
    forall i: nat ensures !Bit(0, i) {
      ZeroHasNoBit(i);
    }
  }

  lemma {:induction false} ZeroHasNoBit(i: nat)
    ensures !Bit(0, i)
  {
    if i > 0 {
      ZeroHasNoBit(i - 1);
    }
  }

  /** Two integers with the same bits are equal. */
  lemma {:induction false} Extensionality(a: nat, b: nat)
    requires forall i: nat :: Bit(a, i) == Bit(b, i)
    ensures a == b
    decreases a + b
  {
    if a + b > 0 {
      assert Bit(a, 0) == Bit(b, 0);
      forall i: nat ensures Bit(a / 2, i) == Bit(b / 2, i) {
        assert Bit(a, i + 1) == Bit(b, i + 1);
      }
      Extensionality(a / 2, b / 2);
    }
  }

  lemma {:induction false} Pow2Bits(k: nat)
    ensures forall i: nat :: Bit(Pow2(k), i) <==> i == k
  {
    if k == 0 {
      forall i: nat ensures Bit(1, i) <==> i == 0 {
        if i > 0 {
          ZeroHasNoBit(i - 1);
        }
      }
    } else {
      Pow2Bits(k - 1);
      forall i: nat ensures Bit(Pow2(k), i) <==> i == k {
        if i > 0 {
          assert Bit(Pow2(k), i) == Bit(Pow2(k - 1), i - 1);
        }
      }
    }
  }

  /** `(1 << k) - 1`, the mask of the `k` lowest bits. */
  function LowMask(k: nat): (r: nat)
    ensures r == Pow2(k) - 1
    ensures forall i: nat :: Bit(r, i) <==> i < k
  {
    if k == 0 then
      ZeroHasNoBits();
      0
    else
      var rest := LowMask(k - 1);
      var r := 1 + 2 * rest;
      assert r / 2 == rest && r % 2 == 1;
      UnfoldBit(r);
      r
  }

  // --------------------------------------------------- bitwise operations

  /** `a | b` */
  function Or(a: nat, b: nat): (r: nat)
    ensures forall i: nat :: Bit(r, i) == (Bit(a, i) || Bit(b, i))
    decreases a + b
  {
    if a == 0 && b == 0 then
      ZeroHasNoBits();
      0
    else
      var rest := Or(a / 2, b / 2);
      var r := (if a % 2 == 1 || b % 2 == 1 then 1 else 0) + 2 * rest;
      assert r / 2 == rest;
      r
  }

  /** `a & b` */
  function And(a: nat, b: nat): (r: nat)
    ensures forall i: nat :: Bit(r, i) == (Bit(a, i) && Bit(b, i))
    decreases a + b
  {
    if a == 0 && b == 0 then
      ZeroHasNoBits();
      0
    else
      var rest := And(a / 2, b / 2);
      var r := (if a % 2 == 1 && b % 2 == 1 then 1 else 0) + 2 * rest;
      assert r / 2 == rest;
      r
  }

  /** `a ^ b` */
  function Xor(a: nat, b: nat): (r: nat)
    ensures forall i: nat :: Bit(r, i) == (Bit(a, i) != Bit(b, i))
    decreases a + b
  {
    if a == 0 && b == 0 then
      ZeroHasNoBits();
      0
    else
      var rest := Xor(a / 2, b / 2);
      var r := (if a % 2 != b % 2 then 1 else 0) + 2 * rest;
      assert r / 2 == rest;
      r
  }

  /** `n >> k` */
  function Shr(n: nat, k: nat): (r: nat)
    ensures forall i: nat :: Bit(r, i) == Bit(n, i + k)
  {
    if k == 0 then n
    else
      var r := Shr(n / 2, k - 1);
      assert forall i: nat :: Bit(r, i) == Bit(n / 2, i + (k - 1));
      UnfoldBit(n);
      r
  }

  /** `n << k` */
  function Shl(n: nat, k: nat): (r: nat)
    ensures forall i: nat :: Bit(r, i) == (k <= i && Bit(n, i - k))
  {
    if k == 0 then n
    else
      var rest := Shl(n, k - 1);
      var r := 2 * rest;
      assert r / 2 == rest && r % 2 == 0;
      r
  }

  // ------------------------------------------------------ set relations

  /** `a & b == 0` */
  ghost predicate Disjoint(a: nat, b: nat) {
    forall i: nat :: !(Bit(a, i) && Bit(b, i))
  }

  /** `a & b == a` */
  ghost predicate SubsetOf(a: nat, b: nat) {
    forall i: nat :: Bit(a, i) ==> Bit(b, i)
  }

  lemma DisjointIffAndZero(a: nat, b: nat)
    ensures And(a, b) == 0 <==> Disjoint(a, b)
  {
    ZeroHasNoBits();
    if Disjoint(a, b) {
      Extensionality(And(a, b), 0);
    }
  }

  lemma SubsetIffAnd(a: nat, b: nat)
    ensures And(a, b) == a <==> SubsetOf(a, b)
  {
    if SubsetOf(a, b) {
      Extensionality(And(a, b), a);
    }
  }

  /** `n < 2**k` exactly when no bit at or above `k` is set. */
  lemma BelowIffNoHighBits(n: nat, k: nat)
    ensures n < Pow2(k) <==> forall i: nat :: k <= i ==> !Bit(n, i)
  {
    if n < Pow2(k) {
      BelowNoHighBits(n, k);
    } else {
      var i := HighBit(n, k);
      assert exists j: nat :: k <= j && Bit(n, j);
    }
  }

  /** Halving moves the bound down one power of two. */
  lemma HalfBelow(n: nat, k: nat)
    requires k > 0
    ensures n < Pow2(k) <==> n / 2 < Pow2(k - 1)
  {
    assert Pow2(k) == 2 * Pow2(k - 1);
  }

  lemma {:induction false} BelowNoHighBits(n: nat, k: nat)
    requires n < Pow2(k)
    ensures forall i: nat :: k <= i ==> !Bit(n, i)
  {
    if k == 0 {
      assert n == 0;
      ZeroHasNoBits();
    } else {
      HalfBelow(n, k);
      BelowNoHighBits(n / 2, k - 1);
      UnfoldBit(n);
      forall i: nat | k <= i ensures !Bit(n, i) {
        assert !Bit(n / 2, i - 1);
      }
    }
  }

  /** A number at or above `2**k` has a set bit at or above `k`. */
  lemma {:induction false} HighBit(n: nat, k: nat) returns (i: nat)
    requires n >= Pow2(k)
    ensures k <= i && Bit(n, i)
  {
    if k == 0 {
      HasSomeBit(n);
      i :| Bit(n, i);
    } else {
      HalfBelow(n, k);
      var j := HighBit(n / 2, k - 1);
      i := j + 1;
      UnfoldBit(n);
    }
  }

  /** A positive integer has a set bit. */
  lemma {:induction false} HasSomeBit(n: nat)
    requires n > 0
    ensures exists i: nat :: Bit(n, i)
  {
    if n % 2 == 0 {
      HasSomeBit(n / 2);
      var i: nat :| Bit(n / 2, i);
      assert Bit(n, i + 1);
    } else {
      assert Bit(n, 0);
    }
  }

  // ------------------------------------------------------------ counting

  /** Number of set bits, bit by bit from the bottom. */
  function NumOnes(n: nat): nat {
    if n == 0 then 0 else n % 2 + NumOnes(n / 2)
  }

  /** Number of set bits at positions `lo .. hi-1`. */
  function CountBits(n: nat, lo: nat, hi: nat): nat
    decreases hi - lo
  {
    if hi <= lo then 0 else (if Bit(n, lo) then 1 else 0) + CountBits(n, lo + 1, hi)
  }

  lemma {:induction false} CountBitsSplit(n: nat, lo: nat, mid: nat, hi: nat)
    requires lo <= mid <= hi
    ensures CountBits(n, lo, hi) == CountBits(n, lo, mid) + CountBits(n, mid, hi)
    decreases mid - lo
  {
    if lo < mid {
      CountBitsSplit(n, lo + 1, mid, hi);
    }
  }

  /** Counting over two windows whose bits agree position by position. */
  lemma {:induction false} CountBitsTransfer(a: nat, loA: nat, b: nat, loB: nat, len: nat)
    requires forall i: nat :: loA <= i < loA + len ==> Bit(a, i) == Bit(b, i - loA + loB)
    ensures CountBits(a, loA, loA + len) == CountBits(b, loB, loB + len)
    decreases len
  {
    if len > 0 {
      assert Bit(a, loA) == Bit(b, loB);
      CountBitsTransfer(a, loA + 1, b, loB + 1, len - 1);
    }
  }

  lemma {:induction false} CountBitsShift(n: nat, lo: nat, hi: nat)
    ensures CountBits(n, lo + 1, hi + 1) == CountBits(n / 2, lo, hi)
    decreases hi - lo
  {
    if lo < hi {
      assert Bit(n, lo + 1) == Bit(n / 2, lo);
      CountBitsShift(n, lo + 1, hi);
    }
  }

  /** Below `2**k` the set bits all lie in the window `0 .. k-1`. */
  lemma {:induction false} NumOnesIsCountBits(n: nat, k: nat)
    requires n < Pow2(k)
    ensures NumOnes(n) == CountBits(n, 0, k)
  {
    if k == 0 {
    } else {
      NumOnesIsCountBits(n / 2, k - 1);
      CountBitsShift(n, 0, k - 1);
      assert Bit(n, 0) == (n % 2 == 1);
    }
  }

  lemma {:induction false} NumOnesBelow(n: nat, k: nat)
    requires n < Pow2(k)
    ensures NumOnes(n) <= k
  {
    if k > 0 {
      NumOnesBelow(n / 2, k - 1);
    }
  }

  lemma Pow2NumOnes(k: nat)
    ensures NumOnes(Pow2(k)) == 1
  {
  }

  /** Inclusion-exclusion for `|` and `&`. */
  lemma {:induction false} NumOnesOrAnd(a: nat, b: nat)
    ensures NumOnes(Or(a, b)) + NumOnes(And(a, b)) == NumOnes(a) + NumOnes(b)
    decreases a + b
  {
    if a + b > 0 {
      NumOnesOrAnd(a / 2, b / 2);
      assert Or(a, b) / 2 == Or(a / 2, b / 2);
      assert And(a, b) / 2 == And(a / 2, b / 2);
    }
  }

  /** Counting for `^`. */
  lemma {:induction false} NumOnesXorAnd(a: nat, b: nat)
    ensures NumOnes(Xor(a, b)) + 2 * NumOnes(And(a, b)) == NumOnes(a) + NumOnes(b)
    decreases a + b
  {
    if a + b > 0 {
      NumOnesXorAnd(a / 2, b / 2);
      assert Xor(a, b) / 2 == Xor(a / 2, b / 2);
      assert And(a, b) / 2 == And(a / 2, b / 2);
    }
  }

  /** The union of disjoint sets has the summed size. */
  lemma NumOnesDisjointOr(a: nat, b: nat)
    requires Disjoint(a, b)
    ensures NumOnes(Or(a, b)) == NumOnes(a) + NumOnes(b)
  {
    NumOnesOrAnd(a, b);
    DisjointIffAndZero(a, b);
  }

  /** Removing a subset with `^` subtracts its size. */
  lemma NumOnesXorSubset(a: nat, b: nat)
    requires SubsetOf(b, a)
    ensures NumOnes(Xor(a, b)) == NumOnes(a) - NumOnes(b)
  {
    NumOnesXorAnd(a, b);
    assert And(a, b) == b by {
      Extensionality(And(a, b), b);
    }
  }

  // ---------------------------------------------------------- arithmetic

  /** `n << k == n * 2**k` */
  lemma {:induction false} ShlIsMul(n: nat, k: nat)
    ensures Shl(n, k) == n * Pow2(k)
  {
    if k > 0 {
      ShlIsMul(n, k - 1);
    }
  }

  /** `(a | b) + (a & b) == a + b` */
  lemma {:induction false} OrPlusAnd(a: nat, b: nat)
    ensures Or(a, b) + And(a, b) == a + b
    decreases a + b
  {
    if a + b > 0 {
      OrPlusAnd(a / 2, b / 2);
    }
  }

  /** On disjoint masks `|` is `+`. */
  lemma OrDisjointIsPlus(a: nat, b: nat)
    requires Disjoint(a, b)
    ensures Or(a, b) == a + b
  {
    OrPlusAnd(a, b);
    DisjointIffAndZero(a, b);
  }

  /** Setting bit `i` above a mask below `2**i`. */
  lemma OrHighBit(low: nat, b: nat, i: nat)
    requires low < Pow2(i) && b < 2
    ensures Or(low, Shl(b, i)) == low + b * Pow2(i)
    ensures low + b * Pow2(i) < Pow2(i + 1)
  {
    BelowIffNoHighBits(low, i);
    ShlIsMul(b, i);
    OrDisjointIsPlus(low, Shl(b, i));
  }
}

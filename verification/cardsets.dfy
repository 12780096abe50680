/** Card sets as bit masks: `num_ones`, `list_to_binary` and
    `binary_to_list` (defined identically in utils.py and mu_roomy.py).
    The functions give the meaning; the methods are the bit-walking loops
    of the source, proved to compute the same values. */
module CardSets {
  import opened Seqs
  import opened Bits

  /** Card `c` has value `c % 8` (printed 1 .. 8) and colour `c / 8`
      (red, blue, yellow). */
  function Value(card: nat): nat { card % 8 }
  function Colour(card: nat): nat { card / 8 }

  /** The card of colour `c` and value `v`. */
  lemma CardParts(v: nat, c: nat)
    requires v < 8
    ensures Value(v + c * 8) == v && Colour(v + c * 8) == c
  {
  }

  lemma CardOfParts(card: nat)
    ensures card == Value(card) + Colour(card) * 8 && Value(card) < 8
    ensures Colour(card) == 0 <==> card < 8
    ensures Colour(card) == 1 <==> 8 <= card < 16
    ensures Colour(card) == 2 <==> 16 <= card < 24
    ensures Colour(card) < 3 <==> card < 24
  {
  }

  /** `list_to_binary(alist)`: the mask with exactly the listed bits set. */
  function ListToBinary(l: seq<nat>): (r: nat)
    ensures forall i: nat :: Bit(r, i) <==> i in l
  {
    if |l| == 0 then
      ZeroHasNoBits();
      0
    else
      var init := l[..|l| - 1];
      Pow2Bits(l[|l| - 1]);
      assert l == init + [l[|l| - 1]];
      Or(ListToBinary(init), Pow2(l[|l| - 1]))
  }

  /** The positions `>= curr` of the set bits of `n`, read from bit 0 up,
      each shifted by `curr`. */
  function BinaryToListFrom(n: nat, curr: nat): seq<nat> {
    if n == 0 then []
    else (if n % 2 == 1 then [curr] else []) + BinaryToListFrom(n / 2, curr + 1)
  }

  lemma {:induction false} BinaryToListFromSpec(n: nat, curr: nat)
    ensures StrictlyIncreasing(BinaryToListFrom(n, curr))
    ensures |BinaryToListFrom(n, curr)| == NumOnes(n)
    ensures forall x :: x in BinaryToListFrom(n, curr) ==> curr <= x
    ensures forall x :: x in BinaryToListFrom(n, curr) <==> curr <= x && Bit(n, x - curr)
  {
    if n == 0 {
      ZeroHasNoBits();
    } else {
      var rest := BinaryToListFrom(n / 2, curr + 1);
      BinaryToListFromSpec(n / 2, curr + 1);
      var head := if n % 2 == 1 then [curr] else [];
      var r := head + rest;
      assert BinaryToListFrom(n, curr) == r;
      forall j | 0 <= j < |rest| ensures curr < rest[j] {
        assert rest[j] in rest;
      }
      forall i, j | 0 <= i < j < |r| ensures r[i] < r[j] {
        assert r[j] == rest[j - |head|];
        if i >= |head| {
          assert r[i] == rest[i - |head|];
        }
      }
      forall x ensures x in r <==> curr <= x && Bit(n, x - curr) {
        if x == curr {
          assert x !in rest;
        } else if x > curr {
          UnfoldBit(n);
          assert Bit(n, x - curr) == Bit(n / 2, x - (curr + 1));
        }
      }
    }
  }

  /** `binary_to_list(binary)`: the set bits of `binary` in ascending order. */
  function BinaryToList(n: nat): (r: seq<nat>)
    ensures StrictlyIncreasing(r)
    ensures |r| == NumOnes(n)
    ensures forall x :: x in r <==> Bit(n, x)
  {
    BinaryToListFromSpec(n, 0);
    BinaryToListFrom(n, 0)
  }

  /** Round trip from a mask: `list_to_binary(binary_to_list(n)) == n`. */
  lemma MaskRoundTrip(n: nat)
    ensures ListToBinary(BinaryToList(n)) == n
  {
    Extensionality(ListToBinary(BinaryToList(n)), n);
  }

  /** Round trip from a strictly increasing card list. */
  lemma ListRoundTrip(l: seq<nat>)
    requires StrictlyIncreasing(l)
    ensures BinaryToList(ListToBinary(l)) == l
    ensures NumOnes(ListToBinary(l)) == |l|
  {
    StrictlyIncreasingUnique(BinaryToList(ListToBinary(l)), l);
  }

  /** Distinct strictly increasing lists have distinct masks. */
  lemma ListToBinaryInjective(a: seq<nat>, b: seq<nat>)
    requires StrictlyIncreasing(a) && StrictlyIncreasing(b)
    requires ListToBinary(a) == ListToBinary(b)
    ensures a == b
  {
    ListRoundTrip(a);
    ListRoundTrip(b);
  }

  /** A mask whose bits all lie below 24 is a 24-bit mask. */
  lemma CardsBelow24(l: seq<nat>)
    requires AllBelow(l, 24)
    ensures ListToBinary(l) < Pow2(24)
  {
    BelowIffNoHighBits(ListToBinary(l), 24);
  }

  // ------------------------------------------------------ the source loops

  /** The `num_ones` loop. */
  method CountOnes(n: nat) returns (res: nat)
    ensures res == NumOnes(n)
    ensures res == |BinaryToList(n)|
  {
    res := 0;
    var m := n;
    while m != 0
      invariant res + NumOnes(m) == NumOnes(n)
    {
      if m % 2 == 1 {
        res := res + 1;
      }
      m := m / 2;
    }
  }

  /** The `list_to_binary` loop. */
  method ListToMask(alist: seq<nat>) returns (res: nat)
    ensures forall i: nat :: Bit(res, i) <==> i in alist
    ensures res == ListToBinary(alist)
  {
    res := 0;
    for k := 0 to |alist|
      invariant res == ListToBinary(alist[..k])
    {
      assert alist[..k + 1][..k] == alist[..k];
      res := Or(res, Pow2(alist[k]));
    }
    assert alist[..|alist|] == alist;
  }

  /** The `binary_to_list` loop. */
  method MaskToList(binary: nat) returns (res: seq<nat>)
    ensures StrictlyIncreasing(res)
    ensures forall x :: x in res <==> Bit(binary, x)
    ensures res == BinaryToList(binary)
  {
    res := [];
    var curr := 0;
    var b := binary;
    while b != 0
      invariant res + BinaryToListFrom(b, curr) == BinaryToList(binary)
      decreases b
    {
      ghost var tail := BinaryToListFrom(b / 2, curr + 1);
      if b % 2 == 1 {
        assert res + ([curr] + tail) == (res + [curr]) + tail;
        res := res + [curr];
      }
      curr := curr + 1;
      b := b / 2;
    }
    assert res == BinaryToList(binary);
  }
}

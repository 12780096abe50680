/** Deck compaction (utils.py): the deck is disjoint from the hand, so its
    bits can be packed into the positions the hand leaves free
    (`compactify_deck`) and unpacked again (`expand_deck`). A five-card
    hand leaves 19 free positions below 24, so every compact deck is below
    `2**19`. */
module Compaction {
  import opened Wrappers
  import opened Bits

  /** `expand_deck(hand, deck)`: the bits of `deck`, from the bottom up,
      placed one by one at the positions where `hand` has no bit. */
  function Expand(hand: nat, deck: nat): nat
    decreases deck, hand
  {
    if deck == 0 then 0
    else if hand % 2 == 0 then deck % 2 + 2 * Expand(hand / 2, deck / 2)
    else 2 * Expand(hand / 2, deck)
  }

  /** `compactify_deck(hand, deck)`: the bits of `deck` at the positions
      where `hand` has no bit, packed from the bottom up; `None` when the
      `assert not (deck & 1)` fails, that is when a card is in both. */
  function Compactify(hand: nat, deck: nat): Option<nat>
    decreases deck
  {
    if deck == 0 then Some(0)
    else if hand % 2 == 0 then
      match Compactify(hand / 2, deck / 2)
      case None => None
      case Some(c) => Some(deck % 2 + 2 * c)
    else if deck % 2 == 1 then None
    else Compactify(hand / 2, deck / 2)
  }

  /** Disjointness, bit 0 first and then the rest. */
  lemma DisjointStep(a: nat, b: nat)
    ensures Disjoint(a, b) <==> !(a % 2 == 1 && b % 2 == 1) && Disjoint(a / 2, b / 2)
  {
    UnfoldBit(a);
    UnfoldBit(b);
    if !(a % 2 == 1 && b % 2 == 1) && Disjoint(a / 2, b / 2) {
      forall i: nat ensures !(Bit(a, i) && Bit(b, i)) {
        if i > 0 {
          assert !(Bit(a / 2, i - 1) && Bit(b / 2, i - 1));
        }
      }
    }
    if Disjoint(a, b) {
      assert !(Bit(a, 0) && Bit(b, 0));
      forall i: nat ensures !(Bit(a / 2, i) && Bit(b / 2, i)) {
        assert !(Bit(a, i + 1) && Bit(b, i + 1));
      }
    }
  }

  /** An expanded deck shares no card with the hand. */
  lemma {:induction false} ExpandDisjoint(hand: nat, deck: nat)
    ensures Disjoint(Expand(hand, deck), hand)
    decreases deck, hand
  {
    var e := Expand(hand, deck);
    if deck == 0 {
      ZeroHasNoBits();
    } else if hand % 2 == 0 {
      ExpandDisjoint(hand / 2, deck / 2);
      assert e / 2 == Expand(hand / 2, deck / 2);
      DisjointStep(e, hand);
    } else {
      ExpandDisjoint(hand / 2, deck);
      assert e / 2 == Expand(hand / 2, deck) && e % 2 == 0;
      DisjointStep(e, hand);
    }
  }

  /** Round trip from a compact deck: `compactify_deck(hand, expand_deck(hand, d)) == d`. */
  lemma {:induction false} CompactifyExpand(hand: nat, deck: nat)
    ensures Compactify(hand, Expand(hand, deck)) == Some(deck)
    decreases deck, hand
  {
    var e := Expand(hand, deck);
    if deck == 0 {
    } else if hand % 2 == 0 {
      CompactifyExpand(hand / 2, deck / 2);
      assert e % 2 == deck % 2 && e / 2 == Expand(hand / 2, deck / 2);
    } else {
      CompactifyExpand(hand / 2, deck);
      assert e % 2 == 0 && e / 2 == Expand(hand / 2, deck);
    }
  }

  /** `compactify_deck` fails exactly when the deck and the hand share a
      card; otherwise expanding its result gives the deck back. */
  lemma {:induction false} ExpandCompactify(hand: nat, deck: nat)
    ensures Compactify(hand, deck).Some? <==> Disjoint(hand, deck)
    ensures Compactify(hand, deck).Some? ==> Expand(hand, Compactify(hand, deck).value) == deck
    decreases deck
  {
    DisjointStep(hand, deck);
    if deck == 0 {
      ZeroHasNoBits();
    } else {
      ExpandCompactify(hand / 2, deck / 2);
      if hand % 2 == 1 && deck % 2 == 0 {
        if Compactify(hand, deck).Some? {
          var c := Compactify(hand, deck).value;
        }
      }
    }
  }

  /** Distinct compact decks expand to distinct decks. */
  lemma ExpandInjective(hand: nat, a: nat, b: nat)
    requires Expand(hand, a) == Expand(hand, b)
    ensures a == b
  {
    CompactifyExpand(hand, a);
    CompactifyExpand(hand, b);
  }

  /** Expanding keeps the number of cards. */
  lemma {:induction false} ExpandNumOnes(hand: nat, deck: nat)
    ensures NumOnes(Expand(hand, deck)) == NumOnes(deck)
    decreases deck, hand
  {
    var e := Expand(hand, deck);
    if deck == 0 {
    } else if hand % 2 == 0 {
      ExpandNumOnes(hand / 2, deck / 2);
      assert e % 2 == deck % 2 && e / 2 == Expand(hand / 2, deck / 2);
    } else {
      ExpandNumOnes(hand / 2, deck);
      assert e % 2 == 0 && e / 2 == Expand(hand / 2, deck);
    }
  }

  /** Compacting keeps the number of cards. */
  lemma CompactifyNumOnes(hand: nat, deck: nat)
    requires Compactify(hand, deck).Some?
    ensures NumOnes(Compactify(hand, deck).value) == NumOnes(deck)
  {
    ExpandCompactify(hand, deck);
    ExpandNumOnes(hand, Compactify(hand, deck).value);
  }

  /** A hand of `k` bits with `n` cards leaves room for compact decks below
      `2**(k - n)`: they expand into `k`-bit masks. */
  lemma {:induction false} ExpandBelow(hand: nat, deck: nat, k: nat)
    requires hand < Pow2(k)
    requires NumOnes(hand) <= k && deck < Pow2(k - NumOnes(hand))
    ensures Expand(hand, deck) < Pow2(k)
    decreases k
  {
    if k == 0 {
    } else if deck == 0 {
    } else if hand % 2 == 0 {
      ExpandBelow(hand / 2, deck / 2, k - 1);
    } else {
      assert NumOnes(hand) == 1 + NumOnes(hand / 2);
      assert Pow2(k - NumOnes(hand)) == Pow2(k - 1 - NumOnes(hand / 2));
      ExpandBelow(hand / 2, deck, k - 1);
    }
  }

  /** Conversely a `k`-bit deck compacts below `2**(k - n)`. */
  lemma {:induction false} CompactifyBelow(hand: nat, deck: nat, k: nat)
    requires hand < Pow2(k) && deck < Pow2(k)
    requires Compactify(hand, deck).Some?
    ensures NumOnes(hand) <= k && Compactify(hand, deck).value < Pow2(k - NumOnes(hand))
    decreases k
  {
    NumOnesBelow(hand, k);
    if k == 0 {
    } else if deck == 0 {
    } else if hand % 2 == 0 {
      CompactifyBelow(hand / 2, deck / 2, k - 1);
    } else {
      assert NumOnes(hand) == 1 + NumOnes(hand / 2);
      CompactifyBelow(hand / 2, deck / 2, k - 1);
    }
  }

  // ------------------------------------------------------ the source loops

  /** The `expand_deck` loop. */
  method ExpandDeck(hand: nat, deck: nat) returns (res: nat)
    ensures res == Expand(hand, deck)
    ensures Disjoint(res, hand)
  {
    res := 0;
    var i: nat := 0;
    var h: nat, d: nat := hand, deck;
    while d != 0
      invariant res < Pow2(i)
      invariant Expand(hand, deck) == res + Pow2(i) * Expand(h, d)
      decreases d, h
    {
      ExpandTurn(h, d, i);
      if h % 2 == 0 {
        OrHighBit(res, d % 2, i);
        res := Or(res, Shl(d % 2, i));
        d := d / 2;
      }
      h := h / 2;
      i := i + 1;
    }
    ExpandDisjoint(hand, deck);
  }

  /** The `compactify_deck` loop; `None` where its assertion fails. */
  method CompactifyDeck(hand: nat, deck: nat) returns (res: Option<nat>)
    ensures res.Some? <==> Disjoint(hand, deck)
    ensures res == Compactify(hand, deck)
  {
    ExpandCompactify(hand, deck);
    var acc: nat := 0;
    var i: nat := 0;
    var h: nat, d: nat := hand, deck;
    while d != 0
      invariant acc < Pow2(i)
      invariant Compactify(hand, deck).None? <==> Compactify(h, d).None?
      invariant Compactify(h, d).Some? ==>
        Compactify(hand, deck).value == acc + Pow2(i) * Compactify(h, d).value
      decreases d
    {
      if h % 2 == 0 {
        OrHighBit(acc, d % 2, i);
        CompactifyTurn(h, d, i);
        acc := Or(acc, Shl(d % 2, i));
        i := i + 1;
      } else if d % 2 == 1 {
        return None;
      }
      d := d / 2;
      h := h / 2;
    }
    res := Some(acc);
  }

  /** One turn of the `expand_deck` loop, weighted by the current bit. */
  lemma ExpandTurn(hand: nat, deck: nat, i: nat)
    requires deck != 0
    ensures hand % 2 == 0 ==>
      Pow2(i) * Expand(hand, deck) == (deck % 2) * Pow2(i) + Pow2(i + 1) * Expand(hand / 2, deck / 2)
    ensures hand % 2 == 1 ==> Pow2(i) * Expand(hand, deck) == Pow2(i + 1) * Expand(hand / 2, deck)
  {
    if hand % 2 == 0 {
      Distribute(Pow2(i), deck % 2, Expand(hand / 2, deck / 2));
    } else {
      Distribute(Pow2(i), 0, Expand(hand / 2, deck));
    }
  }

  /** One turn of the `compactify_deck` loop at a free position. */
  lemma CompactifyTurn(hand: nat, deck: nat, i: nat)
    requires deck != 0 && hand % 2 == 0
    ensures Compactify(hand, deck).Some? <==> Compactify(hand / 2, deck / 2).Some?
    ensures Compactify(hand, deck).Some? ==>
      Pow2(i) * Compactify(hand, deck).value == (deck % 2) * Pow2(i) + Pow2(i + 1) * Compactify(hand / 2, deck / 2).value
  {
    if Compactify(hand, deck).Some? {
      Distribute(Pow2(i), deck % 2, Compactify(hand / 2, deck / 2).value);
    }
  }

  lemma Distribute(p: nat, b: nat, x: nat)
    ensures p * (b + 2 * x) == b * p + (2 * p) * x
  {
  }
}

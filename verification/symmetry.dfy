/** Colour-permutation symmetry (utils.py): the three colours are
    interchangeable, so a state is stored under the least `(hand, deck)`
    pair among its six recolourings. */
module Symmetry {
  import opened Seqs
  import opened Bits
  import opened CardSets

  /** A permutation of the three colours: `perm[j]` is the old colour that
      becomes colour `j`. */
  type Perm = p: seq<nat> | |p| == 3 && p[0] < 3 && p[1] < 3 && p[2] < 3 &&
    p[0] != p[1] && p[1] != p[2] && p[0] != p[2]
    witness [0, 1, 2]

  /** The identity permutation `(0, 1, 2)`. */
  const Identity: Perm := [0, 1, 2]

  /** The six permutations, in the order `equiv_class` lists them. */
  const Perms: seq<Perm> := [[0, 1, 2], [0, 2, 1], [1, 0, 2], [1, 2, 0], [2, 0, 1], [2, 1, 0]]

  /** Every permutation of the colours is listed. */
  lemma PermsComplete(p: Perm)
    ensures p in Perms
  {
    var k := PermIndex(p);
  }

  /** Where a permutation is listed. */
  lemma PermIndex(p: Perm) returns (k: nat)
    ensures k < 6 && Perms[k] == p
  {
    assert p == [p[0], p[1], p[2]];
    if p[0] == 0 {
      if p[1] == 1 { k := 0; } else { k := 1; }
    } else if p[0] == 1 {
      if p[1] == 0 { k := 2; } else { k := 3; }
    } else {
      if p[1] == 0 { k := 4; } else { k := 5; }
    }
  }

  /** `masks[k]`: the eight bits of colour `k`. */
  function ColourMask(k: nat): (r: nat)
    ensures forall i: nat :: Bit(r, i) == (8 * k <= i < 8 * k + 8)
  {
    Shl(LowMask(8), 8 * k)
  }

  /** `(num & masks[k]) >> (k * 8)`: the eight bits of colour `k`, moved down. */
  function Block(num: nat, k: nat): (r: nat)
    ensures forall j: nat :: Bit(r, j) == (j < 8 && Bit(num, j + k * 8))
  {
    var r := Shr(And(num, ColourMask(k)), k * 8);
    assert forall j: nat :: Bit(r, j) == Bit(And(num, ColourMask(k)), j + k * 8);
    r
  }

  /** Block `k` of `num` moved to colour `m`. */
  function Placed(num: nat, k: nat, m: nat): (r: nat)
    ensures forall i: nat :: Bit(r, i) == (m * 8 <= i < m * 8 + 8 && Bit(num, i - m * 8 + k * 8))
  {
    Shl(Block(num, k), m * 8)
  }

  /** `apply_permutation(num, perm)`: colour `perm[j]` of `num` becomes
      colour `j`; bits from 24 up are dropped (`PermutedBit`). */
  function ApplyPermutation(num: nat, p: Perm): nat {
    Or3(Placed(num, p[0], 0), Placed(num, p[1], 1), Placed(num, p[2], 2))
  }

  /** `a | b | c` */
  function Or3(a: nat, b: nat, c: nat): (r: nat)
    ensures forall i: nat :: Bit(r, i) == (Bit(a, i) || Bit(b, i) || Bit(c, i))
  {
    Or(Or(a, b), c)
  }

  /** The position before recolouring by `p` of the bit at position `i < 24`
      after it: value `i % 8` of colour `p[i / 8]`. */
  function Source(p: Perm, i: nat): (j: nat)
    requires i < 24
    ensures j < 24
  {
    if i < 8 then i + p[0] * 8
    else if i < 16 then i - 8 + p[1] * 8
    else i - 16 + p[2] * 8
  }

  lemma SourceIsCard(p: Perm, i: nat)
    requires i < 24
    ensures Source(p, i) == Value(i) + p[Colour(i)] * 8
    ensures Value(Source(p, i)) == Value(i) && Colour(Source(p, i)) == p[Colour(i)]
  {
    CardOfParts(i);
    CardParts(Value(i), p[Colour(i)]);
  }

  lemma PermutedBlock0(num: nat, p: Perm, i: nat)
    requires i < 8
    ensures Bit(ApplyPermutation(num, p), i) == Bit(num, Source(p, i))
  {
  }

  lemma PermutedBlock1(num: nat, p: Perm, i: nat)
    requires 8 <= i < 16
    ensures Bit(ApplyPermutation(num, p), i) == Bit(num, Source(p, i))
  {
  }

  lemma PermutedBlock2(num: nat, p: Perm, i: nat)
    requires 16 <= i < 24
    ensures Bit(ApplyPermutation(num, p), i) == Bit(num, Source(p, i))
  {
  }

  /** Nothing from bit 24 up survives a recolouring. */
  lemma PermutedHighBit(num: nat, p: Perm, i: nat)
    requires 24 <= i
    ensures !Bit(ApplyPermutation(num, p), i)
  {
  }

  /** Bit `i` after recolouring is bit `Source(p, i)` before; nothing is
      kept from bit 24 up. */
  lemma PermutedBit(num: nat, p: Perm, i: nat)
    ensures i < 24 ==> Bit(ApplyPermutation(num, p), i) == Bit(num, Source(p, i))
    ensures 24 <= i ==> !Bit(ApplyPermutation(num, p), i)
  {
    if i < 8 {
      PermutedBlock0(num, p, i);
    } else if i < 16 {
      PermutedBlock1(num, p, i);
    } else if i < 24 {
      PermutedBlock2(num, p, i);
    } else {
      PermutedHighBit(num, p, i);
    }
  }

  /** A recoloured mask is a 24-bit mask. */
  lemma ApplyPermutationBelow(num: nat, p: Perm)
    ensures ApplyPermutation(num, p) < Pow2(24)
  {
    var r := ApplyPermutation(num, p);
    forall i: nat | 24 <= i ensures !Bit(r, i) {
      PermutedHighBit(num, p, i);
    }
    BelowIffNoHighBits(r, 24);
  }

  /** The identity permutation `(0, 1, 2)` leaves a 24-bit mask alone. */
  lemma ApplyIdentity(num: nat)
    requires num < Pow2(24)
    ensures ApplyPermutation(num, Identity) == num
  {
    var r := ApplyPermutation(num, Identity);
    PermutedBits(num, Identity);
    ApplyPermutationBelow(num, Identity);
    IdentitySource();
    SameLowBits(r, num);
  }

  lemma IdentitySource()
    ensures forall i: nat :: i < 24 ==> Source(Identity, i) == i
  {
  }

  /** Two 24-bit masks with the same low 24 bits are equal. */
  lemma SameLowBits(a: nat, b: nat)
    requires a < Pow2(24) && b < Pow2(24)
    requires forall i: nat :: i < 24 ==> Bit(a, i) == Bit(b, i)
    ensures a == b
  {
    BelowIffNoHighBits(a, 24);
    BelowIffNoHighBits(b, 24);
    forall i: nat ensures Bit(a, i) == Bit(b, i) {
      if 24 <= i {
        assert !Bit(a, i) && !Bit(b, i);
      }
    }
    Extensionality(a, b);
  }

  /** `q` after `p`: recolouring by `p`, then by `q`, recolours by `Compose(p, q)`. */
  function Compose(p: Perm, q: Perm): (r: Perm)
    ensures forall j :: 0 <= j < 3 ==> r[j] == p[q[j]]
  {
    [p[q[0]], p[q[1]], p[q[2]]]
  }

  function Inverse(p: Perm): (r: Perm)
    ensures forall j :: 0 <= j < 3 ==> r[p[j]] == j && p[r[j]] == j
  {
    var r := [if p[0] == 0 then 0 else if p[1] == 0 then 1 else 2,
              if p[0] == 1 then 0 else if p[1] == 1 then 1 else 2,
              if p[0] == 2 then 0 else if p[1] == 2 then 1 else 2];
    r
  }

  lemma ApplyCompose(num: nat, p: Perm, q: Perm)
    ensures ApplyPermutation(ApplyPermutation(num, p), q) == ApplyPermutation(num, Compose(p, q))
  {
    var a := ApplyPermutation(ApplyPermutation(num, p), q);
    var b := ApplyPermutation(num, Compose(p, q));
    forall i: nat ensures Bit(a, i) == Bit(b, i) {
      ComposeBit(num, p, q, i);
    }
    Extensionality(a, b);
  }

  lemma ComposeBit(num: nat, p: Perm, q: Perm, i: nat)
    ensures Bit(ApplyPermutation(ApplyPermutation(num, p), q), i) == Bit(ApplyPermutation(num, Compose(p, q)), i)
  {
    PermutedBit(ApplyPermutation(num, p), q, i);
    PermutedBit(num, Compose(p, q), i);
    if i < 24 {
      PermutedBit(num, p, Source(q, i));
      SourceCompose(p, q, i);
    }
  }

  lemma SourceCompose(p: Perm, q: Perm, i: nat)
    requires i < 24
    ensures Source(p, Source(q, i)) == Source(Compose(p, q), i)
  {
    SourceIsCard(q, i);
    SourceIsCard(p, Source(q, i));
    SourceIsCard(Compose(p, q), i);
  }

  /** Recolouring by `p` and then by its inverse restores a 24-bit mask. */
  lemma ApplyInverse(num: nat, p: Perm)
    requires num < Pow2(24)
    ensures ApplyPermutation(ApplyPermutation(num, p), Inverse(p)) == num
  {
    ApplyCompose(num, p, Inverse(p));
    assert Compose(p, Inverse(p)) == Identity;
    ApplyIdentity(num);
  }

  /** Recolouring keeps disjoint masks disjoint. */
  lemma ApplyKeepsDisjoint(a: nat, b: nat, p: Perm)
    requires Disjoint(a, b)
    ensures Disjoint(ApplyPermutation(a, p), ApplyPermutation(b, p))
  {
  }

  /** The cards of one colour block. */
  function BlockCount(num: nat, k: nat): nat {
    CountBits(num, 8 * k, 8 * k + 8)
  }

  lemma {:induction false} NumOnesByBlocks(num: nat)
    requires num < Pow2(24)
    ensures NumOnes(num) == BlockCount(num, 0) + BlockCount(num, 1) + BlockCount(num, 2)
  {
    NumOnesIsCountBits(num, 24);
    CountBitsSplit(num, 0, 8, 24);
    CountBitsSplit(num, 8, 16, 24);
  }

  lemma BlockCountMoves(num: nat, p: Perm, j: nat)
    requires j < 3
    ensures BlockCount(ApplyPermutation(num, p), j) == BlockCount(num, p[j])
  {
    PermutedBits(num, p);
    WindowFromSource(ApplyPermutation(num, p), num, p, j);
  }

  /** `PermutedBit` at every position below 24. */
  lemma PermutedBits(num: nat, p: Perm)
    ensures forall i: nat :: i < 24 ==> Bit(ApplyPermutation(num, p), i) == Bit(num, Source(p, i))
  {
    forall i: nat | i < 24 ensures Bit(ApplyPermutation(num, p), i) == Bit(num, Source(p, i)) {
      PermutedBit(num, p, i);
    }
  }

  lemma WindowFromSource(r: nat, num: nat, p: Perm, j: nat)
    requires j < 3
    requires forall i: nat :: i < 24 ==> Bit(r, i) == Bit(num, Source(p, i))
    ensures CountBits(r, 8 * j, 8 * j + 8) == CountBits(num, 8 * p[j], 8 * p[j] + 8)
  {
    forall i: nat | 8 * j <= i < 8 * j + 8
      ensures Bit(r, i) == Bit(num, i - 8 * j + 8 * p[j])
    {
      SourceInBlock(p, j, i);
    }
    CountBitsTransfer(r, 8 * j, num, 8 * p[j], 8);
  }

  lemma SourceInBlock(p: Perm, j: nat, i: nat)
    requires j < 3 && 8 * j <= i < 8 * j + 8
    ensures i < 24 && Source(p, i) == i - 8 * j + 8 * p[j]
  {
  }

  /** Each of the six permutations keeps the number of cards of a 24-bit mask. */
  lemma ApplyKeepsNumOnes(num: nat, p: Perm)
    requires num < Pow2(24)
    ensures NumOnes(ApplyPermutation(num, p)) == NumOnes(num)
  {
    var r := ApplyPermutation(num, p);
    ApplyPermutationBelow(num, p);
    BlockCountMoves(num, p, 0);
    BlockCountMoves(num, p, 1);
    BlockCountMoves(num, p, 2);
    SameBlockCounts(r, num, p);
  }

  /** Two 24-bit masks whose colour blocks hold the same numbers of cards,
      up to a permutation of the colours, hold the same number of cards. */
  lemma SameBlockCounts(r: nat, num: nat, p: Perm)
    requires r < Pow2(24) && num < Pow2(24)
    requires BlockCount(r, 0) == BlockCount(num, p[0])
    requires BlockCount(r, 1) == BlockCount(num, p[1])
    requires BlockCount(r, 2) == BlockCount(num, p[2])
    ensures NumOnes(r) == NumOnes(num)
  {
    NumOnesByBlocks(num);
    NumOnesByBlocks(r);
    BlockSumPermuted(num, p);
  }

  lemma BlockSumPermuted(num: nat, p: Perm)
    ensures BlockCount(num, p[0]) + BlockCount(num, p[1]) + BlockCount(num, p[2]) ==
            BlockCount(num, 0) + BlockCount(num, 1) + BlockCount(num, 2)
  {
    PermutedSum([BlockCount(num, 0), BlockCount(num, 1), BlockCount(num, 2)], p);
  }

  /** Permuting three summands keeps the sum. */
  lemma PermutedSum(b: seq<nat>, p: Perm)
    requires |b| == 3
    ensures b[p[0]] + b[p[1]] + b[p[2]] == b[0] + b[1] + b[2]
  {
  }

  // ------------------------------------------------------- canonical states

  /** `State(score, hand, deck)`. */
  datatype State = State(score: nat, hand: nat, deck: nat)

  /** Python's tuple comparison `a <= b` on `(hand, deck)` pairs. */
  predicate LexLe(a: (nat, nat), b: (nat, nat)) {
    a.0 < b.0 || (a.0 == b.0 && a.1 <= b.1)
  }

  /** `equiv_class(state)`: the six recolourings of `(hand, deck)`. */
  function EquivClass(st: State): (r: seq<(nat, nat)>)
    ensures |r| == 6
  {
    seq(6, i requires 0 <= i < 6 =>
      (ApplyPermutation(st.hand, Perms[i]), ApplyPermutation(st.deck, Perms[i])))
  }

  /** `min(pairs)`: the first least pair. */
  function MinPair(pairs: seq<(nat, nat)>): (r: (nat, nat))
    requires |pairs| > 0
    ensures r in pairs
    ensures forall x :: x in pairs ==> LexLe(r, x)
  {
    if |pairs| == 1 then pairs[0]
    else
      var rest := MinPair(pairs[1..]);
      assert forall x :: x in pairs ==> x == pairs[0] || x in pairs[1..];
      if LexLe(rest, pairs[0]) && rest != pairs[0] then rest else pairs[0]
  }

  /** The least element does not depend on the listing. */
  lemma MinPairOfSameElements(a: seq<(nat, nat)>, b: seq<(nat, nat)>)
    requires |a| > 0 && |b| > 0
    requires forall x :: x in a <==> x in b
    ensures MinPair(a) == MinPair(b)
  {
  }

  /** `canonicalize(state)`. */
  function Canonicalize(st: State): State {
    var m := MinPair(EquivClass(st));
    State(st.score, m.0, m.1)
  }

  /** The canonical state is a recolouring of the state, and no recolouring
      is smaller. */
  lemma CanonicalizeIsLeast(st: State)
    ensures var r := Canonicalize(st);
      r.score == st.score &&
      (exists p :: p in Perms && r.hand == ApplyPermutation(st.hand, p) && r.deck == ApplyPermutation(st.deck, p)) &&
      (forall p :: p in Perms ==> LexLe((r.hand, r.deck), (ApplyPermutation(st.hand, p), ApplyPermutation(st.deck, p))))
  {
    var cls := EquivClass(st);
    var m := MinPair(cls);
    var i := Position(m, cls);
    assert Perms[i] in Perms;
    forall p | p in Perms
      ensures LexLe(m, (ApplyPermutation(st.hand, p), ApplyPermutation(st.deck, p)))
    {
      ClassMember(st, p);
    }
  }

  /** On 24-bit masks the canonical pair is at most the state's own pair. */
  lemma CanonicalizeBelow(st: State)
    requires st.hand < Pow2(24) && st.deck < Pow2(24)
    ensures LexLe((Canonicalize(st).hand, Canonicalize(st).deck), (st.hand, st.deck))
  {
    CanonicalizeIsLeast(st);
    ApplyIdentity(st.hand);
    ApplyIdentity(st.deck);
    assert Perms[0] == Identity;
  }

  function Recolour(st: State, q: Perm): State {
    State(st.score, ApplyPermutation(st.hand, q), ApplyPermutation(st.deck, q))
  }

  /** Every recolouring of a state is in its class. */
  lemma ClassMember(st: State, p: Perm)
    ensures (ApplyPermutation(st.hand, p), ApplyPermutation(st.deck, p)) in EquivClass(st)
  {
    var k := PermIndex(p);
    assert EquivClass(st)[k] == (ApplyPermutation(st.hand, p), ApplyPermutation(st.deck, p));
  }

  /** The class holds exactly the recolourings of the state, one for each
      permutation of the colours. */
  lemma ClassMembers(st: State)
    ensures forall x :: x in EquivClass(st) <==>
      exists p: Perm :: x == (ApplyPermutation(st.hand, p), ApplyPermutation(st.deck, p))
  {
    var cls := EquivClass(st);
    forall x | x in cls
      ensures exists p: Perm :: x == (ApplyPermutation(st.hand, p), ApplyPermutation(st.deck, p))
    {
      var i := Position(x, cls);
      assert x == (ApplyPermutation(st.hand, Perms[i]), ApplyPermutation(st.deck, Perms[i]));
    }
    forall p: Perm ensures (ApplyPermutation(st.hand, p), ApplyPermutation(st.deck, p)) in cls {
      ClassMember(st, p);
    }
  }

  /** Recolouring a state does not change its class. */
  lemma RecolourSameClass(st: State, q: Perm)
    ensures forall x :: x in EquivClass(Recolour(st, q)) <==> x in EquivClass(st)
  {
    RecolourClassWithin(st, q);
    RecolourClassCovers(st, q);
  }

  lemma RecolourClassWithin(st: State, q: Perm)
    ensures forall x :: x in EquivClass(Recolour(st, q)) ==> x in EquivClass(st)
  {
    var a := EquivClass(Recolour(st, q));
    forall x | x in a ensures x in EquivClass(st) {
      var i := Position(x, a);
      RecolouredMember(st, q, Perms[i]);
    }
  }

  lemma RecolourClassCovers(st: State, q: Perm)
    ensures forall x :: x in EquivClass(st) ==> x in EquivClass(Recolour(st, q))
  {
    var b := EquivClass(st);
    forall x | x in b ensures x in EquivClass(Recolour(st, q)) {
      var i := Position(x, b);
      UnrecolouredMember(st, q, Perms[i]);
    }
  }

  lemma RecolouredMember(st: State, q: Perm, p: Perm)
    ensures (ApplyPermutation(ApplyPermutation(st.hand, q), p), ApplyPermutation(ApplyPermutation(st.deck, q), p)) in EquivClass(st)
  {
    ApplyCompose(st.hand, q, p);
    ApplyCompose(st.deck, q, p);
    ClassMember(st, Compose(q, p));
  }

  lemma UnrecolouredMember(st: State, q: Perm, p: Perm)
    ensures (ApplyPermutation(st.hand, p), ApplyPermutation(st.deck, p)) in EquivClass(Recolour(st, q))
  {
    var p' := Compose(Inverse(q), p);
    assert Compose(q, p') == p;
    ApplyCompose(st.hand, q, p');
    ApplyCompose(st.deck, q, p');
    ClassMember(Recolour(st, q), p');
  }

  /** Recolouring a state first does not change its canonical form. */
  lemma CanonicalizeInvariant(st: State, q: Perm)
    ensures Canonicalize(Recolour(st, q)) == Canonicalize(st)
  {
    RecolourSameClass(st, q);
    MinPairOfSameElements(EquivClass(Recolour(st, q)), EquivClass(st));
  }

  /** Canonicalising twice is canonicalising once. */
  lemma CanonicalizeIdempotent(st: State)
    ensures Canonicalize(Canonicalize(st)) == Canonicalize(st)
  {
    var r := Canonicalize(st);
    CanonicalizeIsLeast(st);
    var p :| p in Perms && r.hand == ApplyPermutation(st.hand, p) && r.deck == ApplyPermutation(st.deck, p);
    assert r == Recolour(st, p);
    CanonicalizeInvariant(st, p);
  }
}

/** The precomputed tables of the exact solver (mu_roomy.py): the masks of
    all 5-, 4- and 3-card hands in `itertools.combinations` order, the index
    `binary_to_binom` that numbers them, the per-hand best score change
    `dp5` / `dp4` / `dp3`, and the per-hand move lists `moves_cache`. The
    `combinations_cache` they read is the table of `GameCalc`: mu_roomy.py
    imports it, with `moves` and `outcomes`, from utils.py, which defines
    none of them, and the gamecalc.py definitions stand in. */
module Roomy {
  import opened Wrappers
  import opened Seqs
  import opened Bits
  import opened CardSets
  import opened Scoring
  import opened GameCalc

  // ----------------------------------------------------------- hand tables

  /** `binom{k}_to_binary`: the masks of the `k`-card hands, in the order of
      `itertools.combinations(range(24), k)`. */
  function Table(k: nat): seq<nat> {
    var hands := Combinations(Range(24), k);
    seq(|hands|, i requires 0 <= i < |hands| => ListToBinary(hands[i]))
  }

  /** The three tables `binom5_to_binary`, `binom4_to_binary` and
      `binom3_to_binary`. The solver reads them through `binary_to_binom`,
      `dp5` / `dp4` / `dp3` and `moves_cache`; the functions below take them
      as a parameter and their lemmas hold for any tables that are
      `IndexSound`, which the built ones are (`BuildIndexSound`). */
  datatype HandIndex = HandIndex(t5: seq<nat>, t4: seq<nat>, t3: seq<nat>)

  /** The tables as the module builds them. */
  function BuildIndex(): HandIndex {
    HandIndex(Table(5), Table(4), Table(3))
  }

  /** The three tables one after the other, as `binary_to_binom` numbers them. */
  function AllTables(ix: HandIndex): seq<nat> {
    ix.t5 + ix.t4 + ix.t3
  }

  /** The mask of a `k`-card hand of the 24 cards. */
  ghost predicate HandMask(m: nat, k: nat) {
    m < Pow2(24) && NumOnes(m) == k
  }

  /** A table that lists every `k`-card hand mask exactly once. */
  ghost predicate Exact(t: seq<nat>, k: nat) {
    NoDup(t) && forall m :: m in t <==> HandMask(m, k)
  }

  /** Each table lists every hand mask of its bit count exactly once. */
  ghost predicate IndexSound(ix: HandIndex) {
    Exact(ix.t5, 5) && Exact(ix.t4, 4) && Exact(ix.t3, 3)
  }

  /** `{val: i for i, val in enumerate(s)}[x]`: the position of the last
      occurrence of `x`, or `None` for the `KeyError`. */
  function IndexIn(s: seq<nat>, x: nat): Option<nat>
    decreases |s|
  {
    if |s| == 0 then None
    else if s[|s| - 1] == x then Some(|s| - 1)
    else IndexIn(s[..|s| - 1], x)
  }

  /** `binary_to_binom[mask]`. The 4- and 3-card entries are added by later
      `update` calls and would win a clash, so they are consulted first;
      `None` for the `KeyError`. */
  function BinomIndex(ix: HandIndex, mask: nat): Option<nat> {
    Lookup(ix.t5, ix.t4, ix.t3, mask)
  }

  /** The index built from three enumerated lists, the later ones numbered
      after the earlier ones and taking precedence. */
  function Lookup(t5: seq<nat>, t4: seq<nat>, t3: seq<nat>, mask: nat): Option<nat> {
    match IndexIn(t3, mask)
    case Some(i) => Some(|t5| + |t4| + i)
    case None =>
      match IndexIn(t4, mask)
      case Some(i) => Some(|t5| + i)
      case None => IndexIn(t5, mask)
  }

  lemma {:induction false} IndexInSpec(s: seq<nat>, x: nat)
    ensures IndexIn(s, x).Some? <==> x in s
    ensures IndexIn(s, x).Some? ==> IndexIn(s, x).value < |s| && s[IndexIn(s, x).value] == x
    decreases |s|
  {
    if |s| > 0 && s[|s| - 1] != x {
      var init := s[..|s| - 1];
      IndexInSpec(init, x);
      assert s == init + [s[|s| - 1]];
    }
  }

  /** In a list without duplicates the index of an entry is its position. */
  lemma IndexInNoDup(s: seq<nat>, i: nat)
    requires NoDup(s) && i < |s|
    ensures IndexIn(s, s[i]) == Some(i)
  {
    IndexInSpec(s, s[i]);
  }

  /** The `k`-card hands below 24 are exactly the sorted hands of `k`
      distinct cards below 24. */
  lemma HandOfMask(mask: nat)
    ensures var hand := BinaryToList(mask);
      StrictlyIncreasing(hand) && |hand| == NumOnes(mask) &&
      (AllBelow(hand, 24) <==> mask < Pow2(24))
  {
    var hand := BinaryToList(mask);
    BelowIffNoHighBits(mask, 24);
    if AllBelow(hand, 24) {
      forall i: nat | 24 <= i ensures !Bit(mask, i) {
        assert forall j :: 0 <= j < |hand| ==> hand[j] != i;
      }
    }
    if mask < Pow2(24) {
      forall j | 0 <= j < |hand| ensures hand[j] < 24 {
        var x := hand[j];
        assert x in hand;
        assert Bit(mask, x);
        assert 24 <= x ==> !Bit(mask, x);
      }
    }
  }

  /** Entry `i` of table `k` is the mask of the `i`-th combination. */
  lemma TableEntry(k: nat, i: nat)
    requires i < |Table(k)|
    ensures var c := Combinations(Range(24), k)[i];
      Table(k)[i] == ListToBinary(c) && BinaryToList(Table(k)[i]) == c &&
      Table(k)[i] < Pow2(24) && NumOnes(Table(k)[i]) == k
  {
    var c := Combinations(Range(24), k)[i];
    assert c in Combinations(Range(24), k);
    InCombinationsOfAll(k, c);
    ListRoundTrip(c);
    CardsBelow24(c);
  }

  /** Table `k` holds exactly the masks below `2**24` with `k` bits. */
  lemma InTable(k: nat, mask: nat)
    ensures mask in Table(k) <==> mask < Pow2(24) && NumOnes(mask) == k
  {
    if mask in Table(k) {
      InTableSound(k, mask);
    }
    if mask < Pow2(24) && NumOnes(mask) == k {
      InTableComplete(k, mask);
    }
  }

  lemma InTableSound(k: nat, mask: nat)
    requires mask in Table(k)
    ensures mask < Pow2(24) && NumOnes(mask) == k
  {
    var t := Table(k);
    var i :| 0 <= i < |t| && t[i] == mask;
    TableEntry(k, i);
  }

  lemma InTableComplete(k: nat, mask: nat)
    requires mask < Pow2(24) && NumOnes(mask) == k
    ensures mask in Table(k)
  {
    var hand := BinaryToList(mask);
    HandOfMask(mask);
    InCombinationsOfAll(k, hand);
    var i := TablePosition(k, hand);
    MaskRoundTrip(mask);
    assert Table(k)[i] == mask;
  }

  /** A combination's mask stands in the table at the combination's position. */
  lemma TablePosition(k: nat, hand: seq<nat>) returns (i: nat)
    requires hand in Combinations(Range(24), k)
    ensures i < |Table(k)| && Table(k)[i] == ListToBinary(hand)
  {
    var hands := Combinations(Range(24), k);
    i :| 0 <= i < |hands| && hands[i] == hand;
  }

  /** No mask appears twice in a table. */
  lemma TableNoDup(k: nat)
    ensures NoDup(Table(k))
  {
    var t := Table(k);
    var hands := Combinations(Range(24), k);
    StrictlyIncreasingNoDup(Range(24));
    CombinationsNoDup(Range(24), k);
    forall i, j | 0 <= i < j < |t| ensures t[i] != t[j] {
      TableEntry(k, i);
      TableEntry(k, j);
      assert hands[i] != hands[j];
    }
  }

  /** The tables have `C(24, k)` entries. */
  lemma TableSize(k: nat)
    ensures |Table(k)| == Binom(24, k)
  {
    CombinationsCount(Range(24), k);
  }

  /** Three lists of distinct masks of 5, 4 and 3 bits. */
  ghost predicate Layered(t5: seq<nat>, t4: seq<nat>, t3: seq<nat>) {
    NoDup(t5) && NoDup(t4) && NoDup(t3) &&
    (forall x :: x in t5 ==> NumOnes(x) == 5) &&
    (forall x :: x in t4 ==> NumOnes(x) == 4) &&
    (forall x :: x in t3 ==> NumOnes(x) == 3)
  }

  /** The facts `IndexSound` asks of one table. */
  lemma TableExact(k: nat)
    ensures Exact(Table(k), k)
  {
    TableNoDup(k);
    forall m ensures m in Table(k) <==> HandMask(m, k) {
      InTable(k, m);
    }
  }

  /** The built tables list each hand of 3, 4 and 5 cards once. */
  lemma BuildIndexSound()
    ensures IndexSound(BuildIndex())
  {
    TableExact(5);
    TableExact(4);
    TableExact(3);
  }

  /** Sound tables are layered by bit count. */
  lemma IndexLayered(ix: HandIndex)
    requires IndexSound(ix)
    ensures Layered(ix.t5, ix.t4, ix.t3)
  {
    assert forall x :: x in ix.t5 ==> HandMask(x, 5);
    assert forall x :: x in ix.t4 ==> HandMask(x, 4);
    assert forall x :: x in ix.t3 ==> HandMask(x, 3);
  }

  /** Over layered lists the index of entry `j` of the concatenation is `j`. */
  lemma LookupInverts(t5: seq<nat>, t4: seq<nat>, t3: seq<nat>, j: nat)
    requires Layered(t5, t4, t3) && j < |t5 + t4 + t3|
    ensures Lookup(t5, t4, t3, (t5 + t4 + t3)[j]) == Some(j)
  {
    var mask := (t5 + t4 + t3)[j];
    if j < |t5| {
      assert mask == t5[j] && mask in t5;
      IndexInSpec(t3, mask);
      IndexInSpec(t4, mask);
      IndexInNoDup(t5, j);
    } else if j < |t5| + |t4| {
      assert mask == t4[j - |t5|] && mask in t4;
      IndexInSpec(t3, mask);
      IndexInNoDup(t4, j - |t5|);
    } else {
      assert mask == t3[j - |t5| - |t4|];
      IndexInNoDup(t3, j - |t5| - |t4|);
    }
  }

  /** Over layered lists a mask has an index exactly when it is listed;
      the index points back at it, in the block of its bit count. */
  lemma LookupSpec(t5: seq<nat>, t4: seq<nat>, t3: seq<nat>, mask: nat)
    requires Layered(t5, t4, t3)
    ensures Lookup(t5, t4, t3, mask).Some? <==> mask in t5 || mask in t4 || mask in t3
    ensures Lookup(t5, t4, t3, mask).Some? ==>
      var j := Lookup(t5, t4, t3, mask).value;
      j < |t5 + t4 + t3| && (t5 + t4 + t3)[j] == mask &&
      (NumOnes(mask) == 5 <==> j < |t5|) &&
      (NumOnes(mask) == 4 <==> |t5| <= j < |t5| + |t4|) &&
      (NumOnes(mask) == 3 <==> |t5| + |t4| <= j)
  {
    IndexInSpec(t3, mask);
    IndexInSpec(t4, mask);
    IndexInSpec(t5, mask);
    if Lookup(t5, t4, t3, mask).Some? {
      var j := Lookup(t5, t4, t3, mask).value;
      var all := t5 + t4 + t3;
      if j < |t5| {
        assert all[j] == t5[j] && t5[j] in t5;
      } else if j < |t5| + |t4| {
        assert all[j] == t4[j - |t5|] && t4[j - |t5|] in t4;
      } else {
        assert all[j] == t3[j - |t5| - |t4|] && t3[j - |t5| - |t4|] in t3;
      }
    }
  }

  /** `binary_to_binom` numbers every table entry by its position in the
      three tables taken together: 5-card hands first, then the 4-card and
      the 3-card hands. */
  lemma BinomIndexInverts(ix: HandIndex, j: nat)
    requires IndexSound(ix) && j < |AllTables(ix)|
    ensures BinomIndex(ix, AllTables(ix)[j]) == Some(j)
  {
    LookupInverts(ix.t5, ix.t4, ix.t3, j);
  }

  /** The membership facts of sound tables for one mask. */
  lemma InIndex(ix: HandIndex, mask: nat)
    requires IndexSound(ix)
    ensures mask in ix.t5 <==> mask < Pow2(24) && NumOnes(mask) == 5
    ensures mask in ix.t4 <==> mask < Pow2(24) && NumOnes(mask) == 4
    ensures mask in ix.t3 <==> mask < Pow2(24) && NumOnes(mask) == 3
  {
    assert mask in ix.t5 <==> HandMask(mask, 5);
    assert mask in ix.t4 <==> HandMask(mask, 4);
    assert mask in ix.t3 <==> HandMask(mask, 3);
  }

  /** `binary_to_binom` knows exactly the masks of 3 to 5 cards below 24. */
  lemma BinomIndexDomain(ix: HandIndex, mask: nat)
    requires IndexSound(ix)
    ensures BinomIndex(ix, mask).Some? <==> mask < Pow2(24) && 3 <= NumOnes(mask) <= 5
  {
    InIndex(ix, mask);
    LookupSpec(ix.t5, ix.t4, ix.t3, mask);
  }

  /** `binary_to_binom` knows exactly the masks of 3 to 5 cards below 24;
      the index it gives points back at the mask, and its block tells the
      number of cards: the 5-card block first, then the 4-card and the
      3-card blocks (of `C(24, k)` entries each for the built tables, by
      `TableSize`). */
  lemma BinomIndexSpec(ix: HandIndex, mask: nat)
    requires IndexSound(ix)
    ensures BinomIndex(ix, mask).Some? <==> mask < Pow2(24) && 3 <= NumOnes(mask) <= 5
    ensures BinomIndex(ix, mask).Some? ==>
      var j := BinomIndex(ix, mask).value;
      var n5, n4 := |ix.t5|, |ix.t4|;
      j < |AllTables(ix)| && AllTables(ix)[j] == mask &&
      (NumOnes(mask) == 5 <==> j < n5) &&
      (NumOnes(mask) == 4 <==> n5 <= j < n5 + n4) &&
      (NumOnes(mask) == 3 <==> n5 + n4 <= j)
  {
    InIndex(ix, mask);
    LookupSpec(ix.t5, ix.t4, ix.t3, mask);
  }

  // ------------------------------------------------------ dp5 / dp4 / dp3

  /** A mask is a key of `combinations_cache` exactly when it has 3 to 5
      cards below 24. */
  lemma KeyOfMask(mask: nat)
    ensures IsTableKey(BinaryToList(mask)) <==> mask < Pow2(24) && 3 <= NumOnes(mask) <= 5
  {
    HandOfMask(mask);
  }

  /** `hand_binary_to_score_change(hand_binary)`: the best combination score
      divided by 10, or 0 without a combination; `None` for the `KeyError`. */
  function HandScoreChange(table: ComboTable, mask: nat): Option<nat> {
    var hand := BinaryToList(mask);
    if hand !in table then None
    else
      var combos := table[hand];
      if |combos| > 0 then Some(MaxScore(combos) / 10) else Some(0)
  }

  /** Against the built `combinations_cache`, the score change is defined
      exactly for the masks of 3 to 5 cards below 24, is `best_move_score`
      in tens, lies in 0 .. 10 and is 0 exactly when the hand has no deal. */
  lemma HandScoreChangeSpec(table: ComboTable, mask: nat)
    requires TableSound(table) && TableKeyed(table)
    ensures HandScoreChange(table, mask).Some? <==> mask < Pow2(24) && 3 <= NumOnes(mask) <= 5
    ensures HandScoreChange(table, mask).Some? ==>
      var v := HandScoreChange(table, mask).value;
      v * 10 == BestMoveScore(mask) && v <= 10 &&
      (v == 0 <==> forall m :: m in MovesFromHand(mask) ==> m.action != Deal)
  {
    KeyOfMask(mask);
    var hand := BinaryToList(mask);
    if hand in table {
      var combos := table[hand];
      assert combos == CardCombinations(hand);
      BestMoveScoreRange(mask);
      assert BestMoveScore(mask) == MaxScore(combos);
    }
  }

  /** The score change `get` reads for hand index `j`: `dp5[j]`, else
      `dp4[j - len5]`, else `dp3[j - len5 - len4]`; `None` past the end. The
      `dp` lists are modelled entry by entry. */
  function ScoreChangeAt(ix: HandIndex, table: ComboTable, j: nat): Option<nat> {
    match Pick(ix.t5, ix.t4, ix.t3, j)
    case None => None
    case Some(mask) => HandScoreChange(table, mask)
  }

  /** Entry `j` of three lists read one after the other, `None` past the end. */
  function Pick(t5: seq<nat>, t4: seq<nat>, t3: seq<nat>, j: nat): Option<nat> {
    if j < |t5| then Some(t5[j])
    else if j - |t5| < |t4| then Some(t4[j - |t5|])
    else if j - |t5| - |t4| < |t3| then Some(t3[j - |t5| - |t4|])
    else None
  }

  /** Over layered lists, reading at the index of a mask gives the mask back. */
  lemma PickLookup(t5: seq<nat>, t4: seq<nat>, t3: seq<nat>, mask: nat)
    requires Layered(t5, t4, t3) && Lookup(t5, t4, t3, mask).Some?
    ensures Pick(t5, t4, t3, Lookup(t5, t4, t3, mask).value) == Some(mask)
  {
    LookupSpec(t5, t4, t3, mask);
    var j := Lookup(t5, t4, t3, mask).value;
    var all := t5 + t4 + t3;
    if j < |t5| {
      assert all[j] == t5[j];
    } else if j - |t5| < |t4| {
      assert all[j] == t4[j - |t5|];
    } else {
      assert all[j] == t3[j - |t5| - |t4|];
    }
  }

  /** The index arithmetic of `get` finds the score change of the very hand
      that was looked up. */
  lemma ScoreChangeAtIndex(ix: HandIndex, table: ComboTable, mask: nat)
    requires IndexSound(ix) && BinomIndex(ix, mask).Some?
    ensures ScoreChangeAt(ix, table, BinomIndex(ix, mask).value) == HandScoreChange(table, mask)
  {
    PickLookup(ix.t5, ix.t4, ix.t3, mask);
  }

  // ------------------------------------------------------------ moves_cache

  /** `hand_binary_to_list_of_moves(hand_binary)`; `None` for the `KeyError`. */
  function HandMoves(table: ComboTable, mask: nat): Option<seq<Move>> {
    var hand := BinaryToList(mask);
    if hand !in table then None
    else Some(RemoveMoves(hand) + DealMoves(table[hand]))
  }

  /** Against the built `combinations_cache` the move list is defined exactly
      for the masks of 3 to 5 cards below 24 and is then `moves_from_hand`:
      one removal per card, then one deal per scoring combination. */
  lemma HandMovesSpec(table: ComboTable, mask: nat)
    requires TableSound(table) && TableKeyed(table)
    ensures HandMoves(table, mask).Some? <==> mask < Pow2(24) && 3 <= NumOnes(mask) <= 5
    ensures HandMoves(table, mask).Some? ==> HandMoves(table, mask).value == MovesFromHand(mask)
  {
    KeyOfMask(mask);
  }

  /** `moves_dp(hand)`: the cached move list of 5-card hand index `hand`;
      `None` where its `assert hand < len(moves_cache)` fails. */
  function MovesDp(ix: HandIndex, table: ComboTable, idx: nat): Option<seq<Move>> {
    if idx < |ix.t5| then HandMoves(table, ix.t5[idx]) else None
  }

  /** `moves_dp` accepts exactly the 5-card hand indices, and gives the
      moves of the hand with that index. */
  lemma MovesDpSpec(ix: HandIndex, table: ComboTable, idx: nat)
    requires IndexSound(ix) && TableSound(table) && TableKeyed(table)
    ensures MovesDp(ix, table, idx).Some? <==> idx < |ix.t5|
    ensures MovesDp(ix, table, idx).Some? ==>
      NumOnes(AllTables(ix)[idx]) == 5 &&
      MovesDp(ix, table, idx).value == MovesFromHand(AllTables(ix)[idx])
  {
    if idx < |ix.t5| {
      var mask := ix.t5[idx];
      assert mask in ix.t5;
      InIndex(ix, mask);
      HandMovesSpec(table, mask);
      assert AllTables(ix)[idx] == mask;
    }
  }
}

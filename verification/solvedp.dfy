/** The exact solver `solve_game_dp` (mu_roomy.py) on masks: the successor
    states of a move (`outcomes_dp`), the rules by which `get` ends a search
    without looking at moves, and its move-selection rule. States are
    `Symmetry.State(score, hand, deck)` with card masks. */
module SolveDp {
  import opened Wrappers
  import opened Seqs
  import opened Bits
  import opened CardSets
  import opened Scoring
  import opened GameCalc
  import opened Roomy
  import opened Symmetry

  // ------------------------------------------------------------ outcomes_dp

  /** `min(len(deck_list), 3)`: how many cards a deal draws. */
  function DrawSize(n: nat): nat {
    if n < 3 then n else 3
  }

  /** How many cards each outcome of the move draws from a deck of `n` cards. */
  function Drawn(action: Action, n: nat): nat {
    if action == Remove then 1 else DrawSize(n)
  }

  /** The masks of the cards each outcome draws, in the order `outcomes_dp`
      lists them: for a remove, one card per deck card from the lowest up;
      otherwise one mask per `itertools.combinations(deck_list, k)` entry. */
  function Draws(action: Action, deck: nat): seq<nat> {
    var cards := BinaryToList(deck);
    if action == Remove then
      seq(|cards|, i requires 0 <= i < |cards| => Pow2(cards[i]))
    else
      Masks(Combinations(cards, DrawSize(|cards|)))
  }

  /** The mask of each card list. */
  function Masks(ls: seq<seq<nat>>): seq<nat> {
    seq(|ls|, i requires 0 <= i < |ls| => ListToBinary(ls[i]))
  }

  /** The state after putting the drawn cards onto what is left of the hand. */
  function Draw(score: nat, partial: nat, deck: nat, drawn: nat): State {
    State(score, Or(partial, drawn), Xor(deck, drawn))
  }

  /** `outcomes_dp(state, move)`; `None` where `assert state.deck` fails.
      Every action other than a remove is handled as a deal. */
  function OutcomesDp(s: State, m: Move): Option<seq<State>> {
    if s.deck == 0 then None
    else
      var draws := Draws(m.action, s.deck);
      var newScore := s.score + m.scoreChange;
      var partial := Xor(s.hand, m.param);
      Some(seq(|draws|, i requires 0 <= i < |draws| => Draw(newScore, partial, s.deck, draws[i])))
  }

  /** A mask is empty exactly when it has no card. */
  lemma NumOnesZero(n: nat)
    ensures NumOnes(n) == 0 <==> n == 0
  {
    if n != 0 {
      HasSomeBit(n);
      var i: nat :| Bit(n, i);
      assert i in BinaryToList(n);
    }
  }

  /** A one-card mask is the bit of its card. */
  lemma SingleBit(d: nat)
    requires NumOnes(d) == 1
    ensures var c := BinaryToList(d)[0]; Bit(d, c) && d == Pow2(c)
  {
    var t := BinaryToList(d);
    var c := t[0];
    assert c in t;
    Pow2Bits(c);
    forall i: nat ensures Bit(d, i) == Bit(Pow2(c), i) {
      if Bit(d, i) {
        assert i in t;
        var j :| 0 <= j < |t| && t[j] == i;
      }
    }
    Extensionality(d, Pow2(c));
  }

  lemma {:induction false} BinomPositive(n: nat, k: nat)
    requires k <= n
    ensures Binom(n, k) > 0
    decreases n
  {
    if k > 0 {
      BinomPositive(n - 1, k - 1);
    }
  }

  /** A remove draws each deck card once: the drawn masks are exactly the
      one-card subsets of the deck. */
  lemma DrawsRemove(deck: nat)
    ensures var ds := Draws(Remove, deck);
      |ds| == NumOnes(deck) && NoDup(ds) &&
      forall d :: d in ds <==> SubsetOf(d, deck) && NumOnes(d) == 1
  {
    var cards := BinaryToList(deck);
    var ds := Draws(Remove, deck);
    forall d | d in ds ensures SubsetOf(d, deck) && NumOnes(d) == 1 {
      var i :| 0 <= i < |ds| && ds[i] == d;
      assert cards[i] in cards;
      Pow2Bits(cards[i]);
      Pow2NumOnes(cards[i]);
    }
    forall d | SubsetOf(d, deck) && NumOnes(d) == 1 ensures d in ds {
      SingleBit(d);
      var c := BinaryToList(d)[0];
      assert c in cards;
      var j :| 0 <= j < |cards| && cards[j] == c;
      assert ds[j] == d;
    }
    StrictlyIncreasingNoDup(cards);
    forall i, j | 0 <= i < j < |ds| ensures ds[i] != ds[j] {
      Pow2Bits(cards[i]);
      assert !Bit(Pow2(cards[i]), cards[j]);
      Pow2Bits(cards[j]);
    }
  }

  /** A deal draws `min(n, 3)` deck cards in every possible way, each way once. */
  lemma DrawsDeal(action: Action, deck: nat)
    requires action != Remove
    ensures var ds := Draws(action, deck);
      var n := NumOnes(deck);
      |ds| == Binom(n, DrawSize(n)) && NoDup(ds) &&
      forall d :: d in ds <==> SubsetOf(d, deck) && NumOnes(d) == DrawSize(n)
  {
    var cards := BinaryToList(deck);
    var k := DrawSize(|cards|);
    CombinationsCount(cards, k);
    SubsetMasksSound(deck, k);
    SubsetMasksComplete(deck, k);
    SubsetMasksNoDup(deck, k);
  }

  /** Each `k`-combination of a deck's cards is a `k`-card subset of it. */
  lemma SubsetMasksSound(deck: nat, k: nat)
    ensures forall d :: d in Masks(Combinations(BinaryToList(deck), k)) ==>
      SubsetOf(d, deck) && NumOnes(d) == k
  {
    var cards := BinaryToList(deck);
    var combos := Combinations(cards, k);
    var ds := Masks(combos);
    CombinationsSound(cards, k);
    forall d | d in ds ensures SubsetOf(d, deck) && NumOnes(d) == k {
      var i :| 0 <= i < |ds| && ds[i] == d;
      var c := combos[i];
      assert c in combos;
      ListRoundTrip(c);
    }
  }

  /** Each `k`-card subset of a deck is the mask of one of its `k`-combinations. */
  lemma SubsetMasksComplete(deck: nat, k: nat)
    ensures forall d :: SubsetOf(d, deck) && NumOnes(d) == k ==>
      d in Masks(Combinations(BinaryToList(deck), k))
  {
    var cards := BinaryToList(deck);
    var combos := Combinations(cards, k);
    var ds := Masks(combos);
    forall d | SubsetOf(d, deck) && NumOnes(d) == k ensures d in ds {
      var t := BinaryToList(d);
      forall j | 0 <= j < |t| ensures t[j] in cards {
        assert t[j] in t;
      }
      CombinationsComplete(cards, k, t);
      var j :| 0 <= j < |combos| && combos[j] == t;
      MaskRoundTrip(d);
      assert ds[j] == d;
    }
  }

  /** Different `k`-combinations of a deck have different masks. */
  lemma SubsetMasksNoDup(deck: nat, k: nat)
    ensures NoDup(Masks(Combinations(BinaryToList(deck), k)))
  {
    var cards := BinaryToList(deck);
    var combos := Combinations(cards, k);
    var ds := Masks(combos);
    StrictlyIncreasingNoDup(cards);
    CombinationsSound(cards, k);
    CombinationsNoDup(cards, k);
    forall i, j | 0 <= i < j < |ds| ensures ds[i] != ds[j] {
      assert combos[i] in combos && combos[j] in combos;
      if ds[i] == ds[j] {
        ListToBinaryInjective(combos[i], combos[j]);
      }
    }
  }

  /** The drawn masks of either kind of move. */
  lemma DrawsSpec(action: Action, deck: nat)
    ensures var ds := Draws(action, deck);
      var n := NumOnes(deck);
      |ds| == (if action == Remove then n else Binom(n, DrawSize(n))) && NoDup(ds) &&
      forall d :: d in ds <==> SubsetOf(d, deck) && NumOnes(d) == Drawn(action, n)
  {
    if action == Remove {
      DrawsRemove(deck);
    } else {
      DrawsDeal(action, deck);
    }
  }

  /** `outcomes_dp` runs exactly on a non-empty deck and then has at least
      one outcome (`assert num_outcomes > 0`): `n` for a remove from an
      `n`-card deck, `C(n, min(n, 3))` otherwise. Its outcomes are exactly
      the states in which the move's cards have left the hand, `k` deck
      cards have joined it, and the score has grown by the move's change. */
  lemma OutcomesDpSpec(s: State, m: Move)
    ensures OutcomesDp(s, m).Some? <==> s.deck != 0
    ensures OutcomesDp(s, m).Some? ==>
      var r := OutcomesDp(s, m).value;
      var n := NumOnes(s.deck);
      var k := Drawn(m.action, n);
      |r| == (if m.action == Remove then n else Binom(n, DrawSize(n))) && |r| > 0 &&
      forall o :: o in r <==>
        o.score == s.score + m.scoreChange &&
        exists d :: (SubsetOf(d, s.deck) && NumOnes(d) == k &&
                     o.hand == Or(Xor(s.hand, m.param), d) && o.deck == Xor(s.deck, d))
  {
    if s.deck != 0 {
      var r := OutcomesDp(s, m).value;
      var ds := Draws(m.action, s.deck);
      var n := NumOnes(s.deck);
      var k := Drawn(m.action, n);
      var partial := Xor(s.hand, m.param);
      DrawsSpec(m.action, s.deck);
      NumOnesZero(s.deck);
      if m.action != Remove {
        BinomPositive(n, DrawSize(n));
      }
      DrawnStates(s.score + m.scoreChange, partial, s.deck, k, ds, r);
    }
  }

  /** The states reached by drawing each of `ds`, when `ds` lists exactly
      the `k`-card parts of the deck, are exactly the states that drew some
      `k` cards of the deck. */
  lemma DrawnStates(score: nat, partial: nat, deck: nat, k: nat, ds: seq<nat>, r: seq<State>)
    requires |r| == |ds| && forall i :: 0 <= i < |r| ==> r[i] == Draw(score, partial, deck, ds[i])
    requires forall d :: d in ds <==> SubsetOf(d, deck) && NumOnes(d) == k
    ensures forall o :: o in r <==>
      o.score == score &&
      exists d :: (SubsetOf(d, deck) && NumOnes(d) == k &&
                   o.hand == Or(partial, d) && o.deck == Xor(deck, d))
  {
    forall o | o in r
      ensures o.score == score
      ensures exists d :: (SubsetOf(d, deck) && NumOnes(d) == k &&
                           o.hand == Or(partial, d) && o.deck == Xor(deck, d))
    {
      var i := Position(o, r);
      assert ds[i] in ds;
    }
    forall o: State | o.score == score &&
               exists d :: (SubsetOf(d, deck) && NumOnes(d) == k &&
                            o.hand == Or(partial, d) && o.deck == Xor(deck, d))
      ensures o in r
    {
      var d :| SubsetOf(d, deck) && NumOnes(d) == k &&
               o.hand == Or(partial, d) && o.deck == Xor(deck, d);
      var i := Position(d, ds);
      assert r[i] == o;
    }
  }

  /** The cards of a mask below `2**k` stay below `2**k` in any part of it. */
  lemma SubsetBelow(a: nat, b: nat, k: nat)
    requires SubsetOf(a, b) && b < Pow2(k)
    ensures a < Pow2(k)
  {
    BelowIffNoHighBits(a, k);
    BelowIffNoHighBits(b, k);
    forall i: nat | k <= i ensures !Bit(a, i) {
      assert !Bit(b, i);
    }
  }

  /** The union of two masks below `2**k` is below `2**k`. */
  lemma OrBelow(a: nat, b: nat, k: nat)
    requires a < Pow2(k) && b < Pow2(k)
    ensures Or(a, b) < Pow2(k)
  {
    BelowIffNoHighBits(a, k);
    BelowIffNoHighBits(b, k);
    BelowIffNoHighBits(Or(a, b), k);
  }

  /** One outcome keeps the cards: the new hand and deck are disjoint, hold
      together the old cards less the played ones, and the counts move by
      the played and the drawn cards. */
  lemma DrawConserves(hand: nat, deck: nat, param: nat, d: nat)
    requires Disjoint(hand, deck) && SubsetOf(param, hand) && SubsetOf(d, deck)
    ensures var h := Or(Xor(hand, param), d);
      var k := Xor(deck, d);
      Disjoint(h, k) && Or(h, k) == Xor(Or(hand, deck), param) &&
      SubsetOf(h, Or(hand, deck)) && SubsetOf(k, deck) &&
      NumOnes(h) == NumOnes(hand) - NumOnes(param) + NumOnes(d) &&
      NumOnes(k) == NumOnes(deck) - NumOnes(d)
  {
    var partial := Xor(hand, param);
    var h := Or(partial, d);
    var k := Xor(deck, d);
    Extensionality(Or(h, k), Xor(Or(hand, deck), param));
    NumOnesXorSubset(hand, param);
    assert Disjoint(partial, d);
    NumOnesDisjointOr(partial, d);
    NumOnesXorSubset(deck, d);
  }

  /** Every outcome of a move whose cards are in the hand keeps the hand and
      the deck disjoint, holds exactly the cards of the state less the
      played ones, draws `k` cards and stays within the 24 cards. */
  lemma OutcomesDpConserve(s: State, m: Move)
    requires s.deck != 0 && Disjoint(s.hand, s.deck) && SubsetOf(m.param, s.hand)
    ensures forall o :: o in OutcomesDp(s, m).value ==> Conserves(s, m, Drawn(m.action, NumOnes(s.deck)), o)
  {
    DrawsSpec(m.action, s.deck);
    DrawsConserve(s, m, Drawn(m.action, NumOnes(s.deck)), Draws(m.action, s.deck));
  }

  /** Drawing any of `ds`, each `k` cards of the deck, keeps the cards. */
  lemma DrawsConserve(s: State, m: Move, k: nat, ds: seq<nat>)
    requires Disjoint(s.hand, s.deck) && SubsetOf(m.param, s.hand)
    requires forall d :: d in ds ==> SubsetOf(d, s.deck) && NumOnes(d) == k
    ensures var partial := Xor(s.hand, m.param);
      forall i :: 0 <= i < |ds| ==> Conserves(s, m, k, Draw(s.score + m.scoreChange, partial, s.deck, ds[i]))
  {
    forall i | 0 <= i < |ds|
      ensures Conserves(s, m, k, Draw(s.score + m.scoreChange, Xor(s.hand, m.param), s.deck, ds[i]))
    {
      assert ds[i] in ds;
      DrawOutcome(s, m, k, ds[i]);
    }
  }

  /** Outcome `o` of move `m` in `s` keeps the cards, having drawn `k`. */
  ghost predicate Conserves(s: State, m: Move, k: nat, o: State) {
    Disjoint(o.hand, o.deck) &&
    Or(o.hand, o.deck) == Xor(Or(s.hand, s.deck), m.param) &&
    NumOnes(o.hand) == NumOnes(s.hand) - NumOnes(m.param) + k &&
    NumOnes(o.deck) == NumOnes(s.deck) - k &&
    (s.hand < Pow2(24) && s.deck < Pow2(24) ==> o.hand < Pow2(24) && o.deck < Pow2(24))
  }

  lemma DrawOutcome(s: State, m: Move, k: nat, d: nat)
    requires Disjoint(s.hand, s.deck) && SubsetOf(m.param, s.hand)
    requires SubsetOf(d, s.deck) && NumOnes(d) == k
    ensures Conserves(s, m, k, Draw(s.score + m.scoreChange, Xor(s.hand, m.param), s.deck, d))
  {
    var o := Draw(s.score + m.scoreChange, Xor(s.hand, m.param), s.deck, d);
    DrawConserves(s.hand, s.deck, m.param, d);
    if s.hand < Pow2(24) && s.deck < Pow2(24) {
      OrBelow(s.hand, s.deck, 24);
      SubsetBelow(o.hand, Or(s.hand, s.deck), 24);
      SubsetBelow(o.deck, s.deck, 24);
    }
  }

  /** A move of `moves_from_hand` plays cards of the hand: one for no
      points, or three for 10 to 100. */
  lemma MoveShape(hand: nat, m: Move)
    requires m in MovesFromHand(hand)
    ensures SubsetOf(m.param, hand)
    ensures m.action == Remove ==> NumOnes(m.param) == 1 && m.scoreChange == 0
    ensures m.action != Remove ==>
      m.action == Deal && NumOnes(m.param) == 3 && 10 <= m.scoreChange <= 100
  {
    var r := MovesFromHand(hand);
    var i :| 0 <= i < |r| && r[i] == m;
    MovesFromHandRemovals(hand);
    MovesFromHandDeals(hand);
  }

  /** From a five-card hand every outcome of a legal move holds 3 to 5
      cards, and five whenever cards are left in the deck: the search only
      ever meets five-card hands, which `moves_dp` asks for. */
  lemma SuccessorHands(s: State, m: Move)
    requires s.deck != 0 && NumOnes(s.hand) == 5 && Disjoint(s.hand, s.deck)
    requires m in MovesFromHand(s.hand)
    ensures forall o :: o in OutcomesDp(s, m).value ==>
      3 <= NumOnes(o.hand) <= 5 && (o.deck != 0 ==> NumOnes(o.hand) == 5)
  {
    MoveShape(s.hand, m);
    OutcomesDpConserve(s, m);
    NumOnesZero(s.deck);
    forall o | o in OutcomesDp(s, m).value
      ensures 3 <= NumOnes(o.hand) <= 5 && (o.deck != 0 ==> NumOnes(o.hand) == 5)
    {
      NumOnesZero(o.deck);
    }
  }

  // --------------------------------------------------------------- get

  /** What `get` decides before any recursion: a final weight (returned
      with the `whatever` move), or a search over the given moves. */
  datatype Verdict = Final(weight: real) | Search(moves: seq<Move>)

  /** The branches of `get(state)`. `binary_to_binom[hand]` is looked up
      first, so a hand without an index is a `KeyError` (`None`) even when
      the score has reached 40. With an empty deck and a score of 30 or more
      the game is won when the hand's score change (from `dp5`, `dp4` or
      `dp3`) lifts the score to 40. Otherwise the search asks `moves_dp`,
      whose assertion (`None`) admits only five-card hands. */
  function Terminal(ix: HandIndex, table: ComboTable, s: State): Option<Verdict> {
    match BinomIndex(ix, s.hand)
    case None => None
    case Some(idx) => TerminalAt(ix, table, s, idx)
  }

  /** The branches of `get` once the hand has index `idx`. */
  function TerminalAt(ix: HandIndex, table: ComboTable, s: State, idx: nat): Option<Verdict> {
    if s.score >= 40 then Some(Final(1.0))
    else if s.deck == 0 then
      if s.score < 30 then Some(Final(0.0))
      else
        match ScoreChangeAt(ix, table, idx)
        case None => None
        case Some(change) => Some(Final(if s.score + change >= 40 then 1.0 else 0.0))
    else
      match MovesDp(ix, table, idx)
      case None => None
      case Some(moves) => Some(Search(moves))
  }

  /** Against the built `combinations_cache`, `get` fails exactly on hands
      of the wrong size: not 3 to 5 cards below 24, or not five cards while
      a search is still needed. Otherwise its verdict is the rule of the
      game itself: won at 40, lost with an empty deck below 30, decided by
      the best deal with an empty deck from 30 on, and else a search over
      `moves_from_hand`. */
  lemma TerminalSpec(ix: HandIndex, table: ComboTable, s: State)
    requires IndexSound(ix) && TableSound(table) && TableKeyed(table)
    ensures Terminal(ix, table, s).Some? <==>
      s.hand < Pow2(24) && 3 <= NumOnes(s.hand) <= 5 &&
      (s.score < 40 && s.deck != 0 ==> NumOnes(s.hand) == 5)
    ensures Terminal(ix, table, s).Some? ==>
      var v := Terminal(ix, table, s).value;
      (s.score >= 40 ==> v == Final(1.0)) &&
      (s.score < 30 && s.deck == 0 ==> v == Final(0.0)) &&
      (30 <= s.score < 40 && s.deck == 0 ==>
         v == Final(if s.score + BestMoveScore(s.hand) / 10 >= 40 then 1.0 else 0.0)) &&
      (s.score < 40 && s.deck != 0 ==> v == Search(MovesFromHand(s.hand)))
  {
    BinomIndexDomain(ix, s.hand);
    if BinomIndex(ix, s.hand).Some? {
      if s.score >= 40 {
        TerminalWon(ix, table, s);
      } else if s.deck == 0 && s.score < 30 {
        TerminalLost(ix, table, s);
      } else if s.deck == 0 {
        TerminalCounted(ix, table, s);
      } else {
        TerminalSearch(ix, table, s);
      }
    }
  }

  lemma TerminalWon(ix: HandIndex, table: ComboTable, s: State)
    requires BinomIndex(ix, s.hand).Some? && s.score >= 40
    ensures Terminal(ix, table, s) == Some(Final(1.0))
  {
  }

  lemma TerminalLost(ix: HandIndex, table: ComboTable, s: State)
    requires BinomIndex(ix, s.hand).Some? && s.score < 30 && s.deck == 0
    ensures Terminal(ix, table, s) == Some(Final(0.0))
  {
  }

  /** With an empty deck from 30 points on, `dp` holds the hand's best deal. */
  lemma TerminalCounted(ix: HandIndex, table: ComboTable, s: State)
    requires IndexSound(ix) && TableSound(table) && TableKeyed(table)
    requires BinomIndex(ix, s.hand).Some? && 30 <= s.score < 40 && s.deck == 0
    ensures Terminal(ix, table, s) ==
      Some(Final(if s.score + BestMoveScore(s.hand) / 10 >= 40 then 1.0 else 0.0))
  {
    var idx := BinomIndex(ix, s.hand).value;
    TerminalIndexed(ix, table, s);
    BinomIndexDomain(ix, s.hand);
    ScoreChangeAtIndex(ix, table, s.hand);
    HandScoreChangeSpec(table, s.hand);
    var change := HandScoreChange(table, s.hand).value;
    Tens(change, BestMoveScore(s.hand));
    TerminalAtCounted(ix, table, s, idx, change);
  }

  lemma TerminalIndexed(ix: HandIndex, table: ComboTable, s: State)
    requires BinomIndex(ix, s.hand).Some?
    ensures Terminal(ix, table, s) == TerminalAt(ix, table, s, BinomIndex(ix, s.hand).value)
  {
  }

  lemma TerminalAtCounted(ix: HandIndex, table: ComboTable, s: State, idx: nat, change: nat)
    requires 30 <= s.score < 40 && s.deck == 0
    requires ScoreChangeAt(ix, table, idx) == Some(change)
    ensures TerminalAt(ix, table, s, idx) == Some(Final(if s.score + change >= 40 then 1.0 else 0.0))
  {
  }

  /** With cards in the deck below 40 points, `moves_dp` answers exactly for
      five-card hands, with their `moves_from_hand`. */
  lemma TerminalSearch(ix: HandIndex, table: ComboTable, s: State)
    requires IndexSound(ix) && TableSound(table) && TableKeyed(table)
    requires BinomIndex(ix, s.hand).Some? && s.score < 40 && s.deck != 0
    ensures Terminal(ix, table, s).Some? <==> NumOnes(s.hand) == 5
    ensures Terminal(ix, table, s).Some? ==> Terminal(ix, table, s).value == Search(MovesFromHand(s.hand))
  {
    var idx := BinomIndex(ix, s.hand).value;
    TerminalIndexed(ix, table, s);
    BinomIndexSpec(ix, s.hand);
    MovesDpSpec(ix, table, idx);
    TerminalAtSearch(ix, table, s, idx);
  }

  lemma TerminalAtSearch(ix: HandIndex, table: ComboTable, s: State, idx: nat)
    requires s.score < 40 && s.deck != 0
    ensures TerminalAt(ix, table, s, idx).Some? <==> MovesDp(ix, table, idx).Some?
    ensures TerminalAt(ix, table, s, idx).Some? ==>
      TerminalAt(ix, table, s, idx).value == Search(MovesDp(ix, table, idx).value)
  {
  }

  lemma Tens(v: nat, b: nat)
    requires v * 10 == b
    ensures b / 10 == v
  {
  }

  /** The search never asks `get` about a state it cannot answer: from a
      five-card hand and a disjoint deck within the 24 cards, every outcome
      of every move gets a verdict. */
  lemma SuccessorsAnswered(ix: HandIndex, table: ComboTable, s: State, m: Move)
    requires IndexSound(ix) && TableSound(table) && TableKeyed(table)
    requires s.hand < Pow2(24) && s.deck < Pow2(24) && s.deck != 0
    requires NumOnes(s.hand) == 5 && Disjoint(s.hand, s.deck)
    requires m in MovesFromHand(s.hand)
    ensures forall o :: o in OutcomesDp(s, m).value ==> Terminal(ix, table, o).Some?
  {
    MoveShape(s.hand, m);
    OutcomesDpConserve(s, m);
    SuccessorHands(s, m);
    forall o | o in OutcomesDp(s, m).value ensures Terminal(ix, table, o).Some? {
      TerminalSpec(ix, table, o);
    }
  }

  // ------------------------------------------------- choosing the best move

  /** The `whatever` move `Move(2, None, 0)`; its absent mask is 0. */
  const Whatever := Move(Any, 0, 0)

  /** The selection loop of `get` over moves whose average outcome weights
      are `averages`: from `(0.0, whatever)`, a move replaces the best only
      when its average is strictly greater. */
  function Select(moves: seq<Move>, averages: seq<real>): (real, Move)
    requires |moves| == |averages|
  {
    if |moves| == 0 then (0.0, Whatever)
    else
      var n := |moves| - 1;
      var best := Select(moves[..n], averages[..n]);
      if averages[n] > best.0 then (averages[n], moves[n]) else best
  }

  /** The chosen weight is the largest average, or 0.0 when none is
      positive; the chosen move is then `whatever`, and otherwise the first
      move that reaches the largest average. */
  lemma {:induction false} SelectSpec(moves: seq<Move>, averages: seq<real>)
    requires |moves| == |averages|
    ensures var r := Select(moves, averages);
      r.0 >= 0.0 && (forall i :: 0 <= i < |averages| ==> averages[i] <= r.0) &&
      ((forall i :: 0 <= i < |averages| ==> averages[i] <= 0.0) ==> r == (0.0, Whatever)) &&
      ((exists i :: 0 <= i < |averages| && averages[i] > 0.0) ==>
         exists i :: (0 <= i < |averages| && r == (averages[i], moves[i]) &&
                      forall j :: 0 <= j < i ==> averages[j] < averages[i]))
  {
    if |moves| > 0 {
      var n := |moves| - 1;
      var im, ia := moves[..n], averages[..n];
      SelectSpec(im, ia);
      var best := Select(im, ia);
      assert forall i :: 0 <= i < n ==> ia[i] == averages[i];
      if averages[n] > best.0 {
        forall j | 0 <= j < n ensures averages[j] < averages[n] {
          assert ia[j] <= best.0;
        }
      } else if exists i :: 0 <= i < |averages| && averages[i] > 0.0 {
        var i :| 0 <= i < |averages| && averages[i] > 0.0;
        if i == n {
          assert best.0 >= averages[n] > 0.0;
        }
        assert exists i :: 0 <= i < n && ia[i] > 0.0 by {
          if i < n {
            assert ia[i] > 0.0;
          } else {
            var w :| 0 <= w < n && im[w] == best.1 && best.0 == ia[w];
            assert ia[w] > 0.0;
          }
        }
        var w :| 0 <= w < n && best == (ia[w], im[w]) && forall j :: 0 <= j < w ==> ia[j] < ia[w];
        assert moves[w] == im[w];
      }
    }
  }
}

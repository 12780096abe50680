/** Scoring of three-card combinations and the moves available from a hand
    (utils.py). Cards are numbers: colour `c / 8` (0, 1, 2) and value
    `c % 8` (0 .. 7, the printed values 1 .. 8). */
module Scoring {
  import opened Wrappers
  import opened Seqs
  import opened Bits
  import opened CardSets

  function Values(combo: seq<nat>): (r: seq<nat>)
    ensures |r| == |combo|
    ensures forall i :: 0 <= i < |r| ==> r[i] == Value(combo[i])
  {
    seq(|combo|, i requires 0 <= i < |combo| => Value(combo[i]))
  }

  /** The colour test of `score_combination`: it looks at the first three cards only. */
  predicate SameColour(combo: seq<nat>)
    requires |combo| >= 3
  {
    Colour(combo[0]) == Colour(combo[1]) && Colour(combo[1]) == Colour(combo[2])
  }

  predicate Consecutive(rem: seq<nat>)
    requires |rem| >= 3
  {
    rem[0] + 1 == rem[1] && rem[1] + 1 == rem[2]
  }

  // ------------------------------------------------- score_combination

  /** `score_combination(combo)`: `None` where the source's final
      `assert False` (or an index error on a short combination) fires. */
  function ScoreCombination(combo: seq<nat>): (r: Option<nat>)
    ensures r.Some? ==> |combo| >= 3 && 10 <= r.value <= 100
  {
    if |combo| < 3 then None
    else
      var rem := Sort(Values(combo));
      ValuesBelowEight(combo, rem);
      ScoreSorted(SameColour(combo), rem)
  }

  /** The tests of `score_combination` once the values are sorted into `rem`
      and the colour test has given `same`. */
  function ScoreSorted(same: bool, rem: seq<nat>): (r: Option<nat>)
    requires |rem| >= 3 && rem[2] < 8
    ensures r.Some? ==> 10 <= r.value <= 100
  {
    if same && Consecutive(rem) then Some(rem[0] * 10 + 50)
    else if rem[0] == rem[1] && rem[1] == rem[2] then Some(rem[0] * 10 + 20)
    else if Consecutive(rem) then Some(rem[0] * 10 + 10)
    else None
  }

  /** Every score is a multiple of 10. */
  lemma ScoreTens(combo: seq<nat>)
    ensures ScoreCombination(combo).Some? ==> ScoreCombination(combo).value % 10 == 0
  {
    if |combo| >= 3 {
      var rem := Sort(Values(combo));
      ValuesBelowEight(combo, rem);
      SortedTens(SameColour(combo), rem);
    }
  }

  lemma SortedTens(same: bool, rem: seq<nat>)
    requires |rem| >= 3 && rem[2] < 8
    ensures ScoreSorted(same, rem).Some? ==> ScoreSorted(same, rem).value % 10 == 0
  {
  }

  /** A sorted list with the multiset of the values is their sorted order. */
  lemma SortValuesIs(combo: seq<nat>, w: seq<nat>)
    requires Sorted(w) && multiset(Values(combo)) == multiset(w)
    ensures Sort(Values(combo)) == w
  {
    SortedUnique(Sort(Values(combo)), w);
  }

  lemma ValuesBelowEight(combo: seq<nat>, rem: seq<nat>)
    requires multiset(rem) == multiset(Values(combo))
    ensures forall i :: 0 <= i < |rem| ==> rem[i] < 8
  {
    forall i | 0 <= i < |rem| ensures rem[i] < 8 {
      assert rem[i] in multiset(rem);
      assert rem[i] in Values(combo);
    }
  }

  /** Three cards whose values are `v, v+1, v+2` in some order. */
  predicate IsRun(combo: seq<nat>, v: nat) {
    |combo| == 3 && multiset(Values(combo)) == multiset{v, v + 1, v + 2}
  }

  /** Three cards of value `v`. */
  predicate IsTriple(combo: seq<nat>, v: nat) {
    |combo| == 3 && Values(combo) == [v, v, v]
  }

  /** A run scores `50 + 10v` in one colour and `10 + 10v` otherwise. */
  lemma RunScore(combo: seq<nat>, v: nat)
    requires IsRun(combo, v)
    ensures ScoreCombination(combo) == Some(if SameColour(combo) then v * 10 + 50 else v * 10 + 10)
  {
    assert multiset([v, v + 1, v + 2]) == multiset{v, v + 1, v + 2};
    assert v + 2 in multiset(Values(combo));
    assert v + 2 in Values(combo);
    SortValuesIs(combo, [v, v + 1, v + 2]);
    SortedRunScore(combo, v);
  }

  /** Three of a kind scores `20 + 10v`. */
  lemma TripleScore(combo: seq<nat>, v: nat)
    requires IsTriple(combo, v)
    ensures ScoreCombination(combo) == Some(v * 10 + 20)
  {
    assert Values(combo)[0] == v;
    SortValuesIs(combo, [v, v, v]);
    SortedTripleScore(combo, v);
  }

  lemma SortedRunScore(combo: seq<nat>, v: nat)
    requires |combo| >= 3 && v + 2 < 8 && Sort(Values(combo)) == [v, v + 1, v + 2]
    ensures ScoreCombination(combo) == Some(if SameColour(combo) then v * 10 + 50 else v * 10 + 10)
  {
    var same := SameColour(combo);
    assert ScoreCombination(combo) == ScoreSorted(same, [v, v + 1, v + 2]);
    RunSorted(same, v);
  }

  lemma RunSorted(same: bool, v: nat)
    requires v + 2 < 8
    ensures ScoreSorted(same, [v, v + 1, v + 2]) == Some(if same then v * 10 + 50 else v * 10 + 10)
  {
  }

  lemma SortedTripleScore(combo: seq<nat>, v: nat)
    requires |combo| >= 3 && v < 8 && Sort(Values(combo)) == [v, v, v]
    ensures ScoreCombination(combo) == Some(v * 10 + 20)
  {
    var same := SameColour(combo);
    assert ScoreCombination(combo) == ScoreSorted(same, [v, v, v]);
    TripleSorted(same, v);
  }

  lemma TripleSorted(same: bool, v: nat)
    requires v < 8
    ensures ScoreSorted(same, [v, v, v]) == Some(v * 10 + 20)
  {
    assert !Consecutive([v, v, v]);
  }

  /** The score decided by the sorted values. */
  lemma SortedScore(combo: seq<nat>, w: seq<nat>)
    requires |combo| >= 3 && |w| == 3 && w[2] < 8 && Sort(Values(combo)) == w
    ensures ScoreCombination(combo) == ScoreSorted(SameColour(combo), w)
  {
  }

  /** The sorted values of three cards list their multiset. */
  lemma SortedThree(combo: seq<nat>)
    requires |combo| == 3
    ensures var w := Sort(Values(combo));
      |w| == 3 && w[2] < 8 && w[0] <= w[1] <= w[2] &&
      multiset(Values(combo)) == multiset{w[0], w[1], w[2]}
  {
    var w := Sort(Values(combo));
    ValuesBelowEight(combo, w);
    assert w == [w[0], w[1], w[2]];
    assert multiset(w) == multiset{w[0], w[1], w[2]};
  }

  /** Nothing but runs and triples scores. */
  lemma ScoredIsRunOrTriple(combo: seq<nat>)
    requires |combo| == 3 && ScoreCombination(combo).Some?
    ensures exists v :: IsRun(combo, v) || IsTriple(combo, v)
  {
    var w := Sort(Values(combo));
    SortedThree(combo);
    SortedScore(combo, w);
    ScoredShape(combo, w);
  }

  lemma ScoredShape(combo: seq<nat>, w: seq<nat>)
    requires |combo| == 3 && |w| == 3 && w[2] < 8
    requires multiset(Values(combo)) == multiset{w[0], w[1], w[2]}
    requires ScoreSorted(SameColour(combo), w).Some?
    ensures exists v :: IsRun(combo, v) || IsTriple(combo, v)
  {
    ScoreSortedShape(SameColour(combo), w);
    var v := w[0];
    if w[1] == v && w[2] == v {
      TripleOfValues(combo, v);
    } else {
      RunOfValues(combo, v);
    }
  }

  lemma TripleOfValues(combo: seq<nat>, v: nat)
    requires |combo| == 3 && multiset(Values(combo)) == multiset{v, v, v}
    ensures IsTriple(combo, v)
  {
    AllEqual(Values(combo), v);
  }

  lemma RunOfValues(combo: seq<nat>, v: nat)
    requires |combo| == 3 && multiset(Values(combo)) == multiset{v, v + 1, v + 2}
    ensures IsRun(combo, v)
  {
  }

  /** Only sorted values `v, v+1, v+2` or `v, v, v` score. */
  lemma ScoreSortedShape(same: bool, w: seq<nat>)
    requires |w| == 3 && w[2] < 8 && ScoreSorted(same, w).Some?
    ensures (w[0] == w[1] && w[1] == w[2]) || (w[1] == w[0] + 1 && w[2] == w[0] + 2)
  {
  }

  /** Three values whose multiset is `{v, v, v}` are `[v, v, v]`. */
  lemma AllEqual(vs: seq<nat>, v: nat)
    requires |vs| == 3 && multiset(vs) == multiset{v, v, v}
    ensures vs == [v, v, v]
  {
    forall i | 0 <= i < 3 ensures vs[i] == v {
      assert vs[i] in multiset(vs);
    }
  }

  // ------------------------------------------------- card_combinations

  /** A scoring combination as yielded by `card_combinations`. */
  datatype Combination = Combination(score: nat, cards: seq<nat>)

  /** `v2c[v]`: the colours of the hand's cards of value `v`, in hand order. */
  function ColoursAt(hand: seq<nat>, v: nat): seq<nat> {
    if |hand| == 0 then []
    else (if Value(hand[0]) == v then [Colour(hand[0])] else []) + ColoursAt(hand[1..], v)
  }

  lemma {:induction false} ColoursAtSpec(hand: seq<nat>, v: nat)
    requires v < 8
    ensures forall c :: c in ColoursAt(hand, v) <==> v + 8 * c in hand
  {
    if |hand| > 0 {
      ColoursAtSpec(hand[1..], v);
      assert hand == [hand[0]] + hand[1..];
    }
  }

  lemma {:induction false} ColoursAtNoDup(hand: seq<nat>, v: nat)
    requires v < 8 && NoDup(hand)
    ensures NoDup(ColoursAt(hand, v))
  {
    if |hand| > 0 {
      var tail := ColoursAt(hand[1..], v);
      ColoursAtNoDup(hand[1..], v);
      ColoursAtSpec(hand[1..], v);
      if Value(hand[0]) == v {
        var c := Colour(hand[0]);
        assert hand[0] == v + 8 * c;
        assert hand[0] !in hand[1..];
        assert c !in tail;
        assert ColoursAt(hand, v) == [c] + tail;
      }
    }
  }

  lemma ColoursAtCard(hand: seq<nat>, v: nat, c: nat)
    requires v < 8 && c in ColoursAt(hand, v)
    ensures v + c * 8 in hand
  {
    ColoursAtSpec(hand, v);
  }

  lemma ColoursAtHas(hand: seq<nat>, card: nat)
    requires card in hand
    ensures Colour(card) in ColoursAt(hand, Value(card))
  {
    CardOfParts(card);
    ColoursAtSpec(hand, Value(card));
  }

  lemma ColoursAtBelow(hand: seq<nat>, v: nat)
    requires v < 8 && AllBelow(hand, 24)
    ensures forall c :: c in ColoursAt(hand, v) ==> c < 3
  {
    ColoursAtSpec(hand, v);
  }

  function RunCombo(v: nat, c1: nat, c2: nat, c3: nat): Combination {
    Combination(if c1 == c2 && c2 == c3 then v * 10 + 50 else v * 10 + 10,
                [v + c1 * 8, v + 1 + c2 * 8, v + 2 + c3 * 8])
  }

  /** The innermost loop, over `v2c[v + 2]`. */
  function Runs3(v: nat, c1: nat, c2: nat, cs3: seq<nat>): seq<Combination> {
    if |cs3| == 0 then [] else [RunCombo(v, c1, c2, cs3[0])] + Runs3(v, c1, c2, cs3[1..])
  }

  /** The middle loop, over `v2c[v + 1]`. */
  function Runs2(v: nat, c1: nat, cs2: seq<nat>, cs3: seq<nat>): seq<Combination> {
    if |cs2| == 0 then [] else Runs3(v, c1, cs2[0], cs3) + Runs2(v, c1, cs2[1..], cs3)
  }

  /** The outer loop, over `v2c[v]`. */
  function Runs1(v: nat, cs1: seq<nat>, cs2: seq<nat>, cs3: seq<nat>): seq<Combination> {
    if |cs1| == 0 then [] else Runs2(v, cs1[0], cs2, cs3) + Runs1(v, cs1[1..], cs2, cs3)
  }

  lemma {:induction false} RunsSound(v: nat, cs1: seq<nat>, cs2: seq<nat>, cs3: seq<nat>, x: Combination)
    requires x in Runs1(v, cs1, cs2, cs3)
    ensures exists c1, c2, c3 :: c1 in cs1 && c2 in cs2 && c3 in cs3 && x == RunCombo(v, c1, c2, c3)
  {
    if x in Runs2(v, cs1[0], cs2, cs3) {
      Runs2Sound(v, cs1[0], cs2, cs3, x);
      var c2, c3 :| c2 in cs2 && c3 in cs3 && x == RunCombo(v, cs1[0], c2, c3);
      assert cs1[0] in cs1;
    } else {
      RunsSound(v, cs1[1..], cs2, cs3, x);
      var c1, c2, c3 :| c1 in cs1[1..] && c2 in cs2 && c3 in cs3 && x == RunCombo(v, c1, c2, c3);
      assert c1 in cs1;
    }
  }

  lemma {:induction false} Runs2Sound(v: nat, c1: nat, cs2: seq<nat>, cs3: seq<nat>, x: Combination)
    requires x in Runs2(v, c1, cs2, cs3)
    ensures exists c2, c3 :: c2 in cs2 && c3 in cs3 && x == RunCombo(v, c1, c2, c3)
  {
    if x in Runs3(v, c1, cs2[0], cs3) {
      Runs3Sound(v, c1, cs2[0], cs3, x);
      var c3 :| c3 in cs3 && x == RunCombo(v, c1, cs2[0], c3);
      assert cs2[0] in cs2;
    } else {
      Runs2Sound(v, c1, cs2[1..], cs3, x);
      var c2, c3 :| c2 in cs2[1..] && c3 in cs3 && x == RunCombo(v, c1, c2, c3);
      assert c2 in cs2;
    }
  }

  lemma {:induction false} Runs3Sound(v: nat, c1: nat, c2: nat, cs3: seq<nat>, x: Combination)
    requires x in Runs3(v, c1, c2, cs3)
    ensures exists c3 :: c3 in cs3 && x == RunCombo(v, c1, c2, c3)
  {
    if x == RunCombo(v, c1, c2, cs3[0]) {
      assert cs3[0] in cs3;
    } else {
      Runs3Sound(v, c1, c2, cs3[1..], x);
      var c3 :| c3 in cs3[1..] && x == RunCombo(v, c1, c2, c3);
      assert c3 in cs3;
    }
  }

  lemma {:induction false} RunsComplete(v: nat, cs1: seq<nat>, cs2: seq<nat>, cs3: seq<nat>, c1: nat, c2: nat, c3: nat)
    requires c1 in cs1 && c2 in cs2 && c3 in cs3
    ensures RunCombo(v, c1, c2, c3) in Runs1(v, cs1, cs2, cs3)
  {
    if cs1[0] == c1 {
      Runs2Complete(v, c1, cs2, cs3, c2, c3);
    } else {
      RunsComplete(v, cs1[1..], cs2, cs3, c1, c2, c3);
    }
  }

  lemma {:induction false} Runs2Complete(v: nat, c1: nat, cs2: seq<nat>, cs3: seq<nat>, c2: nat, c3: nat)
    requires c2 in cs2 && c3 in cs3
    ensures RunCombo(v, c1, c2, c3) in Runs2(v, c1, cs2, cs3)
  {
    if cs2[0] == c2 {
      Runs3Complete(v, c1, c2, cs3, c3);
    } else {
      Runs2Complete(v, c1, cs2[1..], cs3, c2, c3);
    }
  }

  lemma {:induction false} Runs3Complete(v: nat, c1: nat, c2: nat, cs3: seq<nat>, c3: nat)
    requires c3 in cs3
    ensures RunCombo(v, c1, c2, c3) in Runs3(v, c1, c2, cs3)
  {
    if cs3[0] != c3 {
      Runs3Complete(v, c1, c2, cs3[1..], c3);
    }
  }

  /** The first loop of `card_combinations`, for `v` from `from` to 5. */
  function AllRuns(hand: seq<nat>, from: nat): seq<Combination>
    decreases 6 - from
  {
    if from >= 6 then [] else RunsFor(hand, from) + AllRuns(hand, from + 1)
  }

  /** The runs starting at value `v`, when each of the three values is held. */
  function RunsFor(hand: seq<nat>, v: nat): seq<Combination> {
    var cs1 := ColoursAt(hand, v);
    var cs2 := ColoursAt(hand, v + 1);
    var cs3 := ColoursAt(hand, v + 2);
    if |cs1| > 0 && |cs2| > 0 && |cs3| > 0 then Runs1(v, cs1, cs2, cs3) else []
  }

  function TripleCombo(v: nat, colours: seq<nat>): Combination
    requires |colours| == 3
  {
    Combination(v * 10 + 20, [v + colours[0] * 8, v + colours[1] * 8, v + colours[2] * 8])
  }

  /** The second loop of `card_combinations`, for `v` from `from` to 7. */
  function AllTriples(hand: seq<nat>, from: nat): seq<Combination>
    decreases 8 - from
  {
    if from >= 8 then []
    else
      var colours := ColoursAt(hand, from);
      (if |colours| == 3 then [TripleCombo(from, colours)] else []) + AllTriples(hand, from + 1)
  }

  /** `card_combinations(hand)`: runs first, then three of a kind. Its two
      `assert` statements always hold (`CardCombinationsSound`). */
  function CardCombinations(hand: seq<nat>): seq<Combination> {
    AllRuns(hand, 0) + AllTriples(hand, 0)
  }

  /** Three cards listed as `v, v+1, v+2` or `v, v, v`. */
  predicate Shaped(cards: seq<nat>) {
    |cards| == 3 &&
    ((Value(cards[1]) == Value(cards[0]) + 1 && Value(cards[2]) == Value(cards[0]) + 2) ||
     (Value(cards[1]) == Value(cards[0]) && Value(cards[2]) == Value(cards[0])))
  }

  lemma RunComboSound(hand: seq<nat>, v: nat, c1: nat, c2: nat, c3: nat)
    requires v < 6
    requires c1 in ColoursAt(hand, v) && c2 in ColoursAt(hand, v + 1) && c3 in ColoursAt(hand, v + 2)
    ensures var x := RunCombo(v, c1, c2, c3);
      Shaped(x.cards) && (forall card :: card in x.cards ==> card in hand) &&
      ScoreCombination(x.cards) == Some(x.score) && NoDup(x.cards)
  {
    RunComboCards(hand, v, c1, c2, c3);
    RunComboScore(v, c1, c2, c3);
  }

  lemma RunComboCards(hand: seq<nat>, v: nat, c1: nat, c2: nat, c3: nat)
    requires v < 6
    requires c1 in ColoursAt(hand, v) && c2 in ColoursAt(hand, v + 1) && c3 in ColoursAt(hand, v + 2)
    ensures var x := RunCombo(v, c1, c2, c3);
      Shaped(x.cards) && (forall card :: card in x.cards ==> card in hand) && NoDup(x.cards)
  {
    ColoursAtCard(hand, v, c1);
    ColoursAtCard(hand, v + 1, c2);
    ColoursAtCard(hand, v + 2, c3);
    CardParts(v, c1);
    CardParts(v + 1, c2);
    CardParts(v + 2, c3);
    DistinctValues(RunCombo(v, c1, c2, c3).cards);
  }

  /** The score `card_combinations` gives a run is the one `score_combination` computes. */
  lemma RunComboScore(v: nat, c1: nat, c2: nat, c3: nat)
    requires v < 6
    ensures var x := RunCombo(v, c1, c2, c3);
      ScoreCombination(x.cards) == Some(x.score)
  {
    var x := RunCombo(v, c1, c2, c3);
    RunComboShape(v, c1, c2, c3);
    RunScore(x.cards, v);
  }

  /** The cards of a run combination make a run of `v`, of one colour
      exactly when the three colours agree. */
  lemma RunComboShape(v: nat, c1: nat, c2: nat, c3: nat)
    requires v < 6
    ensures var x := RunCombo(v, c1, c2, c3);
      IsRun(x.cards, v) && (SameColour(x.cards) <==> c1 == c2 && c2 == c3)
  {
    CardParts(v, c1);
    CardParts(v + 1, c2);
    CardParts(v + 2, c3);
    var x := RunCombo(v, c1, c2, c3);
    assert Values(x.cards) == [v, v + 1, v + 2];
    assert multiset([v, v + 1, v + 2]) == multiset{v, v + 1, v + 2};
  }

  /** Cards of three different values are three different cards. */
  lemma DistinctValues(cards: seq<nat>)
    requires |cards| == 3
    requires Value(cards[0]) != Value(cards[1]) && Value(cards[1]) != Value(cards[2])
    requires Value(cards[0]) != Value(cards[2])
    ensures NoDup(cards)
  {
  }

  lemma {:induction false} AllRunsSound(hand: seq<nat>, from: nat, x: Combination)
    requires x in AllRuns(hand, from)
    ensures Shaped(x.cards) && (forall card :: card in x.cards ==> card in hand)
    ensures ScoreCombination(x.cards) == Some(x.score)
    ensures NoDup(x.cards)
    decreases 6 - from
  {
    var cs1 := ColoursAt(hand, from);
    var cs2 := ColoursAt(hand, from + 1);
    var cs3 := ColoursAt(hand, from + 2);
    InAppend(x, RunsFor(hand, from), AllRuns(hand, from + 1));
    if x in RunsFor(hand, from) {
      RunsSound(from, cs1, cs2, cs3, x);
      var c1, c2, c3 :| c1 in cs1 && c2 in cs2 && c3 in cs3 && x == RunCombo(from, c1, c2, c3);
      RunComboSound(hand, from, c1, c2, c3);
    } else {
      AllRunsSound(hand, from + 1, x);
    }
  }

  lemma {:induction false} AllTriplesSound(hand: seq<nat>, from: nat, x: Combination)
    requires x in AllTriples(hand, from)
    ensures Shaped(x.cards) && (forall card :: card in x.cards ==> card in hand)
    ensures ScoreCombination(x.cards) == Some(x.score)
    ensures NoDup(hand) ==> NoDup(x.cards)
    decreases 8 - from
  {
    var colours := ColoursAt(hand, from);
    if |colours| == 3 && x == TripleCombo(from, colours) {
      TripleComboSound(hand, from);
    } else {
      AllTriplesSound(hand, from + 1, x);
    }
  }

  lemma TripleComboSound(hand: seq<nat>, v: nat)
    requires v < 8 && |ColoursAt(hand, v)| == 3
    ensures var x := TripleCombo(v, ColoursAt(hand, v));
      Shaped(x.cards) && (forall card :: card in x.cards ==> card in hand) &&
      ScoreCombination(x.cards) == Some(x.score) &&
      (NoDup(hand) ==> NoDup(x.cards))
  {
    TripleComboCards(hand, v);
    TripleComboScore(v, ColoursAt(hand, v));
  }

  lemma TripleComboCards(hand: seq<nat>, v: nat)
    requires v < 8 && |ColoursAt(hand, v)| == 3
    ensures var x := TripleCombo(v, ColoursAt(hand, v));
      Shaped(x.cards) && (forall card :: card in x.cards ==> card in hand) &&
      (NoDup(hand) ==> NoDup(x.cards))
  {
    var colours := ColoursAt(hand, v);
    ColoursAtSpec(hand, v);
    TripleInHand(hand, v, colours);
    if NoDup(hand) {
      ColoursAtNoDup(hand, v);
      TripleComboDistinct(v, colours);
    }
  }

  /** Three colours of value `v` found in the hand give three cards of the
      hand of that one value. */
  lemma TripleInHand(hand: seq<nat>, v: nat, colours: seq<nat>)
    requires v < 8 && |colours| == 3 && forall c :: c in colours ==> v + 8 * c in hand
    ensures var x := TripleCombo(v, colours);
      Shaped(x.cards) && forall card :: card in x.cards ==> card in hand
  {
    assert colours[0] in colours && colours[1] in colours && colours[2] in colours;
    CardParts(v, colours[0]);
    CardParts(v, colours[1]);
    CardParts(v, colours[2]);
  }

  /** The score `card_combinations` gives three of a kind is the one
      `score_combination` computes. */
  lemma TripleComboScore(v: nat, colours: seq<nat>)
    requires v < 8 && |colours| == 3
    ensures ScoreCombination(TripleCombo(v, colours).cards) == Some(TripleCombo(v, colours).score)
  {
    var x := TripleCombo(v, colours);
    CardParts(v, colours[0]);
    CardParts(v, colours[1]);
    CardParts(v, colours[2]);
    assert Values(x.cards) == [v, v, v];
    TripleScore(x.cards, v);
  }

  lemma TripleComboDistinct(v: nat, colours: seq<nat>)
    requires |colours| == 3 && NoDup(colours)
    ensures NoDup(TripleCombo(v, colours).cards)
  {
    assert colours[0] != colours[1] && colours[1] != colours[2] && colours[0] != colours[2];
  }

  /** Every yielded combination is three cards of the hand, shaped as a run
      or a triple, whose score is exactly what `score_combination` gives:
      the two `assert` statements of `card_combinations` never fire. With
      distinct cards in the hand, the three cards are distinct. */
  lemma CardCombinationsSound(hand: seq<nat>)
    ensures forall x | x in CardCombinations(hand) ::
      Shaped(x.cards) && (forall card :: card in x.cards ==> card in hand) &&
      ScoreCombination(x.cards) == Some(x.score)
    ensures NoDup(hand) ==> forall x | x in CardCombinations(hand) :: NoDup(x.cards)
  {
    forall x | x in CardCombinations(hand)
      ensures Shaped(x.cards) && (forall card :: card in x.cards ==> card in hand)
      ensures ScoreCombination(x.cards) == Some(x.score)
      ensures NoDup(hand) ==> NoDup(x.cards)
    {
      if x in AllRuns(hand, 0) {
        AllRunsSound(hand, 0, x);
      } else {
        AllTriplesSound(hand, 0, x);
      }
    }
  }

  /** Every run of three distinct hand cards is yielded, with those cards in
      value order. */
  lemma {:induction false} CardCombinationsHasRun(hand: seq<nat>, a: nat, b: nat, c: nat)
    requires a in hand && b in hand && c in hand
    requires Value(b) == Value(a) + 1 && Value(c) == Value(a) + 2
    ensures exists x :: x in CardCombinations(hand) && x.cards == [a, b, c]
  {
    var x := RunOfCards(hand, a, b, c);
    AllRunsHas(hand, 0, Value(a), x);
    InAppend(x, AllRuns(hand, 0), AllTriples(hand, 0));
  }

  /** The run of three hand cards among the runs for the lowest value. */
  lemma RunOfCards(hand: seq<nat>, a: nat, b: nat, c: nat) returns (x: Combination)
    requires a in hand && b in hand && c in hand
    requires Value(b) == Value(a) + 1 && Value(c) == Value(a) + 2
    ensures Value(a) < 6 && x in RunsFor(hand, Value(a)) && x.cards == [a, b, c]
  {
    var v := Value(a);
    CardOfParts(a);
    CardOfParts(b);
    CardOfParts(c);
    var cs1, cs2, cs3 := ColoursAt(hand, v), ColoursAt(hand, v + 1), ColoursAt(hand, v + 2);
    ColoursAtHas(hand, a);
    ColoursAtHas(hand, b);
    ColoursAtHas(hand, c);
    RunsComplete(v, cs1, cs2, cs3, Colour(a), Colour(b), Colour(c));
    x := RunCombo(v, Colour(a), Colour(b), Colour(c));
    RunComboOf(a, b, c);
  }

  /** The run built from the values and colours of three cards is those cards. */
  lemma RunComboOf(a: nat, b: nat, c: nat)
    requires Value(b) == Value(a) + 1 && Value(c) == Value(a) + 2
    ensures RunCombo(Value(a), Colour(a), Colour(b), Colour(c)).cards == [a, b, c]
  {
    CardOfParts(a);
    CardOfParts(b);
    CardOfParts(c);
  }

  lemma {:induction false} AllRunsHas(hand: seq<nat>, from: nat, v: nat, x: Combination)
    requires from <= v < 6 && x in RunsFor(hand, v)
    ensures x in AllRuns(hand, from)
    decreases v - from
  {
    if from < v {
      AllRunsHas(hand, from + 1, v, x);
    }
    InAppend(x, RunsFor(hand, from), AllRuns(hand, from + 1));
  }

  /** Every three of a kind in a hand of distinct cards is yielded. */
  lemma {:induction false} CardCombinationsHasTriple(hand: seq<nat>, a: nat, b: nat, c: nat)
    requires NoDup(hand) && AllBelow(hand, 24)
    requires a in hand && b in hand && c in hand
    requires a != b && b != c && a != c
    requires Value(a) == Value(b) && Value(b) == Value(c)
    ensures exists x :: x in CardCombinations(hand) && a in x.cards && b in x.cards && c in x.cards
  {
    var v := Value(a);
    var colours := ColoursAt(hand, v);
    CardOfParts(a);
    CardOfParts(b);
    CardOfParts(c);
    ColoursAtNoDup(hand, v);
    ColoursAtBelow(hand, v);
    ColoursAtHas(hand, a);
    ColoursAtHas(hand, b);
    ColoursAtHas(hand, c);
    ThreeColours(colours, Colour(a), Colour(b), Colour(c));
    var x := TripleCombo(v, colours);
    AllTriplesHas(hand, 0, v);
    TripleComboHas(v, colours, a);
    TripleComboHas(v, colours, b);
    TripleComboHas(v, colours, c);
    assert x in CardCombinations(hand);
  }

  /** Three distinct colours among distinct colours below 3 are all of them. */
  lemma ThreeColours(colours: seq<nat>, p: nat, q: nat, r: nat)
    requires NoDup(colours) && forall c :: c in colours ==> c < 3
    requires p in colours && q in colours && r in colours
    requires p != q && q != r && p != r
    ensures |colours| == 3
  {
    if |colours| > 3 {
      FirstFourIn(colours);
      assert false;
    }
  }

  lemma FirstFourIn(s: seq<nat>)
    ensures |s| >= 4 ==> s[0] in s && s[1] in s && s[2] in s && s[3] in s
  {
  }

  lemma TripleComboHas(v: nat, colours: seq<nat>, card: nat)
    requires |colours| == 3 && Value(card) == v && Colour(card) in colours
    ensures card in TripleCombo(v, colours).cards
  {
    CardOfParts(card);
    var i :| 0 <= i < 3 && colours[i] == Colour(card);
    assert TripleCombo(v, colours).cards[i] == card;
  }

  lemma {:induction false} AllTriplesHas(hand: seq<nat>, from: nat, v: nat)
    requires from <= v < 8 && |ColoursAt(hand, v)| == 3
    ensures TripleCombo(v, ColoursAt(hand, v)) in AllTriples(hand, from)
    decreases v - from
  {
    if from < v {
      AllTriplesHas(hand, from + 1, v);
    }
  }

  // ---------------------------------------------------- moves_from_hand

  /** Move kinds: 0 removes one card, 1 deals a combination away, 2 is the
      placeholder `whatever` move of the dynamic programme. */
  datatype Action = Remove | Deal | Any

  /** `Move(action, param, score_change)`; `param` is a card mask. */
  datatype Move = Move(action: Action, param: nat, scoreChange: nat)

  function RemoveMoves(cards: seq<nat>): (r: seq<Move>)
    ensures |r| == |cards|
    ensures forall i :: 0 <= i < |r| ==> r[i] == Move(Remove, Pow2(cards[i]), 0)
  {
    seq(|cards|, i requires 0 <= i < |cards| => Move(Remove, Pow2(cards[i]), 0))
  }

  function DealMoves(combos: seq<Combination>): (r: seq<Move>)
    ensures |r| == |combos|
    ensures forall i :: 0 <= i < |r| ==> r[i] == Move(Deal, ListToBinary(combos[i].cards), combos[i].score)
  {
    seq(|combos|, i requires 0 <= i < |combos| => Move(Deal, ListToBinary(combos[i].cards), combos[i].score))
  }

  /** `moves_from_hand(hand)`. */
  function MovesFromHand(hand: nat): seq<Move> {
    var cards := BinaryToList(hand);
    RemoveMoves(cards) + DealMoves(CardCombinations(cards))
  }

  /** The removals: one per card of the hand, each scoring nothing. */
  lemma RemoveMovesSpec(hand: nat)
    ensures var r := RemoveMoves(BinaryToList(hand));
      |r| == NumOnes(hand) &&
      (forall i :: 0 <= i < |r| ==>
         r[i].action == Remove && r[i].scoreChange == 0 &&
         NumOnes(r[i].param) == 1 && SubsetOf(r[i].param, hand)) &&
      (forall card: nat :: Bit(hand, card) <==> Move(Remove, Pow2(card), 0) in r)
  {
    var cards := BinaryToList(hand);
    var r := RemoveMoves(cards);
    forall i | 0 <= i < |r|
      ensures NumOnes(r[i].param) == 1 && SubsetOf(r[i].param, hand)
    {
      Pow2NumOnes(cards[i]);
      Pow2Bits(cards[i]);
      assert cards[i] in cards;
    }
    forall card: nat
      ensures Bit(hand, card) <==> Move(Remove, Pow2(card), 0) in r
    {
      if Bit(hand, card) {
        var j :| 0 <= j < |cards| && cards[j] == card;
        assert r[j] == Move(Remove, Pow2(card), 0);
      }
      if Move(Remove, Pow2(card), 0) in r {
        var j :| 0 <= j < |r| && r[j] == Move(Remove, Pow2(card), 0);
        Pow2Bits(card);
        Pow2Bits(cards[j]);
        assert Bit(Pow2(cards[j]), card);
        assert cards[j] in cards;
      }
    }
  }

  /** What a combination dealt from `hand` carries: three distinct cards of
      the hand, scoring a multiple of 10 from 10 to 100. */
  ghost predicate DealableIn(hand: nat, x: Combination) {
    |x.cards| == 3 && NoDup(x.cards) && (forall c :: c in x.cards ==> Bit(hand, c)) &&
    x.score % 10 == 0 && 10 <= x.score <= 100
  }

  /** What a deal move taking from `hand` carries. */
  ghost predicate DealMoveIn(hand: nat, m: Move) {
    m.action == Deal && NumOnes(m.param) == 3 && SubsetOf(m.param, hand) &&
    m.scoreChange % 10 == 0 && 10 <= m.scoreChange <= 100
  }

  /** What a removal from `hand` carries. */
  ghost predicate RemoveMoveIn(hand: nat, m: Move) {
    m.action == Remove && m.scoreChange == 0 && NumOnes(m.param) == 1 && SubsetOf(m.param, hand)
  }

  /** Every combination `card_combinations` finds in a hand can be dealt. */
  lemma CombinationsDealable(hand: nat)
    ensures forall x :: x in CardCombinations(BinaryToList(hand)) ==> DealableIn(hand, x)
  {
    var cards := BinaryToList(hand);
    StrictlyIncreasingNoDup(cards);
    CardCombinationsSound(cards);
    forall x | x in CardCombinations(cards) ensures DealableIn(hand, x) {
      ScoreTens(x.cards);
    }
  }

  /** Dealable combinations give deal moves taking from the hand. */
  lemma DealMovesOf(hand: nat, combos: seq<Combination>)
    requires forall x :: x in combos ==> DealableIn(hand, x)
    ensures forall m :: m in DealMoves(combos) ==> DealMoveIn(hand, m)
  {
    var r := DealMoves(combos);
    forall m | m in r ensures DealMoveIn(hand, m) {
      var i :| 0 <= i < |r| && r[i] == m;
      var x := combos[i];
      assert x in combos;
      DistinctTripleMask(x.cards);
    }
  }

  /** The deals: each takes three cards of the hand for 10 to 100 points. */
  lemma DealMovesSpec(hand: nat)
    ensures var r := DealMoves(CardCombinations(BinaryToList(hand)));
      forall i :: 0 <= i < |r| ==>
        r[i].action == Deal && NumOnes(r[i].param) == 3 && SubsetOf(r[i].param, hand) &&
        r[i].scoreChange % 10 == 0 && 10 <= r[i].scoreChange <= 100
  {
    var r := DealMoves(CardCombinations(BinaryToList(hand)));
    CombinationsDealable(hand);
    DealMovesOf(hand, CardCombinations(BinaryToList(hand)));
    assert forall i :: 0 <= i < |r| ==> r[i] in r;
  }

  /** In `a + b`, positions before `|a|` hold `a` and the rest hold `b`. */
  lemma AppendParts<T>(a: seq<T>, b: seq<T>)
    ensures (a + b)[..|a|] == a && (a + b)[|a|..] == b
    ensures forall i :: 0 <= i < |a| ==> (a + b)[i] in a
    ensures forall i :: |a| <= i < |a + b| ==> (a + b)[i] in b
  {
    forall i | 0 <= i < |a| ensures (a + b)[i] in a {
      assert (a + b)[i] == a[i];
    }
    forall i | |a| <= i < |a + b| ensures (a + b)[i] in b {
      assert (a + b)[i] == b[i - |a|];
    }
  }

  /** Removals of `hand` followed by any moves. */
  lemma RemovalsFirst(hand: nat, deals: seq<Move>)
    ensures var r := RemoveMoves(BinaryToList(hand)) + deals;
      var k := NumOnes(hand);
      k <= |r| &&
      (forall i :: 0 <= i < k ==> RemoveMoveIn(hand, r[i])) &&
      (forall card: nat :: Bit(hand, card) <==> Move(Remove, Pow2(card), 0) in r[..k])
  {
    var removes := RemoveMoves(BinaryToList(hand));
    RemoveMovesSpec(hand);
    AppendParts(removes, deals);
    forall m | m in removes ensures RemoveMoveIn(hand, m) {
      var i :| 0 <= i < |removes| && removes[i] == m;
    }
  }

  /** Deal moves of `hand` after any prefix. */
  lemma DealsAfter(hand: nat, removes: seq<Move>, deals: seq<Move>)
    requires forall m :: m in deals ==> DealMoveIn(hand, m)
    ensures forall i :: |removes| <= i < |removes + deals| ==> DealMoveIn(hand, (removes + deals)[i])
  {
    AppendParts(removes, deals);
  }

  /** The moves of a hand start with its removals, one per card. */
  lemma MovesFromHandRemovals(hand: nat)
    ensures var r := MovesFromHand(hand);
      var k := NumOnes(hand);
      k <= |r| &&
      (forall i :: 0 <= i < k ==>
         r[i].action == Remove && r[i].scoreChange == 0 &&
         NumOnes(r[i].param) == 1 && SubsetOf(r[i].param, hand)) &&
      (forall card: nat :: Bit(hand, card) <==> Move(Remove, Pow2(card), 0) in r[..k])
  {
    RemovalsFirst(hand, DealMoves(CardCombinations(BinaryToList(hand))));
  }

  /** After the removals come the deals, three cards of the hand each, for
      10 to 100 points. */
  lemma MovesFromHandDeals(hand: nat)
    ensures var r := MovesFromHand(hand);
      var k := NumOnes(hand);
      k <= |r| &&
      forall i :: k <= i < |r| ==>
        r[i].action == Deal && NumOnes(r[i].param) == 3 && SubsetOf(r[i].param, hand) &&
        r[i].scoreChange % 10 == 0 && 10 <= r[i].scoreChange <= 100
  {
    var cards := BinaryToList(hand);
    var deals := DealMoves(CardCombinations(cards));
    CombinationsDealable(hand);
    DealMovesOf(hand, CardCombinations(cards));
    DealsAfter(hand, RemoveMoves(cards), deals);
  }

  /** Three distinct cards make a mask of three bits. */
  lemma DistinctTripleMask(cards: seq<nat>)
    requires |cards| == 3 && NoDup(cards)
    ensures NumOnes(ListToBinary(cards)) == 3
  {
    var s := Sort(cards);
    assert forall e :: multiset(s)[e] <= 1 by {
      NoDupMultiset(cards);
    }
    MultisetNoDup(s);
    assert StrictlyIncreasing(s) by {
      assert s[0] != s[1] && s[1] != s[2];
    }
    assert forall e :: e in s <==> e in cards by {
      forall e ensures e in s <==> e in cards {
        assert e in multiset(s) <==> e in multiset(cards);
      }
    }
    Extensionality(ListToBinary(s), ListToBinary(cards));
    ListRoundTrip(s);
  }

  // ---------------------------------------------------- best_move_score

  function Max(a: nat, b: nat): nat { if a >= b then a else b }

  /** The running `max` of `best_move_score`, from 0. */
  function MaxScore(combos: seq<Combination>): (r: nat)
    ensures forall x :: x in combos ==> x.score <= r
    ensures r == 0 || exists x :: x in combos && x.score == r
  {
    if |combos| == 0 then 0
    else
      var init := combos[..|combos| - 1];
      var last := combos[|combos| - 1];
      var m := MaxScore(init);
      assert combos == init + [last];
      if m == 0 || last.score >= m then
        last.score
      else
        var x :| x in init && x.score == m;
        assert x in combos;
        m
  }

  /** `best_move_score(hand)`. */
  function BestMoveScore(hand: nat): nat {
    MaxScore(CardCombinations(BinaryToList(hand)))
  }

  /** The deal moves of a hand are exactly its scoring combinations. */
  lemma DealsOfMoves(hand: nat)
    ensures var deals := DealMoves(CardCombinations(BinaryToList(hand)));
      forall m :: m in MovesFromHand(hand) && m.action == Deal <==> m in deals
  {
    var cards := BinaryToList(hand);
    var removes := RemoveMoves(cards);
    var deals := DealMoves(CardCombinations(cards));
    assert MovesFromHand(hand) == removes + deals;
    forall m | m in removes ensures m.action == Remove {
      var i :| 0 <= i < |removes| && removes[i] == m;
    }
    forall m | m in deals ensures m.action == Deal {
      var i :| 0 <= i < |deals| && deals[i] == m;
    }
  }

  /** The running maximum of valid combinations is a valid score or 0,
      and 0 only for no combination. */
  lemma MaxScoreRange(combos: seq<Combination>)
    requires forall x :: x in combos ==> ScoreCombination(x.cards) == Some(x.score)
    ensures var r := MaxScore(combos);
      r % 10 == 0 && r <= 100 && (r == 0 <==> |combos| == 0)
  {
    var r := MaxScore(combos);
    if |combos| > 0 {
      assert combos[0] in combos;
    }
    if r > 0 {
      var x :| x in combos && x.score == r;
      ScoreTens(x.cards);
    }
  }

  /** `best_move_score` is a multiple of 10 up to 100, and 0 exactly when
      the hand has no deal. */
  lemma BestMoveScoreRange(hand: nat)
    ensures var r := BestMoveScore(hand);
      r % 10 == 0 && r <= 100 &&
      (r == 0 <==> forall m :: m in MovesFromHand(hand) ==> m.action != Deal)
  {
    var cards := BinaryToList(hand);
    var combos := CardCombinations(cards);
    var deals := DealMoves(combos);
    CardCombinationsSound(cards);
    MaxScoreRange(combos);
    DealsOfMoves(hand);
    if |deals| > 0 {
      assert deals[0] in deals;
    }
  }

  lemma DealMovesMax(combos: seq<Combination>)
    ensures var deals := DealMoves(combos);
      var r := MaxScore(combos);
      (forall m :: m in deals ==> m.scoreChange <= r) &&
      (r > 0 ==> exists m :: m in deals && m.scoreChange == r)
  {
    var deals := DealMoves(combos);
    var r := MaxScore(combos);
    forall m | m in deals ensures m.scoreChange <= r {
      var j :| 0 <= j < |deals| && deals[j] == m;
      assert combos[j] in combos;
    }
    if r > 0 {
      var x :| x in combos && x.score == r;
      var j :| 0 <= j < |combos| && combos[j] == x;
      assert deals[j] in deals;
    }
  }

  /** `best_move_score` is the score of the best deal. */
  lemma BestMoveScoreIsBest(hand: nat)
    ensures var r := BestMoveScore(hand);
      var moves := MovesFromHand(hand);
      (forall m :: m in moves && m.action == Deal ==> m.scoreChange <= r) &&
      (r > 0 ==> exists m :: m in moves && m.action == Deal && m.scoreChange == r)
  {
    var combos := CardCombinations(BinaryToList(hand));
    DealsOfMoves(hand);
    DealMovesMax(combos);
  }
}

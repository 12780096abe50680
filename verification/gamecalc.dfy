/** The list-based game engine (gamecalc.py): `score_combination` behind a
    score cache, `card_combinations` writing into that cache, the table
    `combinations_cache` of every three- to five-card hand, and the `moves`
    / `outcomes` pair a list-based search is built from. Hands and decks are
    lists of card numbers; the rules for scoring are those of `Scoring`. */
module GameCalc {
  import opened Wrappers
  import opened Seqs
  import opened Scoring
  import opened CardSets

  // ------------------------------------------------------------ score cache

  /** `score_cache`: combination -> score. */
  type ScoreCache = map<seq<nat>, nat>

  /** Scoring rules behind the cache: a combination's score, `None` where
      they reject it. The module uses `Scoring.ScoreCombination`; the cache
      lemmas hold whatever the rules. */
  type Rules = seq<nat> -> Option<nat>

  /** Every cached score is the score the rules give. */
  predicate CacheSound(rules: Rules, cache: ScoreCache) {
    forall combo :: combo in cache ==> rules(combo) == Some(cache[combo])
  }

  /** gamecalc's `score_combination(combo)`: the cache lookup in front of
      the rules. */
  function CachedScore(rules: Rules, cache: ScoreCache, combo: seq<nat>): Option<nat> {
    if combo in cache then Some(cache[combo]) else rules(combo)
  }

  /** Behind a sound cache, the cached score is the score of the rules. */
  lemma CachedScoreSound(rules: Rules, cache: ScoreCache, combo: seq<nat>)
    requires CacheSound(rules, cache)
    ensures CachedScore(rules, cache, combo) == rules(combo)
  {
  }

  /** Consuming the yielded combinations of `card_combinations` one by one:
      each is checked by its `assert` (which goes through the cache) and then
      written into the cache. `None` where an assertion fails. */
  function Record(rules: Rules, combos: seq<Combination>, cache: ScoreCache): Option<ScoreCache>
    decreases |combos|
  {
    if |combos| == 0 then Some(cache)
    else
      var x := combos[0];
      if CachedScore(rules, cache, x.cards) != Some(x.score) then None
      else Record(rules, combos[1..], cache[x.cards := x.score])
  }

  /** The cards of the listed combinations. */
  function CardsOf(combos: seq<Combination>): set<seq<nat>> {
    set x | x in combos :: x.cards
  }

  /** Recording correctly scored combinations into a sound cache never trips
      an assertion, keeps the cache sound, keeps every old entry, and adds
      exactly the recorded combinations. */
  lemma {:induction false} RecordSound(rules: Rules, combos: seq<Combination>, cache: ScoreCache)
    requires CacheSound(rules, cache)
    requires forall x :: x in combos ==> rules(x.cards) == Some(x.score)
    ensures Record(rules, combos, cache).Some?
    ensures var after := Record(rules, combos, cache).value;
      CacheSound(rules, after) &&
      after.Keys == cache.Keys + CardsOf(combos) &&
      forall combo :: combo in cache ==> after[combo] == cache[combo]
    decreases |combos|
  {
    if |combos| > 0 {
      var x := combos[0];
      assert x in combos;
      var next := cache[x.cards := x.score];
      forall y | y in combos[1..] ensures rules(y.cards) == Some(y.score) {
        assert y in combos;
      }
      RecordSound(rules, combos[1..], next);
      assert combos == [x] + combos[1..];
      assert CardsOf(combos) == {x.cards} + CardsOf(combos[1..]);
    }
  }

  /** `list(card_combinations(hand))` run against `cache`: the combinations
      and the cache afterwards. */
  function CachedCardCombinations(hand: seq<nat>, cache: ScoreCache): Option<(seq<Combination>, ScoreCache)> {
    var combos := CardCombinations(hand);
    match Record(ScoreCombination, combos, cache)
    case None => None
    case Some(after) => Some((combos, after))
  }

  /** With a sound cache, the cached generator yields exactly the
      combinations of `Scoring.CardCombinations`, its assertions hold, and the
      cache stays sound while learning every yielded combination. */
  lemma CachedCardCombinationsSound(hand: seq<nat>, cache: ScoreCache)
    requires CacheSound(ScoreCombination, cache)
    ensures CachedCardCombinations(hand, cache).Some?
    ensures var result := CachedCardCombinations(hand, cache).value;
      result.0 == CardCombinations(hand) &&
      CacheSound(ScoreCombination, result.1) &&
      result.1.Keys == cache.Keys + CardsOf(result.0)
  {
    CardCombinationsSound(hand);
    RecordSound(ScoreCombination, CardCombinations(hand), cache);
  }

  // ----------------------------------------------------- combinations_cache

  /** `combinations_cache`: hand -> its scoring combinations. */
  type ComboTable = map<seq<nat>, seq<Combination>>

  /** One entry of the comprehension: a hand's combinations and the score
      cache after them, `None` where an assertion fails. */
  type Step = (seq<nat>, ScoreCache) -> Option<(seq<Combination>, ScoreCache)>

  /** The hands the table is built for: every 5-, then 4-, then 3-card
      combination of the 24 cards. */
  function TableHands(): seq<seq<nat>> {
    Combinations(Range(24), 5) + Combinations(Range(24), 4) + Combinations(Range(24), 3)
  }

  /** The keys the table should have: sorted hands of 3 to 5 distinct cards. */
  predicate IsTableKey(hand: seq<nat>) {
    StrictlyIncreasing(hand) && AllBelow(hand, 24) && 3 <= |hand| <= 5
  }

  /** The dictionary comprehension, one hand after the other, with the score
      cache threaded through `step`. */
  function BuildFrom(step: Step, hands: seq<seq<nat>>, table: ComboTable, cache: ScoreCache): Option<(ComboTable, ScoreCache)>
    decreases |hands|
  {
    if |hands| == 0 then Some((table, cache))
    else
      var next := step(hands[0], cache);
      if next.None? then None
      else BuildFrom(step, hands[1..], table[hands[0] := next.value.0], next.value.1)
  }

  /** Module initialisation: `score_cache = {}`, then `combinations_cache`. */
  function BuildTable(): Option<(ComboTable, ScoreCache)> {
    BuildFrom(CachedCardCombinations, TableHands(), map[], map[])
  }

  /** Every entry of the table holds what `combos` gives for its hand. */
  predicate TableOf(combos: seq<nat> -> seq<Combination>, table: ComboTable) {
    forall hand :: hand in table ==> table[hand] == combos(hand)
  }

  /** Every entry of the table holds the hand's scoring combinations. */
  predicate TableSound(table: ComboTable) {
    forall hand :: hand in table ==> table[hand] == CardCombinations(hand)
  }

  /** A step that, from a cache sound for `rules`, succeeds with `combos` of
      the hand and leaves the cache sound. */
  ghost predicate StepSound(step: Step, rules: Rules, combos: seq<nat> -> seq<Combination>) {
    forall hand, cache :: CacheSound(rules, cache) ==>
      step(hand, cache).Some? && step(hand, cache).value.0 == combos(hand) &&
      CacheSound(rules, step(hand, cache).value.1)
  }

  /** Building with a sound step never fails; every entry holds its hand's
      combinations, the cache stays sound, and the keys are the old ones and
      the listed hands. */
  lemma {:induction false} BuildFromSound(step: Step, rules: Rules, combos: seq<nat> -> seq<Combination>,
                                          hands: seq<seq<nat>>, table: ComboTable, cache: ScoreCache)
    requires StepSound(step, rules, combos)
    requires CacheSound(rules, cache) && TableOf(combos, table)
    ensures BuildFrom(step, hands, table, cache).Some?
    ensures var built := BuildFrom(step, hands, table, cache).value;
      TableOf(combos, built.0) && CacheSound(rules, built.1) &&
      forall hand :: hand in built.0 <==> hand in table || hand in hands
    decreases |hands|
  {
    if |hands| > 0 {
      var h := hands[0];
      var next := step(h, cache).value;
      BuildFromSound(step, rules, combos, hands[1..], table[h := next.0], next.1);
      forall hand ensures hand in hands <==> hand == h || hand in hands[1..] {
        InTail(hands, hand);
      }
    }
  }

  lemma InTail<T>(s: seq<T>, x: T)
    requires |s| > 0
    ensures x in s <==> x == s[0] || x in s[1..]
  {
    assert s == [s[0]] + s[1..];
  }

  /** The generator step of the module is sound for the rules of `Scoring`. */
  lemma CachedStepSound()
    ensures StepSound(CachedCardCombinations, ScoreCombination, CardCombinations)
  {
    forall hand, cache | CacheSound(ScoreCombination, cache)
      ensures CachedCardCombinations(hand, cache).Some?
      ensures CachedCardCombinations(hand, cache).value.0 == CardCombinations(hand)
      ensures CacheSound(ScoreCombination, CachedCardCombinations(hand, cache).value.1)
    {
      CachedCardCombinationsSound(hand, cache);
    }
  }

  /** The elements of `range(n)` are the numbers below `n`. */
  lemma InRange(n: nat, x: nat)
    ensures x in Range(n) <==> x < n
  {
    if x < n {
      assert Range(n)[x] == x;
    }
  }

  /** The `k`-card combinations of the 24 cards are the sorted hands of `k`
      distinct cards below 24. */
  lemma InCombinationsOfAll(k: nat, hand: seq<nat>)
    ensures hand in Combinations(Range(24), k) <==> |hand| == k && StrictlyIncreasing(hand) && AllBelow(hand, 24)
  {
    var all := Range(24);
    if hand in Combinations(all, k) {
      CombinationsSound(all, k);
      forall j | 0 <= j < |hand| ensures hand[j] < 24 {
        InRange(24, hand[j]);
      }
    }
    if |hand| == k && StrictlyIncreasing(hand) && AllBelow(hand, 24) {
      forall j | 0 <= j < |hand| ensures hand[j] in all {
        InRange(24, hand[j]);
      }
      CombinationsComplete(all, k, hand);
    }
  }

  /** A hand is built into the table exactly when it is a sorted hand of 3
      to 5 distinct cards below 24. */
  lemma TableHandsSpec(hand: seq<nat>)
    ensures hand in TableHands() <==> IsTableKey(hand)
  {
    InCombinationsOfAll(5, hand);
    InCombinationsOfAll(4, hand);
    InCombinationsOfAll(3, hand);
  }

  /** Building the table never trips an assertion of `card_combinations`;
      its keys are exactly the sorted hands of 3 to 5 distinct cards, each
      mapped to its scoring combinations, and the score cache it leaves
      behind is sound. */
  lemma BuildTableSpec()
    ensures BuildTable().Some?
    ensures var built := BuildTable().value;
      TableSound(built.0) && CacheSound(ScoreCombination, built.1) &&
      forall hand :: hand in built.0 <==> IsTableKey(hand)
  {
    CachedStepSound();
    BuildFromSound(CachedCardCombinations, ScoreCombination, CardCombinations, TableHands(), map[], map[]);
    forall hand ensures hand in TableHands() <==> IsTableKey(hand) {
      TableHandsSpec(hand);
    }
  }

  // ------------------------------------------------------------------ moves

  /** `('remove', card)` or `('deal', cards)`. */
  datatype Play = RemoveCard(card: nat) | DealCards(cards: seq<nat>)

  /** `(action, parameter, score_change)`. */
  datatype GameMove = GameMove(play: Play, scoreChange: nat)

  function Removals(hand: seq<nat>): seq<GameMove> {
    seq(|hand|, i requires 0 <= i < |hand| => GameMove(RemoveCard(hand[i]), 0))
  }

  function Deals(combos: seq<Combination>): seq<GameMove> {
    seq(|combos|, i requires 0 <= i < |combos| => GameMove(DealCards(combos[i].cards), combos[i].score))
  }

  /** `list(moves(hand, deck_not_empty))`: removals while the deck lasts, then
      the deals of the hand's table entry; `None` for the `KeyError` of a
      hand of three or more cards that is not a table key. */
  function Moves(table: ComboTable, hand: seq<nat>, deckNotEmpty: bool): Option<seq<GameMove>> {
    var removes := if deckNotEmpty then Removals(hand) else [];
    if |hand| < 3 then Some(removes)
    else if hand !in table then None
    else Some(removes + Deals(table[hand]))
  }

  /** The table's keys are exactly the sorted hands of 3 to 5 distinct cards. */
  ghost predicate TableKeyed(table: ComboTable) {
    forall h :: h in table <==> IsTableKey(h)
  }

  /** Against the built table `moves` fails exactly on hands of three or
      more cards that are not sorted distinct cards below 24. Otherwise
      every hand card can be removed, for nothing, when the deck is not
      empty and only then. */
  lemma MovesRemovals(table: ComboTable, hand: seq<nat>, deckNotEmpty: bool)
    requires TableKeyed(table)
    ensures Moves(table, hand, deckNotEmpty).None? <==> |hand| >= 3 && !IsTableKey(hand)
    ensures Moves(table, hand, deckNotEmpty).Some? ==>
      var r := Moves(table, hand, deckNotEmpty).value;
      (forall card :: GameMove(RemoveCard(card), 0) in r <==> deckNotEmpty && card in hand) &&
      (forall m :: m in r && m.play.RemoveCard? ==> m.scoreChange == 0)
  {
    var removes := if deckNotEmpty then Removals(hand) else [];
    forall card ensures GameMove(RemoveCard(card), 0) in removes <==> deckNotEmpty && card in hand {
      if card in hand && deckNotEmpty {
        var i :| 0 <= i < |hand| && hand[i] == card;
        assert removes[i] == GameMove(RemoveCard(card), 0);
      }
    }
    if |hand| >= 3 && hand in table {
      var deals := Deals(table[hand]);
      assert forall m :: m in deals ==> m.play.DealCards?;
    }
  }

  /** A deal of three distinct hand cards forming a run or a triple, for
      exactly the points the scoring rules give. */
  predicate FairDeal(hand: seq<nat>, cards: seq<nat>, score: nat) {
    Shaped(cards) && NoDup(cards) &&
    (forall card :: card in cards ==> card in hand) &&
    ScoreCombination(cards) == Some(score)
  }

  /** For a hand in the table, `moves` is its removals followed by the deals
      of its scoring combinations. */
  lemma MovesOfKey(table: ComboTable, hand: seq<nat>, deckNotEmpty: bool)
    requires TableSound(table) && TableKeyed(table) && IsTableKey(hand)
    ensures Moves(table, hand, deckNotEmpty) ==
      Some((if deckNotEmpty then Removals(hand) else []) + Deals(CardCombinations(hand)))
  {
  }

  lemma CombinationsFair(hand: seq<nat>)
    requires NoDup(hand)
    ensures forall x :: x in CardCombinations(hand) ==> FairDeal(hand, x.cards, x.score)
  {
    CardCombinationsSound(hand);
  }

  lemma DealsFair(hand: seq<nat>, removes: seq<GameMove>, combos: seq<Combination>)
    requires forall m :: m in removes ==> m.play.RemoveCard?
    requires forall x :: x in combos ==> FairDeal(hand, x.cards, x.score)
    ensures forall m :: m in removes + Deals(combos) && m.play.DealCards? ==>
      FairDeal(hand, m.play.cards, m.scoreChange)
  {
    var deals := Deals(combos);
    forall m | m in removes + deals && m.play.DealCards?
      ensures FairDeal(hand, m.play.cards, m.scoreChange)
    {
      var i :| 0 <= i < |deals| && deals[i] == m;
      assert combos[i] in combos;
    }
  }

  /** Against the built table every deal that `moves` offers is a fair deal
      of the hand. */
  lemma MovesDeals(table: ComboTable, hand: seq<nat>, deckNotEmpty: bool)
    requires TableSound(table) && TableKeyed(table)
    ensures Moves(table, hand, deckNotEmpty).Some? ==>
      forall m :: m in Moves(table, hand, deckNotEmpty).value && m.play.DealCards? ==>
        |hand| >= 3 && FairDeal(hand, m.play.cards, m.scoreChange)
  {
    var removes := if deckNotEmpty then Removals(hand) else [];
    assert forall m :: m in removes ==> m.play.RemoveCard?;
    if |hand| >= 3 && IsTableKey(hand) {
      MovesOfKey(table, hand, deckNotEmpty);
      StrictlyIncreasingNoDup(hand);
      CombinationsFair(hand);
      DealsFair(hand, removes, CardCombinations(hand));
    }
  }

  /** Every combination is offered as a deal in the move list. */
  lemma DealOf(removes: seq<GameMove>, combos: seq<Combination>, x: Combination)
    requires x in combos
    ensures GameMove(DealCards(x.cards), x.score) in removes + Deals(combos)
  {
    var i :| 0 <= i < |combos| && combos[i] == x;
    assert (removes + Deals(combos))[|removes| + i] == GameMove(DealCards(x.cards), x.score);
  }

  /** Conversely every run of three hand cards is offered as a deal, for a
      hand in the table. */
  lemma MovesHasRun(table: ComboTable, hand: seq<nat>, deckNotEmpty: bool, a: nat, b: nat, c: nat)
    requires TableSound(table) && TableKeyed(table) && IsTableKey(hand)
    requires a in hand && b in hand && c in hand
    requires Value(b) == Value(a) + 1 && Value(c) == Value(a) + 2
    ensures Moves(table, hand, deckNotEmpty).Some?
    ensures exists m :: m in Moves(table, hand, deckNotEmpty).value && m.play == DealCards([a, b, c])
  {
    MovesOfKey(table, hand, deckNotEmpty);
    CardCombinationsHasRun(hand, a, b, c);
    var combos := CardCombinations(hand);
    var x :| x in combos && x.cards == [a, b, c];
    DealOf(if deckNotEmpty then Removals(hand) else [], combos, x);
  }

  /** Conversely every three of a kind in a hand of the table is offered as
      a deal. */
  lemma MovesHasTriple(table: ComboTable, hand: seq<nat>, deckNotEmpty: bool, a: nat, b: nat, c: nat)
    requires TableSound(table) && TableKeyed(table) && IsTableKey(hand)
    requires a in hand && b in hand && c in hand
    requires a != b && b != c && a != c
    requires Value(a) == Value(b) && Value(b) == Value(c)
    ensures Moves(table, hand, deckNotEmpty).Some?
    ensures exists m :: (m in Moves(table, hand, deckNotEmpty).value && m.play.DealCards? &&
                         a in m.play.cards && b in m.play.cards && c in m.play.cards)
  {
    MovesOfKey(table, hand, deckNotEmpty);
    StrictlyIncreasingNoDup(hand);
    CardCombinationsHasTriple(hand, a, b, c);
    var combos := CardCombinations(hand);
    var x :| x in combos && a in x.cards && b in x.cards && c in x.cards;
    DealOf(if deckNotEmpty then Removals(hand) else [], combos, x);
  }

  // --------------------------------------------------------------- outcomes

  /** `(new_hand, new_deck, new_score)`. */
  datatype Outcome = Outcome(hand: seq<nat>, deck: seq<nat>, score: nat)

  /** `list(outcomes(hand, deck, score, action, parameter, score_change))`.
      A removal refills the hand with each deck card in turn (or with nothing
      from an empty deck); a deal refills it with each three deck cards in
      `itertools.combinations` order, or with the whole deck once three or
      fewer cards are left. */
  function Outcomes(hand: seq<nat>, deck: seq<nat>, score: nat, play: Play, scoreChange: nat): seq<Outcome> {
    var newScore := score + scoreChange;
    match play
    case RemoveCard(card) =>
      var partial := Without(hand, card);
      if |deck| > 0 then
        seq(|deck|, i requires 0 <= i < |deck| =>
          Outcome(Sort(partial + [deck[i]]), Without(deck, deck[i]), newScore))
      else [Outcome(partial, deck, newScore)]
    case DealCards(cards) =>
      var partial := Minus(hand, cards);
      if |deck| > 3 then
        var triples := Combinations(deck, 3);
        seq(|triples|, i requires 0 <= i < |triples| =>
          Outcome(Sort(partial + triples[i]), Minus(deck, triples[i]), newScore))
      else [Outcome(Sort(partial + deck), [], newScore)]
  }

  /** The cards a play takes out of the hand. */
  function Played(play: Play): seq<nat> {
    match play
    case RemoveCard(card) => [card]
    case DealCards(cards) => cards
  }

  /** How many deck cards a play brings into the hand. */
  function Refill(play: Play, deckSize: nat): nat {
    match play
    case RemoveCard(_) => if deckSize > 0 then 1 else 0
    case DealCards(_) => if deckSize > 3 then 3 else deckSize
  }

  /** One outcome per deck card after a removal, one per three deck cards
      after a deal, and exactly one once the deck is used up; every outcome
      carries the score plus the play's score change. */
  lemma OutcomesCount(hand: seq<nat>, deck: seq<nat>, score: nat, play: Play, scoreChange: nat)
    ensures var r := Outcomes(hand, deck, score, play, scoreChange);
      |r| == (match play
              case RemoveCard(_) => if |deck| > 0 then |deck| else 1
              case DealCards(_) => if |deck| > 3 then Binom(|deck|, 3) else 1) &&
      forall o :: o in r ==> o.score == score + scoreChange
  {
    var r := Outcomes(hand, deck, score, play, scoreChange);
    if play.DealCards? && |deck| > 3 {
      CombinationsCount(deck, 3);
    }
    forall o | o in r ensures o.score == score + scoreChange {
      var i :| 0 <= i < |r| && r[i] == o;
    }
  }

  /** Taking the distinct cards `t` of a duplicate-free list out of it. */
  lemma MinusMultiset(s: seq<nat>, t: seq<nat>)
    requires NoDup(s) && NoDup(t)
    requires forall e :: e in t ==> e in s
    ensures multiset(Minus(s, t)) + multiset(t) == multiset(s)
  {
    NoDupMultiset(s);
    NoDupMultiset(t);
    forall e ensures (multiset(Minus(s, t)) + multiset(t))[e] == multiset(s)[e] {
      if e in t {
        assert e in s;
      }
    }
  }

  /** Removing a card that occurs once. */
  lemma WithoutMultiset(s: seq<nat>, x: nat)
    requires NoDup(s) && x in s
    ensures multiset(Without(s, x)) + multiset{x} == multiset(s)
  {
    NoDupMultiset(s);
    forall e ensures (multiset(Without(s, x)) + multiset{x})[e] == multiset(s)[e] {
    }
  }

  /** A sub-multiset of a duplicate-free list is duplicate-free. */
  lemma SubNoDup(a: seq<nat>, b: seq<nat>)
    requires NoDup(b) && multiset(a) <= multiset(b)
    ensures NoDup(a)
  {
    NoDupMultiset(b);
    assert forall e :: multiset(a)[e] <= multiset(b)[e];
    MultisetNoDup(a);
  }

  /** Filtering keeps a list sorted. */
  lemma {:induction false} WithoutSorted(s: seq<nat>, x: nat)
    requires Sorted(s)
    ensures Sorted(Without(s, x))
  {
    if |s| > 0 {
      WithoutSorted(s[1..], x);
      var rest := Without(s[1..], x);
      forall j | 0 <= j < |rest| ensures s[0] <= rest[j] {
        assert rest[j] in multiset(rest);
        assert rest[j] in s[1..];
      }
    }
  }

  lemma SplitNoDup(hand: seq<nat>, deck: seq<nat>)
    requires NoDup(hand + deck)
    ensures NoDup(hand) && NoDup(deck)
    ensures forall c :: c in hand ==> c !in deck
  {
    forall i, j | 0 <= i < j < |hand| ensures hand[i] != hand[j] {
      assert (hand + deck)[i] == hand[i] && (hand + deck)[j] == hand[j];
    }
    forall i, j | 0 <= i < j < |deck| ensures deck[i] != deck[j] {
      assert (hand + deck)[|hand| + i] == deck[i];
      assert (hand + deck)[|hand| + j] == deck[j];
    }
    forall c | c in hand ensures c !in deck {
      var i :| 0 <= i < |hand| && hand[i] == c;
      forall j | 0 <= j < |deck| ensures deck[j] != c {
        assert (hand + deck)[|hand| + j] == deck[j];
        assert (hand + deck)[i] == c;
      }
    }
  }

  /** Multiset bookkeeping of one outcome: `moved` goes from the deck to the
      partial hand, `played` left the hand before. */
  lemma Conserve(newHand: multiset<nat>, newDeck: multiset<nat>, partial: multiset<nat>, played: multiset<nat>,
                 hand: multiset<nat>, deck: multiset<nat>, moved: multiset<nat>)
    requires newHand == partial + moved && newDeck + moved == deck && partial + played == hand
    ensures newHand + newDeck + played == hand + deck
  {
  }

  /** The cards of a removal outcome: the played card leaves the hand, one
      deck card (if any is left) moves into it, nothing else changes. */
  lemma RemoveOutcome(hand: seq<nat>, deck: seq<nat>, card: nat, o: Outcome, score: nat, scoreChange: nat)
    requires NoDup(hand) && NoDup(deck) && card in hand
    requires o in Outcomes(hand, deck, score, RemoveCard(card), scoreChange)
    ensures multiset(o.hand) + multiset(o.deck) + multiset{card} == multiset(hand) + multiset(deck)
    ensures |o.deck| + Refill(RemoveCard(card), |deck|) == |deck|
  {
    if |deck| > 0 {
      var i := Position(o, Outcomes(hand, deck, score, RemoveCard(card), scoreChange));
      Refilled(hand, deck, card, i, o.hand, o.deck);
    } else {
      NotRefilled(hand, deck, card, o.hand, o.deck);
    }
  }

  /** A removal with nothing left to draw. */
  lemma NotRefilled(hand: seq<nat>, deck: seq<nat>, card: nat, newHand: seq<nat>, newDeck: seq<nat>)
    requires NoDup(hand) && card in hand
    requires newHand == Without(hand, card) && newDeck == deck
    ensures multiset(newHand) + multiset(newDeck) + multiset{card} == multiset(hand) + multiset(deck)
  {
    WithoutMultiset(hand, card);
  }

  /** A removal refilled from deck card `i`. */
  lemma Refilled(hand: seq<nat>, deck: seq<nat>, card: nat, i: nat, newHand: seq<nat>, newDeck: seq<nat>)
    requires NoDup(hand) && NoDup(deck) && card in hand && i < |deck|
    requires newHand == Sort(Without(hand, card) + [deck[i]]) && newDeck == Without(deck, deck[i])
    ensures multiset(newHand) + multiset(newDeck) + multiset{card} == multiset(hand) + multiset(deck)
    ensures |newDeck| + 1 == |deck|
  {
    var partial := Without(hand, card);
    WithoutMultiset(hand, card);
    WithoutMultiset(deck, deck[i]);
    assert multiset(newHand) == multiset(partial) + multiset{deck[i]};
    Conserve(multiset(newHand), multiset(newDeck), multiset(partial), multiset{card}, multiset(hand), multiset(deck), multiset{deck[i]});
    assert |multiset(newDeck)| + 1 == |multiset(deck)|;
  }

  /** The three cards of a combination of a duplicate-free deck are distinct
      deck cards. */
  lemma TripleOfDeck(deck: seq<nat>, t: seq<nat>)
    requires NoDup(deck) && t in Combinations(deck, 3)
    ensures |t| == 3 && NoDup(t) && forall e :: e in t ==> e in deck
  {
    CombinationsShape(deck, 3);
    SubNoDup(t, deck);
    forall e | e in t ensures e in deck {
      assert e in multiset(t);
    }
  }

  /** The cards of a deal outcome: the played cards leave the hand, up to
      three deck cards move into it, nothing else changes. */
  lemma DealOutcome(hand: seq<nat>, deck: seq<nat>, cards: seq<nat>, o: Outcome, score: nat, scoreChange: nat)
    requires NoDup(hand) && NoDup(deck) && NoDup(cards) && forall c :: c in cards ==> c in hand
    requires o in Outcomes(hand, deck, score, DealCards(cards), scoreChange)
    ensures multiset(o.hand) + multiset(o.deck) + multiset(cards) == multiset(hand) + multiset(deck)
    ensures |o.deck| + Refill(DealCards(cards), |deck|) == |deck|
  {
    if |deck| > 3 {
      var i := Position(o, Outcomes(hand, deck, score, DealCards(cards), scoreChange));
      DealRefilled(hand, deck, cards, Combinations(deck, 3)[i], o.hand, o.deck);
    } else {
      DealDrained(hand, deck, cards, o.hand, o.deck);
    }
  }

  /** A deal refilled with the deck triple `t`. */
  lemma DealRefilled(hand: seq<nat>, deck: seq<nat>, cards: seq<nat>, t: seq<nat>, newHand: seq<nat>, newDeck: seq<nat>)
    requires NoDup(hand) && NoDup(deck) && NoDup(cards) && forall c :: c in cards ==> c in hand
    requires t in Combinations(deck, 3)
    requires newHand == Sort(Minus(hand, cards) + t) && newDeck == Minus(deck, t)
    ensures multiset(newHand) + multiset(newDeck) + multiset(cards) == multiset(hand) + multiset(deck)
    ensures |newDeck| + 3 == |deck|
  {
    var partial := Minus(hand, cards);
    MinusMultiset(hand, cards);
    TripleOfDeck(deck, t);
    MinusMultiset(deck, t);
    assert multiset(newHand) == multiset(partial) + multiset(t);
    Conserve(multiset(newHand), multiset(newDeck), multiset(partial), multiset(cards), multiset(hand), multiset(deck), multiset(t));
    assert |multiset(newDeck)| + |multiset(t)| == |multiset(deck)|;
  }

  /** A deal that takes the rest of the deck. */
  lemma DealDrained(hand: seq<nat>, deck: seq<nat>, cards: seq<nat>, newHand: seq<nat>, newDeck: seq<nat>)
    requires NoDup(hand) && NoDup(cards) && forall c :: c in cards ==> c in hand
    requires newHand == Sort(Minus(hand, cards) + deck) && newDeck == []
    ensures multiset(newHand) + multiset(newDeck) + multiset(cards) == multiset(hand) + multiset(deck)
  {
    var partial := Minus(hand, cards);
    MinusMultiset(hand, cards);
    Conserve(multiset(newHand), multiset(newDeck), multiset(partial), multiset(cards), multiset(hand), multiset(deck), multiset(deck));
  }

  /** A play whose cards all come from the hand and are distinct. */
  predicate WellPlayed(hand: seq<nat>, deck: seq<nat>, play: Play) {
    NoDup(hand + deck) && NoDup(Played(play)) &&
    forall c :: c in Played(play) ==> c in hand
  }

  /** Conservation for one outcome, whatever the play. */
  lemma OutcomeConserves(hand: seq<nat>, deck: seq<nat>, score: nat, play: Play, scoreChange: nat, o: Outcome)
    requires NoDup(hand) && NoDup(deck) && NoDup(Played(play)) && forall c :: c in Played(play) ==> c in hand
    requires o in Outcomes(hand, deck, score, play, scoreChange)
    ensures multiset(o.hand) + multiset(o.deck) + multiset(Played(play)) == multiset(hand) + multiset(deck)
    ensures |o.deck| + Refill(play, |deck|) == |deck|
  {
    match play
    case RemoveCard(card) =>
      assert card in Played(play);
      RemoveOutcome(hand, deck, card, o, score, scoreChange);
    case DealCards(cards) =>
      DealOutcome(hand, deck, cards, o, score, scoreChange);
  }

  /** The hand after an outcome is sorted, except after a removal from an
      exhausted deck, where it is sorted when it was before. */
  lemma OutcomeSorted(hand: seq<nat>, deck: seq<nat>, score: nat, play: Play, scoreChange: nat, o: Outcome)
    requires o in Outcomes(hand, deck, score, play, scoreChange)
    requires Sorted(hand) || play.DealCards? || |deck| > 0
    ensures Sorted(o.hand)
  {
    if play.RemoveCard? && |deck| == 0 {
      WithoutSorted(hand, play.card);
    }
  }

  /** Every outcome of a well-formed play keeps all cards: the hand and deck
      afterwards hold the cards before, less the played ones, each once.
      The deck loses exactly the refilled cards and the hand gains them; the
      hand comes out sorted (after a removal from an exhausted deck, when it
      went in sorted). */
  lemma OutcomesConserve(hand: seq<nat>, deck: seq<nat>, score: nat, play: Play, scoreChange: nat)
    requires WellPlayed(hand, deck, play)
    ensures forall o :: o in Outcomes(hand, deck, score, play, scoreChange) ==>
      multiset(o.hand) + multiset(o.deck) + multiset(Played(play)) == multiset(hand) + multiset(deck) &&
      NoDup(o.hand + o.deck) &&
      |o.deck| + Refill(play, |deck|) == |deck| &&
      |o.hand| + |Played(play)| == |hand| + Refill(play, |deck|) &&
      (Sorted(hand) || play.DealCards? || |deck| > 0 ==> Sorted(o.hand))
  {
    SplitNoDup(hand, deck);
    forall o | o in Outcomes(hand, deck, score, play, scoreChange)
      ensures multiset(o.hand) + multiset(o.deck) + multiset(Played(play)) == multiset(hand) + multiset(deck)
      ensures NoDup(o.hand + o.deck)
      ensures |o.deck| + Refill(play, |deck|) == |deck|
      ensures |o.hand| + |Played(play)| == |hand| + Refill(play, |deck|)
      ensures Sorted(hand) || play.DealCards? || |deck| > 0 ==> Sorted(o.hand)
    {
      OutcomeConserves(hand, deck, score, play, scoreChange, o);
      OutcomeNoDup(hand, deck, Played(play), o.hand, o.deck);
      if Sorted(hand) || play.DealCards? || |deck| > 0 {
        OutcomeSorted(hand, deck, score, play, scoreChange, o);
      }
    }
  }

  /** Sizes and distinctness follow from the multiset balance. */
  lemma OutcomeNoDup(hand: seq<nat>, deck: seq<nat>, played: seq<nat>, newHand: seq<nat>, newDeck: seq<nat>)
    requires NoDup(hand + deck)
    requires multiset(newHand) + multiset(newDeck) + multiset(played) == multiset(hand) + multiset(deck)
    ensures NoDup(newHand + newDeck)
    ensures |newHand| + |newDeck| + |played| == |hand| + |deck|
  {
    var m := multiset(newHand + newDeck);
    assert m + multiset(played) == multiset(hand + deck);
    forall e ensures m[e] <= multiset(hand + deck)[e] {
      assert (m + multiset(played))[e] == m[e] + multiset(played)[e];
    }
    SubNoDup(newHand + newDeck, hand + deck);
    assert |multiset(newHand)| + |multiset(newDeck)| + |multiset(played)| == |multiset(hand)| + |multiset(deck)|;
  }

  /** Conversely, for a deck of distinct cards with more than three left,
      every choice of three distinct deck cards, in any order, appears among
      the outcomes of a deal. */
  lemma DealOutcomesComplete(hand: seq<nat>, deck: seq<nat>, score: nat, cards: seq<nat>, scoreChange: nat, t: seq<nat>)
    requires NoDup(deck) && |deck| > 3
    requires |t| == 3 && NoDup(t) && forall e :: e in t ==> e in deck
    ensures Outcome(Sort(Minus(hand, cards) + t), Minus(deck, t), score + scoreChange)
            in Outcomes(hand, deck, score, DealCards(cards), scoreChange)
  {
    // the same three cards, taken in deck order
    var c := Among(deck, t);
    AmongDistinct(deck, t);
    MinusSameMembers(deck, c, t);
    var partial := Minus(hand, cards);
    assert multiset(partial + c) == multiset(partial + t);
    SortedUnique(Sort(partial + c), Sort(partial + t));
    DealOutcomeOf(hand, deck, score, cards, scoreChange, c);
  }

  /** Each combination of three deck cards is dealt by one outcome. */
  lemma DealOutcomeOf(hand: seq<nat>, deck: seq<nat>, score: nat, cards: seq<nat>, scoreChange: nat, c: seq<nat>)
    requires |deck| > 3 && c in Combinations(deck, 3)
    ensures Outcome(Sort(Minus(hand, cards) + c), Minus(deck, c), score + scoreChange)
            in Outcomes(hand, deck, score, DealCards(cards), scoreChange)
  {
    var triples := Combinations(deck, 3);
    var i :| 0 <= i < |triples| && triples[i] == c;
    var r := Outcomes(hand, deck, score, DealCards(cards), scoreChange);
    assert r[i] == Outcome(Sort(Minus(hand, cards) + c), Minus(deck, c), score + scoreChange);
  }
}

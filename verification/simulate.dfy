/** The game loop `simulate_game` (mu_roomy.py) on sorted card lists: one
    turn applies the algorithm's choice, a remove drawing one card and a deal
    drawing up to three from the front of the deck. The algorithm is a
    parameter; shuffling and printing are not modelled. */
module Simulate {
  import opened Wrappers
  import opened Seqs
  import opened Scoring

  /** The algorithm's answer `(action, parameter)`. */
  datatype Choice = ChooseRemove(card: nat) | ChooseDeal(cards: seq<nat>) | ChooseAny

  datatype Game = Game(hand: seq<nat>, deck: seq<nat>, score: nat)

  /** How a turn ends: the game goes on, the algorithm ends it with
      `'any'`, or a `ValueError` or an assertion stops the program. */
  datatype Next = Continue(game: Game) | Stopped | Failed

  /** `s.index(x)`: the position of the first `x`. */
  function IndexOf(s: seq<nat>, x: nat): (i: nat)
    requires x in s
    ensures i < |s| && s[i] == x && x !in s[..i]
  {
    if s[0] == x then 0
    else
      var i := 1 + IndexOf(s[1..], x);
      assert s[..i] == [s[0]] + s[1..][..i - 1];
      i
  }

  /** `del s[s.index(x)]`: drops the first `x`; `None` for the `ValueError`
      when there is none. */
  function DeleteFirst(s: seq<nat>, x: nat): (r: Option<seq<nat>>)
    ensures r.Some? <==> x in s
    ensures r.Some? ==> multiset(r.value) == multiset(s) - multiset{x} && |r.value| + 1 == |s|
  {
    if x !in s then None
    else
      var i := IndexOf(s, x);
      assert s == s[..i] + [x] + s[i + 1..];
      Some(s[..i] + s[i + 1..])
  }

  /** `for card in parameter: del hand[hand.index(card)]`. */
  function DeleteAll(s: seq<nat>, cards: seq<nat>): Option<seq<nat>>
    decreases |cards|
  {
    if |cards| == 0 then Some(s)
    else
      match DeleteFirst(s, cards[0])
      case None => None
      case Some(t) => DeleteAll(t, cards[1..])
  }

  /** The deletions succeed exactly when the hand holds every card as often
      as the list names it, and then take exactly those cards away. */
  lemma {:induction false} DeleteAllSpec(s: seq<nat>, cards: seq<nat>)
    ensures DeleteAll(s, cards).Some? <==> multiset(cards) <= multiset(s)
    ensures DeleteAll(s, cards).Some? ==>
      multiset(DeleteAll(s, cards).value) == multiset(s) - multiset(cards) &&
      |DeleteAll(s, cards).value| + |cards| == |s|
    decreases |cards|
  {
    if |cards| > 0 {
      var c := cards[0];
      var rest := cards[1..];
      assert cards == [c] + rest;
      assert multiset(cards) == multiset{c} + multiset(rest);
      if c in s {
        var t := DeleteFirst(s, c).value;
        DeleteAllSpec(t, rest);
        assert multiset(t) == multiset(s) - multiset{c};
        Included(multiset(s), multiset(rest), c);
      } else {
        assert multiset(cards)[c] > 0 && multiset(s)[c] == 0;
      }
    }
  }

  /** Taking one `c` and then `rest` is taking `{c} + rest`, when `c` is there. */
  lemma Included(m: multiset<nat>, rest: multiset<nat>, c: nat)
    requires c in m
    ensures rest <= m - multiset{c} <==> multiset{c} + rest <= m
    ensures rest <= m - multiset{c} ==> m - multiset{c} - rest == m - (multiset{c} + rest)
  {
    if multiset{c} + rest <= m {
      forall e ensures rest[e] <= (m - multiset{c})[e] {
        assert (multiset{c} + rest)[e] <= m[e];
      }
    }
  }

  /** One turn of the loop of `simulate_game` with the algorithm's choice. */
  function Turn(g: Game, c: Choice): Next {
    match c
    case ChooseRemove(card) =>
      (match DeleteFirst(g.hand, card)
       case None => Failed
       case Some(h) =>
         if |g.deck| > 0 then Continue(Game(Sort(h + [g.deck[0]]), g.deck[1..], g.score))
         else Continue(Game(Sort(h), g.deck, g.score)))
    case ChooseDeal(cards) => DealTurn(g, cards, ScoreCombination(cards))
    case ChooseAny => Stopped
  }

  /** A deal turn once `score_combination` has given `score`. */
  function DealTurn(g: Game, cards: seq<nat>, score: Option<nat>): Next {
    match score
    case None => Failed
    case Some(change) =>
      match DeleteAll(g.hand, cards)
      case None => Failed
      case Some(h) =>
        if |g.deck| >= 3 then Continue(Game(Sort(h + g.deck[..3]), g.deck[3..], g.score + change))
        else Continue(Game(Sort(h + g.deck), [], g.score + change))
  }

  /** The cards a choice plays. */
  function Played(c: Choice): seq<nat> {
    match c
    case ChooseRemove(card) => [card]
    case ChooseDeal(cards) => cards
    case ChooseAny => []
  }

  /** How many deck cards a choice draws from a deck of `n`. */
  function Refill(c: Choice, n: nat): nat {
    match c
    case ChooseRemove(_) => if n > 0 then 1 else 0
    case ChooseDeal(_) => if n >= 3 then 3 else n
    case ChooseAny => 0
  }

  /** A turn fails exactly on a card not in the hand or a deal that does
      not score or names cards the hand lacks. Otherwise it moves the played
      cards out, draws `Refill` cards from the front of the deck into the
      sorted hand, keeps every other card, shrinks `len(hand) + len(deck)`
      by 1 for a remove and by at least 3 for a deal, and adds the deal's
      score. */
  lemma TurnSpec(g: Game, c: Choice)
    ensures Turn(g, c).Failed? <==>
      (c.ChooseRemove? && c.card !in g.hand) ||
      (c.ChooseDeal? &&
       (ScoreCombination(c.cards).None? || !(multiset(c.cards) <= multiset(g.hand))))
    ensures Turn(g, c).Stopped? <==> c.ChooseAny?
    ensures Turn(g, c).Continue? ==>
      var n := Turn(g, c).game;
      var k := Refill(c, |g.deck|);
      Sorted(n.hand) && n.deck == g.deck[k..] &&
      multiset(n.hand) == multiset(g.hand) - multiset(Played(c)) + multiset(g.deck[..k]) &&
      |n.hand| + |Played(c)| == |g.hand| + k &&
      (c.ChooseDeal? ==> |c.cards| >= 3 && n.score == g.score + ScoreCombination(c.cards).value) &&
      (c.ChooseRemove? ==> n.score == g.score)
  {
    match c
    case ChooseRemove(card) => TurnRemove(g, card);
    case ChooseDeal(cards) => TurnDeal(g, cards);
    case ChooseAny =>
  }

  lemma TurnRemove(g: Game, card: nat)
    ensures Turn(g, ChooseRemove(card)).Continue? <==> card in g.hand
    ensures card in g.hand ==>
      var n := Turn(g, ChooseRemove(card)).game;
      var k := Refill(ChooseRemove(card), |g.deck|);
      Sorted(n.hand) && n.deck == g.deck[k..] && n.score == g.score &&
      multiset(n.hand) == multiset(g.hand) - multiset{card} + multiset(g.deck[..k]) &&
      |n.hand| + 1 == |g.hand| + k
  {
    if card in g.hand && |g.deck| > 0 {
      assert g.deck[..1] == [g.deck[0]];
    }
  }

  lemma TurnDeal(g: Game, cards: seq<nat>)
    ensures Turn(g, ChooseDeal(cards)).Continue? <==>
      ScoreCombination(cards).Some? && multiset(cards) <= multiset(g.hand)
    ensures Turn(g, ChooseDeal(cards)).Continue? ==>
      var n := Turn(g, ChooseDeal(cards)).game;
      var k := Refill(ChooseDeal(cards), |g.deck|);
      Sorted(n.hand) && n.deck == g.deck[k..] &&
      multiset(n.hand) == multiset(g.hand) - multiset(cards) + multiset(g.deck[..k]) &&
      |n.hand| + |cards| == |g.hand| + k &&
      |cards| >= 3 && n.score == g.score + ScoreCombination(cards).value
  {
    DealTurnSpec(g, cards, ScoreCombination(cards));
  }

  lemma DealTurnSpec(g: Game, cards: seq<nat>, score: Option<nat>)
    requires score.Some? ==> |cards| >= 3
    ensures DealTurn(g, cards, score).Continue? <==> score.Some? && multiset(cards) <= multiset(g.hand)
    ensures DealTurn(g, cards, score).Continue? ==>
      var n := DealTurn(g, cards, score).game;
      var k := Refill(ChooseDeal(cards), |g.deck|);
      Sorted(n.hand) && n.deck == g.deck[k..] &&
      multiset(n.hand) == multiset(g.hand) - multiset(cards) + multiset(g.deck[..k]) &&
      |n.hand| + |cards| == |g.hand| + k && n.score == g.score + score.value
  {
    DeleteAllSpec(g.hand, cards);
    if DealTurn(g, cards, score).Continue? {
      var h := DeleteAll(g.hand, cards).value;
      var k := Refill(ChooseDeal(cards), |g.deck|);
      if |g.deck| < 3 {
        assert g.deck[..|g.deck|] == g.deck;
      }
      Refilled(g, cards, h, k, g.score + score.value);
    }
  }

  /** Refilling the hand `h` left after playing `played` with the first
      `k` deck cards. */
  lemma Refilled(g: Game, played: seq<nat>, h: seq<nat>, k: nat, score: nat)
    requires k <= |g.deck| && multiset(played) <= multiset(g.hand)
    requires multiset(h) == multiset(g.hand) - multiset(played) && |h| + |played| == |g.hand|
    ensures var n := Game(Sort(h + g.deck[..k]), g.deck[k..], score);
      Sorted(n.hand) && n.deck == g.deck[k..] &&
      multiset(n.hand) == multiset(g.hand) - multiset(played) + multiset(g.deck[..k]) &&
      |n.hand| + |played| == |g.hand| + k
  {
  }

  /** `len(hand) + len(deck)`, the measure the loop shrinks. */
  function Cards(g: Game): nat {
    |g.hand| + |g.deck|
  }

  /** A turn that goes on shrinks `len(hand) + len(deck)`. */
  lemma TurnShrinks(g: Game, c: Choice)
    requires Turn(g, c).Continue?
    ensures Cards(Turn(g, c).game) < Cards(g)
  {
    var n := Turn(g, c).game;
    var k := Refill(c, |g.deck|);
    match c
    case ChooseRemove(card) =>
      TurnRemove(g, card);
      assert |n.hand| + 1 == |g.hand| + k && |n.deck| + k == |g.deck|;
    case ChooseDeal(cards) =>
      TurnDeal(g, cards);
      assert |n.hand| + |cards| == |g.hand| + k && |n.deck| + k == |g.deck|;
  }

  /** The points a choice scores: a deal's combination score, else 0. */
  function Points(c: Choice): nat {
    match c
    case ChooseDeal(cards) => ScoreCombination(cards).GetOr(0)
    case _ => 0
  }

  /** A turn that goes on adds the choice's points. */
  lemma TurnGain(g: Game, c: Choice)
    requires Turn(g, c).Continue?
    ensures Turn(g, c).game.score == g.score + Points(c)
  {
    match c
    case ChooseRemove(card) =>
      TurnRemove(g, card);
    case ChooseDeal(cards) =>
      TurnDeal(g, cards);
  }

  /** A choice scores a multiple of 10, at most 100. */
  lemma PointsTens(c: Choice)
    ensures Points(c) % 10 == 0 && Points(c) <= 100
  {
    if c.ChooseDeal? {
      ScoreTens(c.cards);
    }
  }

  /** `simulate_game(algo, hand, deck)` from score `g.score`: the final
      score, or `None` when a turn fails. */
  function Play(algo: (seq<nat>, seq<nat>, nat) -> Choice, g: Game): Option<nat>
    decreases Cards(g)
  {
    if |g.hand| < 3 then Some(g.score)
    else
      var c := algo(g.hand, g.deck, g.score);
      match Turn(g, c)
      case Failed => None
      case Stopped => Some(g.score)
      case Continue(next) =>
        TurnShrinks(g, c);
        Play(algo, next)
  }

  /** A game never loses points: each turn keeps the score or adds a
      combination score. */
  lemma {:induction false} PlayScore(algo: (seq<nat>, seq<nat>, nat) -> Choice, g: Game)
    ensures Play(algo, g).Some? ==> Play(algo, g).value >= g.score
    decreases Cards(g)
  {
    if |g.hand| >= 3 {
      var c := algo(g.hand, g.deck, g.score);
      if Turn(g, c).Continue? {
        var next := Turn(g, c).game;
        TurnShrinks(g, c);
        TurnGain(g, c);
        PlayScore(algo, next);
      }
    }
  }
}

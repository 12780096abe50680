/** Storage-layout counting (scratchpad.py): which hands a value pattern
    stands for, which compact decks survive symmetry reduction, how many
    table slots each canonical hand gets, and the running offsets of the
    hands in the table. File I/O and printing are not modelled; the
    factorization is passed in as data. */
module Layout {
  import opened Wrappers
  import opened Seqs
  import opened Bits
  import opened CardSets
  import opened Radix
  import opened Shapes
  import opened Symmetry
  import opened Compaction

  // ------------------------------------------------- colourings and hands

  /** The number of colourings, `int('100000', 3)`. */
  const Colourings: nat := 243

  /** The colours of colouring `i`: `to_base(i, 3, zfill=5)` read back digit
      by digit (`Radix.ToBaseDigits`). */
  function Colouring(i: nat): seq<nat> {
    Padded(i, 3, 5)
  }

  /** Every colouring of the loop is five colours below 3. */
  lemma ColouringSpec(i: nat)
    requires i < Colourings
    ensures |Colouring(i)| == 5 && AllBelow(Colouring(i), 3)
  {
    PaddedSpec(i, 3, 5);
    assert Power(3, 5) == 243;
  }

  /** `zip(values, colours)` as cards `v + c * 8`. */
  function CardsOf(values: seq<nat>, colours: seq<nat>): (r: seq<nat>)
    ensures |r| == if |values| <= |colours| then |values| else |colours|
    ensures forall k :: 0 <= k < |r| ==> r[k] == values[k] + colours[k] * 8
  {
    var n := if |values| <= |colours| then |values| else |colours|;
    seq(n, k requires 0 <= k < n => values[k] + colours[k] * 8)
  }

  /** The hand loop `hand |= 1 << (v + c * 8)`. */
  function HandFor(values: seq<nat>, colours: seq<nat>): nat {
    ListToBinary(CardsOf(values, colours))
  }

  /** A mask built from a list has as many cards as the list exactly when
      no card is listed twice; never more. */
  lemma {:induction false} NumOnesOfList(l: seq<nat>)
    ensures NumOnes(ListToBinary(l)) <= |l|
    ensures NumOnes(ListToBinary(l)) == |l| <==> NoDup(l)
  {
    if |l| > 0 {
      var x, rest := l[0], l[1..];
      NumOnesOfList(rest);
      var m, r := ListToBinary(l), ListToBinary(rest);
      if x in rest {
        forall i: nat ensures Bit(m, i) == Bit(r, i) {
          assert i in l <==> i in rest;
        }
        Extensionality(m, r);
        var j :| 0 <= j < |rest| && rest[j] == x;
        assert l[0] == l[j + 1];
      } else {
        Pow2Bits(x);
        forall i: nat ensures Bit(m, i) == Bit(Or(Pow2(x), r), i) {
          assert i in l <==> i == x || i in rest;
        }
        Extensionality(m, Or(Pow2(x), r));
        NumOnesDisjointOr(Pow2(x), r);
        Pow2NumOnes(x);
        assert NoDup(l) <==> NoDup(rest) by {
          if NoDup(rest) {
            forall i, j | 0 <= i < j < |l| ensures l[i] != l[j] {
              if i == 0 {
                assert l[j] == rest[j - 1];
              } else {
                assert l[i] == rest[i - 1] && l[j] == rest[j - 1];
              }
            }
          }
          if NoDup(l) {
            forall i, j | 0 <= i < j < |rest| ensures rest[i] != rest[j] {
              assert rest[i] == l[i + 1] && rest[j] == l[j + 1];
            }
          }
        }
      }
    }
  }

  /** One step of the colouring loop: `hand` joins `used` unless its cards
      collide (`num_ones(hand) != 5`) or it is already there. */
  function Keep(used: seq<nat>, hand: nat): seq<nat> {
    if NumOnes(hand) != 5 || hand in used then used else used + [hand]
  }

  lemma KeepSpec(used: seq<nat>, hand: nat)
    requires NoDup(used)
    ensures NoDup(Keep(used, hand))
    ensures forall h :: h in Keep(used, hand) <==> h in used || (h == hand && NumOnes(h) == 5)
  {
  }

  /** The colouring loop over a list of candidate hands: each five-card
      hand is processed once, in the order the loop meets it. */
  function Dedup(hands: seq<nat>): seq<nat> {
    if |hands| == 0 then [] else Keep(Dedup(hands[..|hands| - 1]), hands[|hands| - 1])
  }

  /** The processed hands are distinct, and they are exactly the candidate
      hands of five cards. */
  lemma {:induction false} DedupSpec(hands: seq<nat>)
    ensures NoDup(Dedup(hands))
    ensures forall h :: h in Dedup(hands) <==> h in hands && NumOnes(h) == 5
  {
    if |hands| > 0 {
      var init := hands[..|hands| - 1];
      DedupSpec(init);
      KeepSpec(Dedup(init), hands[|hands| - 1]);
      assert hands == init + [hands[|hands| - 1]];
    }
  }

  /** The candidate hand of every colouring, in loop order. */
  function Candidates(values: seq<nat>): (r: seq<nat>)
    ensures |r| == Colourings
    ensures forall i :: 0 <= i < Colourings ==> r[i] == HandFor(values, Colouring(i))
  {
    seq(Colourings, (i: nat) => HandFor(values, Colouring(i)))
  }

  /** `used` after the colouring loop of `calc_factorization_for_values`. */
  function UsedHands(values: seq<nat>): seq<nat> {
    Dedup(Candidates(values))
  }

  /** Colourings whose cards collide are skipped and every distinct hand is
      processed once: the used hands are distinct, and they are exactly the
      five-card hands of some colouring. */
  lemma UsedHandsSpec(values: seq<nat>)
    ensures NoDup(UsedHands(values))
    ensures forall h :: h in UsedHands(values) <==>
      NumOnes(h) == 5 && exists i :: 0 <= i < Colourings && HandFor(values, Colouring(i)) == h
  {
    var c := Candidates(values);
    DedupSpec(c);
    forall h ensures h in c <==> exists i :: 0 <= i < Colourings && HandFor(values, Colouring(i)) == h {
      if h in c {
        var i :| 0 <= i < |c| && c[i] == h;
      }
    }
  }

  /** A colouring of five values gives a five-card hand exactly when no
      two of its cards coincide; the cards are below 24 when the values
      are below 8. */
  lemma HandForSpec(values: seq<nat>, i: nat)
    requires |values| == 5 && i < Colourings
    ensures NumOnes(HandFor(values, Colouring(i))) == 5 <==> NoDup(CardsOf(values, Colouring(i)))
    ensures AllBelow(values, 8) ==> HandFor(values, Colouring(i)) < Pow2(24)
  {
    ColouringSpec(i);
    var cards := CardsOf(values, Colouring(i));
    NumOnesOfList(cards);
    if AllBelow(values, 8) {
      CardsBelow24(cards);
    }
  }

  /** Every used hand of values below 8 is a 24-bit five-card hand. */
  lemma UsedHandsBelow(values: seq<nat>, h: nat)
    requires |values| == 5 && AllBelow(values, 8)
    requires h in UsedHands(values)
    ensures h < Pow2(24) && NumOnes(h) == 5
  {
    UsedHandsSpec(values);
    var i :| 0 <= i < Colourings && HandFor(values, Colouring(i)) == h;
    HandForSpec(values, i);
  }

  // ------------------------------------------------------ canonical hands

  /** The test `canonicalize(State(0, hand, 0)).hand == hand`. */
  predicate CanonicalHand(hand: nat) {
    Canonicalize(State(0, hand, 0)).hand == hand
  }

  /** The hand of every canonical state is a canonical hand: the least
      recolouring of `(hand, deck)` starts with the least recolouring of
      `hand`. */
  lemma CanonicalHandOf(st: State)
    ensures CanonicalHand(Canonicalize(st).hand)
  {
    var r := Canonicalize(st);
    var k := r.hand;
    CanonicalizeIsLeast(st);
    var p :| p in Perms && k == ApplyPermutation(st.hand, p) && r.deck == ApplyPermutation(st.deck, p);
    var c := Canonicalize(State(0, k, 0));
    CanonicalizeIsLeast(State(0, k, 0));
    var q :| q in Perms && c.hand == ApplyPermutation(k, q) && c.deck == ApplyPermutation(0, q);
    ApplyPermutationBelow(st.hand, p);
    CanonicalizeBelow(State(0, k, 0));
    ApplyCompose(st.hand, p, q);
    PermsComplete(Compose(p, q));
    assert LexLe((k, r.deck), (ApplyPermutation(st.hand, Compose(p, q)), ApplyPermutation(st.deck, Compose(p, q))));
  }

  /** Recolouring the empty mask leaves it empty. */
  lemma ApplyEmpty(p: Perm)
    ensures ApplyPermutation(0, p) == 0
  {
    forall i: nat ensures Bit(ApplyPermutation(0, p), i) == Bit(0, i) {
      PermutedBit(0, p, i);
      ZeroHasNoBit(i);
      if i < 24 {
        ZeroHasNoBit(Source(p, i));
      }
    }
    Extensionality(ApplyPermutation(0, p), 0);
  }

  /** Each class of recoloured hands holds one canonical hand: two
      canonical hands that are recolourings of each other are equal. */
  lemma CanonicalPerOrbit(hand: nat, p: Perm)
    requires CanonicalHand(hand) && CanonicalHand(ApplyPermutation(hand, p))
    ensures ApplyPermutation(hand, p) == hand
  {
    ApplyEmpty(p);
    assert Recolour(State(0, hand, 0), p) == State(0, ApplyPermutation(hand, p), 0);
    CanonicalizeInvariant(State(0, hand, 0), p);
  }

  // ---------------------------------------------------------- the factor

  /** One slot per compact deck of a five-card hand, `2**19`. */
  const Slots: nat := 524288

  lemma SlotsPow2()
    ensures Slots == Pow2(24 - 5)
  {
    assert Pow2(4) == 16;
    assert Pow2(8) == 256 by {
      assert Pow2(8) == 2 * 2 * 2 * 2 * Pow2(4);
    }
    assert Pow2(12) == 4096 by {
      assert Pow2(12) == 2 * 2 * 2 * 2 * Pow2(8);
    }
    assert Pow2(16) == 65536 by {
      assert Pow2(16) == 2 * 2 * 2 * 2 * Pow2(12);
    }
    assert Pow2(19) == 2 * 2 * 2 * Pow2(16);
  }

  /** A fresh row of the defaultdict, `[0] * (2**19)`. */
  function Zeros(): seq<nat> {
    seq(Slots, (_: nat) => 0)
  }

  /** The `factor` defaultdict as its items in insertion order: a
      canonical hand and its row of marks, one per compact deck. */
  type Factor = seq<(nat, seq<nat>)>

  /** A row of marks: `2**19` entries, each 0 or 1. */
  predicate Row(row: seq<nat>) {
    |row| == Slots && forall i :: 0 <= i < |row| ==> row[i] <= 1
  }

  /** The shape the loop keeps: keys once each, every row a row of marks. */
  predicate Shaped(f: Factor) {
    NoDup(Firsts(f)) && forall i :: 0 <= i < |f| ==> Row(f[i].1)
  }

  /** Every key is a canonical hand of five cards below 24 bits. */
  predicate GoodKeys(f: Factor) {
    forall i :: 0 <= i < |f| ==> GoodKey(f[i].0)
  }

  /** `factor[key][idx] = 1`: a missing key first gets a row of zeros;
      `None` for the `IndexError` of an index past the row. */
  function SetMark(f: Factor, key: nat, idx: nat): Option<Factor>
    decreases |f|
  {
    if |f| == 0 then
      if idx < Slots then Some([(key, Zeros()[idx := 1])]) else None
    else if f[0].0 == key then
      if idx < |f[0].1| then Some([(key, f[0].1[idx := 1])] + f[1..]) else None
    else
      match SetMark(f[1..], key, idx)
      case None => None
      case Some(t) => Some([f[0]] + t)
  }

  /** Marking an index of a row adds the key if it is new and keeps the
      factor's shape. */
  lemma {:induction false} SetMarkShape(f: Factor, key: nat, idx: nat)
    requires Shaped(f) && idx < Slots
    ensures SetMark(f, key, idx).Some?
    ensures var r := SetMark(f, key, idx).value;
      Shaped(r) && forall k :: k in Firsts(r) <==> k in Firsts(f) || k == key
    decreases |f|
  {
    if |f| > 0 && f[0].0 != key {
      SetMarkShape(f[1..], key, idx);
      var t := SetMark(f[1..], key, idx).value;
      var r := [f[0]] + t;
      assert Firsts(r) == [f[0].0] + Firsts(t);
      assert Firsts(f) == [f[0].0] + Firsts(f[1..]);
      assert f[0].0 !in Firsts(f[1..]);
      assert f[0].0 !in Firsts(t);
      forall i | 0 <= i < |r| ensures Row(r[i].1) {
        if i > 0 {
          assert r[i] == t[i - 1];
        }
      }
    } else if |f| > 0 {
      assert Row(f[0].1);
      var r := SetMark(f, key, idx).value;
      assert Firsts(r) == Firsts(f);
      assert Firsts(f)[0] == key;
      assert Row(r[0].1);
      forall i | 0 < i < |r| ensures Row(r[i].1) {
        assert r[i] == f[i];
      }
    } else {
      var r := SetMark(f, key, idx).value;
      assert Firsts(r) == [key];
      assert Row(r[0].1);
    }
  }

  /** Marking sets entry `idx` of the key's row to 1 and leaves every other
      row as it was. */
  lemma {:induction false} SetMarkRows(f: Factor, key: nat, idx: nat)
    requires Shaped(f) && idx < Slots
    requires SetMark(f, key, idx).Some?
    ensures Marked(SetMark(f, key, idx).value, f, key, idx)
    decreases |f|
  {
    if |f| > 0 && f[0].0 != key {
      SetMarkRows(f[1..], key, idx);
      MarkedBelow(f, SetMark(f[1..], key, idx).value, key, idx);
    } else if |f| > 0 {
      MarkedHead(f, key, idx);
    } else {
      MarkedFresh(key, idx);
    }
  }

  /** Rows of `r` with another key come from `f`; the row of `key` has a 1
      at `idx`. */
  ghost predicate Marked(r: Factor, f: Factor, key: nat, idx: nat) {
    (forall i :: 0 <= i < |r| && r[i].0 != key ==> r[i] in f) &&
    (forall i :: 0 <= i < |r| && r[i].0 == key ==> idx < |r[i].1| && r[i].1[idx] == 1)
  }

  lemma MarkedBelow(f: Factor, t: Factor, key: nat, idx: nat)
    requires |f| > 0 && f[0].0 != key && Marked(t, f[1..], key, idx)
    ensures Marked([f[0]] + t, f, key, idx)
  {
    var r := [f[0]] + t;
    forall i | 0 < i < |r| ensures r[i] == t[i - 1] {
    }
    forall i | 0 < i < |r| && r[i].0 != key ensures r[i] in f {
      assert t[i - 1] in f[1..];
    }
  }

  lemma MarkedHead(f: Factor, key: nat, idx: nat)
    requires Shaped(f) && |f| > 0 && f[0].0 == key && idx < |f[0].1|
    ensures Marked([(key, f[0].1[idx := 1])] + f[1..], f, key, idx)
  {
    var r := [(key, f[0].1[idx := 1])] + f[1..];
    forall i | 0 < i < |r| ensures r[i] == f[i] && r[i].0 != key {
      assert Firsts(f)[i] != Firsts(f)[0];
    }
  }

  lemma MarkedFresh(key: nat, idx: nat)
    requires idx < Slots
    ensures Marked([(key, Zeros()[idx := 1])], [], key, idx)
  {
  }

  /** A key the loop may create: a canonical hand of five cards below
      24 bits. */
  predicate GoodKey(k: nat) {
    CanonicalHand(k) && k < Pow2(24) && NumOnes(k) == 5
  }

  /** Where compact deck `compact` of `hand` gets its mark: the canonical
      hand and the canonical compact deck. `None` when the deck meets the
      hand (the assertion) or `compactify_deck` fails. */
  function Target(hand: nat, compact: nat): Option<(nat, nat)> {
    var deck := Expand(hand, compact);
    if And(hand, deck) != 0 then None
    else
      var cs := Canonicalize(State(0, hand, deck));
      match Compactify(cs.hand, cs.deck)
      case None => None
      case Some(idx) => Some((cs.hand, idx))
  }

  /** For a 24-bit five-card hand every compact deck below `2**19` expands
      to a deck that misses the hand, and its mark goes to a canonical hand
      at an index inside the row. */
  lemma TargetSpec(hand: nat, compact: nat)
    requires hand < Pow2(24) && NumOnes(hand) == 5 && compact < Slots
    ensures Target(hand, compact).Some?
    ensures GoodKey(Target(hand, compact).value.0) && Target(hand, compact).value.1 < Slots
  {
    var deck := Expand(hand, compact);
    SlotsPow2();
    ExpandDisjoint(hand, compact);
    ExpandBelow(hand, compact, 24);
    DisjointIffAndZero(hand, deck);
    var cs := Canonicalize(State(0, hand, deck));
    CanonicalCompact(hand, deck);
    TargetIs(hand, compact, cs, Compactify(cs.hand, cs.deck).value);
  }

  /** A 24-bit deck that misses a 24-bit five-card hand keeps doing so
      under the canonical recolouring, which compacts it below `2**19`. */
  lemma CanonicalCompact(hand: nat, deck: nat)
    requires hand < Pow2(24) && deck < Pow2(24) && NumOnes(hand) == 5 && Disjoint(hand, deck)
    ensures var cs := Canonicalize(State(0, hand, deck));
      Compactify(cs.hand, cs.deck).Some? && Compactify(cs.hand, cs.deck).value < Slots && GoodKey(cs.hand)
  {
    var st := State(0, hand, deck);
    var cs := Canonicalize(st);
    SlotsPow2();
    CanonicalizeIsLeast(st);
    var p :| p in Perms && cs.hand == ApplyPermutation(hand, p) && cs.deck == ApplyPermutation(deck, p);
    RecolouredCompact(hand, deck, p);
    CanonicalHandOf(st);
  }

  lemma RecolouredCompact(hand: nat, deck: nat, p: Perm)
    requires hand < Pow2(24) && NumOnes(hand) == 5 && Disjoint(hand, deck)
    ensures var h, d := ApplyPermutation(hand, p), ApplyPermutation(deck, p);
      h < Pow2(24) && NumOnes(h) == 5 &&
      Compactify(h, d).Some? && Compactify(h, d).value < Pow2(24 - 5)
  {
    var h, d := ApplyPermutation(hand, p), ApplyPermutation(deck, p);
    ApplyKeepsDisjoint(hand, deck, p);
    ApplyKeepsNumOnes(hand, p);
    ApplyPermutationBelow(hand, p);
    ApplyPermutationBelow(deck, p);
    ExpandCompactify(h, d);
    CompactifyBelow(h, d, 24);
  }

  lemma TargetIs(hand: nat, compact: nat, cs: State, idx: nat)
    requires And(hand, Expand(hand, compact)) == 0
    requires cs == Canonicalize(State(0, hand, Expand(hand, compact)))
    requires Compactify(cs.hand, cs.deck) == Some(idx)
    ensures Target(hand, compact) == Some((cs.hand, idx))
  {
  }

  /** The targets of the compact decks `0 .. 2**19 - 1` of `hand`, in loop order. */
  function Targets(hand: nat): (r: seq<Option<(nat, nat)>>)
    ensures |r| == Slots && forall c :: 0 <= c < Slots ==> r[c] == Target(hand, c)
  {
    seq(Slots, (c: nat) => Target(hand, c))
  }

  /** What the loop has built so far: the factor and `num_states`. */
  datatype Factoring = Factoring(factor: Factor, states: nat)

  /** The compact-deck loop of one hand: each target in turn is marked and
      counts one state; `None` as soon as one fails. */
  function MarkAll(a: Factoring, targets: seq<Option<(nat, nat)>>): Option<Factoring> {
    if |targets| == 0 then Some(a)
    else
      match MarkAll(a, targets[..|targets| - 1])
      case None => None
      case Some(b) =>
        match targets[|targets| - 1]
        case None => None
        case Some(t) =>
          match SetMark(b.factor, t.0, t.1)
          case None => None
          case Some(f) => Some(Factoring(f, b.states + 1))
  }

  /** The keys the targets mark. */
  function TargetKeys(targets: seq<Option<(nat, nat)>>): set<nat> {
    set t | t in targets && t.Some? :: t.value.0
  }

  /** Targets inside the row are all marked: one state each; the factor
      keeps its shape and gains only the targets' keys. */
  lemma {:induction false} MarkAllSpec(a: Factoring, targets: seq<Option<(nat, nat)>>)
    requires Shaped(a.factor)
    requires forall i :: 0 <= i < |targets| ==> targets[i].Some? && targets[i].value.1 < Slots
    ensures MarkAll(a, targets).Some?
    ensures Shaped(MarkAll(a, targets).value.factor)
    ensures MarkAll(a, targets).value.states == a.states + |targets|
    ensures forall k :: k in Firsts(MarkAll(a, targets).value.factor) ==>
      k in Firsts(a.factor) || k in TargetKeys(targets)
  {
    if |targets| > 0 {
      var init := targets[..|targets| - 1];
      MarkAllSpec(a, init);
      var b := MarkAll(a, init).value;
      var t := targets[|targets| - 1].value;
      SetMarkShape(b.factor, t.0, t.1);
      assert targets[|targets| - 1] in targets;
      forall k | k in TargetKeys(init) ensures k in TargetKeys(targets) {
        var u :| u in init && u.Some? && u.value.0 == k;
        assert u in targets;
      }
    }
  }

  /** Keys drawn from good keys are good. */
  lemma GoodKeysFrom(f: Factor, g: Factor, extra: set<nat>)
    requires GoodKeys(f)
    requires forall k :: k in extra ==> GoodKey(k)
    requires forall k :: k in Firsts(g) ==> k in Firsts(f) || k in extra
    ensures GoodKeys(g)
  {
    forall i | 0 <= i < |g| ensures GoodKey(g[i].0) {
      assert g[i].0 in Firsts(g);
      if g[i].0 in Firsts(f) {
        var j :| 0 <= j < |f| && Firsts(f)[j] == g[i].0;
      }
    }
  }

  /** The targets of a 24-bit five-card hand are all inside the row, and
      their keys are good. */
  lemma TargetsSpec(hand: nat)
    requires hand < Pow2(24) && NumOnes(hand) == 5
    ensures forall i :: 0 <= i < |Targets(hand)| ==>
      Targets(hand)[i].Some? && GoodKey(Targets(hand)[i].value.0) && Targets(hand)[i].value.1 < Slots
  {
    var ts := Targets(hand);
    forall i | 0 <= i < |ts| ensures ts[i].Some? && GoodKey(ts[i].value.0) && ts[i].value.1 < Slots {
      TargetSpec(hand, i);
      assert ts[i] == Target(hand, i);
    }
  }

  lemma GoodTargetKeys(ts: seq<Option<(nat, nat)>>)
    requires forall i :: 0 <= i < |ts| ==> ts[i].Some? && GoodKey(ts[i].value.0)
    ensures forall k :: k in TargetKeys(ts) ==> GoodKey(k)
  {
    forall k | k in TargetKeys(ts) ensures GoodKey(k) {
      var u :| u in ts && u.Some? && u.value.0 == k;
      var i :| 0 <= i < |ts| && ts[i] == u;
    }
  }

  /** The hand loop: every used hand runs through all its compact decks. */
  function MarkHands(a: Factoring, hands: seq<nat>): Option<Factoring> {
    if |hands| == 0 then Some(a)
    else
      match MarkHands(a, hands[..|hands| - 1])
      case None => None
      case Some(b) => MarkAll(b, Targets(hands[|hands| - 1]))
  }

  lemma {:induction false} MarkHandsSpec(a: Factoring, hands: seq<nat>)
    requires Shaped(a.factor) && GoodKeys(a.factor)
    requires forall i :: 0 <= i < |hands| ==> hands[i] < Pow2(24) && NumOnes(hands[i]) == 5
    ensures MarkHands(a, hands).Some?
    ensures Shaped(MarkHands(a, hands).value.factor) && GoodKeys(MarkHands(a, hands).value.factor)
    ensures MarkHands(a, hands).value.states == a.states + |hands| * Slots
  {
    if |hands| > 0 {
      var init := hands[..|hands| - 1];
      var h := hands[|hands| - 1];
      MarkHandsSpec(a, init);
      var b := MarkHands(a, init).value;
      var ts := Targets(h);
      TargetsSpec(h);
      GoodTargetKeys(ts);
      MarkAllSpec(b, ts);
      GoodKeysFrom(b.factor, MarkAll(b, ts).value.factor, TargetKeys(ts));
    }
  }

  /** `calc_factorization_for_values(values)`: the factor and `num_states`,
      or `None` when an assertion or an index fails. */
  function FactorizationFor(values: seq<nat>): Option<Factoring> {
    MarkHands(Factoring([], 0), UsedHands(values))
  }

  /** For five values below 8 nothing fails: every expanded deck misses its
      hand, `num_states` is `2**19` per distinct hand, and every key of the
      factor is a canonical hand with a row of `2**19` marks. */
  lemma FactorizationForSpec(values: seq<nat>)
    requires |values| == 5 && AllBelow(values, 8)
    ensures FactorizationFor(values).Some?
    ensures FactorizationFor(values).value.states == |UsedHands(values)| * Slots
    ensures Shaped(FactorizationFor(values).value.factor)
    ensures GoodKeys(FactorizationFor(values).value.factor)
  {
    var used := UsedHands(values);
    forall i | 0 <= i < |used| ensures used[i] < Pow2(24) && NumOnes(used[i]) == 5 {
      UsedHandsBelow(values, used[i]);
    }
    MarkHandsSpec(Factoring([], 0), used);
  }

  // ------------------------------------------------------------- to_store

  /** A stored factor, as `json.load` gives it back: the items, each row
      replaced by `None` when it is full. `dump` writes the items in key
      order; the model keeps them in the factor's order, which no sum
      over them depends on. */
  type Stored = seq<(nat, Option<seq<nat>>)>

  /** `to_store`: a row whose sum equals its length is stored as `None`. */
  function ToStore(f: Factor): Stored {
    seq(|f|, i requires 0 <= i < |f| =>
      (f[i].0, if Sum(f[i].1) == |f[i].1| then None else Some(f[i].1)))
  }

  /** `2**19 if v is None else sum(v)`: the marks a stored value stands for. */
  function StoredCount(v: Option<seq<nat>>): nat {
    match v
    case None => Slots
    case Some(row) => Sum(row)
  }

  /** A row is stored as `None` exactly when all `2**19` compact decks are
      marked, and the stored value always gives back the number of marks. */
  lemma ToStoreSpec(f: Factor)
    requires Shaped(f)
    ensures |ToStore(f)| == |f|
    ensures forall i :: 0 <= i < |f| ==>
      ToStore(f)[i].0 == f[i].0 &&
      (ToStore(f)[i].1.None? <==> forall j :: 0 <= j < Slots ==> f[i].1[j] == 1) &&
      (ToStore(f)[i].1.Some? ==> ToStore(f)[i].1.value == f[i].1) &&
      StoredCount(ToStore(f)[i].1) == Sum(f[i].1)
  {
    forall i | 0 <= i < |f|
      ensures (ToStore(f)[i].1.None? <==> forall j :: 0 <= j < Slots ==> f[i].1[j] == 1) &&
        StoredCount(ToStore(f)[i].1) == Sum(f[i].1)
    {
      assert Row(f[i].1);
      SumAllOnes(f[i].1);
    }
  }

  /** `num_cstates`, `sum(sum(v) for v in factor.values())`: the states
      left after symmetry reduction. */
  function Marks(f: Factor): nat {
    if |f| == 0 then 0 else Marks(f[..|f| - 1]) + Sum(f[|f| - 1].1)
  }

  /** `sum((2**19 if v is None else sum(v)) for v in factor.values())`. */
  function StoredTotal(d: Stored): nat {
    if |d| == 0 then 0 else StoredTotal(d[..|d| - 1]) + StoredCount(d[|d| - 1].1)
  }

  /** Storing full rows as `None` loses no count: the stored factor still
      adds up to `num_cstates`. */
  lemma {:induction false} StoredTotalMarks(f: Factor)
    requires Shaped(f)
    ensures StoredTotal(ToStore(f)) == Marks(f)
  {
    if |f| > 0 {
      var init := f[..|f| - 1];
      assert Shaped(init) by {
        assert Firsts(init) == Firsts(f)[..|f| - 1];
      }
      StoredTotalMarks(init);
      assert ToStore(f)[..|f| - 1] == ToStore(init);
      ToStoreSpec(f);
    }
  }

  /** One entry of `factorization`: the stored factor and `num_states`. */
  function Entry(pattern: seq<nat>): Option<(Stored, nat)> {
    match FactorizationFor(pattern)
    case None => None
    case Some(a) => Some((ToStore(a.factor), a.states))
  }

  /** For five values below 8 the entry exists, stores a factor of
      canonical hands, and counts `2**19` states per distinct hand. */
  lemma EntrySpec(pattern: seq<nat>)
    requires |pattern| == 5 && AllBelow(pattern, 8)
    ensures Entry(pattern).Some?
    ensures Entry(pattern).value.1 == |UsedHands(pattern)| * Slots
    ensures forall i :: 0 <= i < |Entry(pattern).value.0| ==> GoodKey(Entry(pattern).value.0[i].0)
  {
    FactorizationForSpec(pattern);
    var a := FactorizationFor(pattern).value;
    ToStoreSpec(a.factor);
  }

  /** A loop that stops at the first failure: every result, or `None`. */
  function Collect<T>(results: seq<Option<T>>): Option<seq<T>> {
    if |results| == 0 then Some([])
    else
      match Collect(results[..|results| - 1])
      case None => None
      case Some(done) =>
        match results[|results| - 1]
        case None => None
        case Some(x) => Some(done + [x])
  }

  /** The loop fails exactly when some step fails, and otherwise keeps
      every result in order. */
  lemma {:induction false} CollectSpec<T>(results: seq<Option<T>>)
    ensures Collect(results).Some? <==> forall i :: 0 <= i < |results| ==> results[i].Some?
    ensures Collect(results).Some? ==>
      |Collect(results).value| == |results| &&
      forall i :: 0 <= i < |results| ==> Collect(results).value[i] == results[i].value
  {
    if |results| > 0 {
      var init := results[..|results| - 1];
      CollectSpec(init);
      assert forall i :: 0 <= i < |init| ==> init[i] == results[i];
    }
  }

  /** `calc_factorization()` without the file: one entry per pattern. */
  function CalcFactorization(): Option<seq<(Stored, nat)>> {
    Collect(seq(|Patterns|, i requires 0 <= i < |Patterns| => Entry(Patterns[i])))
  }

  lemma CalcFactorizationSpec()
    ensures CalcFactorization().Some? && |CalcFactorization().value| == 5
  {
    var es := seq(|Patterns|, i requires 0 <= i < |Patterns| => Entry(Patterns[i]));
    forall i | 0 <= i < 5 ensures es[i].Some? {
      EntrySpec(Patterns[i]);
    }
    CollectSpec(es);
  }

  // ---------------------------------------------------- calc_storage_size

  /** `data`: the states each stored factor stands for. */
  function Data(fz: seq<(Stored, nat)>): seq<nat> {
    seq(|fz|, i requires 0 <= i < |fz| => StoredTotal(fz[i].0))
  }

  /** The number of value tuples looked at, `int('100000', 8)`. */
  const Tuples: nat := 32768

  /** `tuple(sorted(to_base(hand_v, 8, zfill=5)))`, the digits read back as
      in `Radix.ToBaseDigits`. */
  function ValuesOf(i: nat): seq<nat> {
    Sort(Padded(i, 8, 5))
  }

  /** A sorted tuple of five values below 8 that `are_valid_values` accepts:
      the hands `calc_storage_size` gives room to. */
  predicate ValidShape(t: seq<nat>) {
    |t| == 5 && Sorted(t) && AllBelow(t, 8) && AreValidValues(t)
  }

  /** The room one tuple takes: `data[categorize_values(t)]`. */
  function Weight(data: seq<nat>, t: seq<nat>): nat {
    match CategorizeValues(t)
    case Bucket(k) => if k < |data| then data[k] else 0
    case _ => 0
  }

  function WeightSum(data: seq<nat>, ts: seq<seq<nat>>): nat {
    if |ts| == 0 then 0 else WeightSum(data, ts[..|ts| - 1]) + Weight(data, ts[|ts| - 1])
  }

  /** The loop state: the tuples in `done`, the ones counted (the keys of
      `hand_values_data_1`, in order) and `total_size`. */
  datatype Scan = Scan(done: set<seq<nat>>, counted: seq<seq<nat>>, total: nat)

  /** One pass of the loop of `calc_storage_size` with tuple `t`. `None`
      when the length assertion fails or `data[...]` does (a category that
      is not a bucket, or a bucket past the end of `data`). */
  function ScanStep(data: seq<nat>, s: Scan, t: seq<nat>): Option<Scan> {
    if |t| != 5 then None
    else if t in s.done then Some(s)
    else if !AreValidValues(t) then Some(Scan(s.done + {t}, s.counted, s.total))
    else
      match CategorizeValues(t)
      case Bucket(k) =>
        if k < |data| then Some(Scan(s.done + {t}, s.counted + [t], s.total + data[k])) else None
      case _ => None
  }

  /** The loop over the tuples `ts` in order. */
  function ScanList(data: seq<nat>, ts: seq<seq<nat>>): Option<Scan> {
    if |ts| == 0 then Some(Scan({}, [], 0))
    else
      match ScanList(data, ts[..|ts| - 1])
      case None => None
      case Some(s) => ScanStep(data, s, ts[|ts| - 1])
  }

  /** The loop state the scan keeps: counted tuples once each, exactly the
      valid ones done, and the total their room. */
  ghost predicate ScanInvariant(data: seq<nat>, s: Scan) {
    NoDup(s.counted) &&
    (forall t :: t in s.counted <==> t in s.done && AreValidValues(t)) &&
    s.total == WeightSum(data, s.counted)
  }

  lemma ScanStepSpec(data: seq<nat>, s: Scan, t: seq<nat>)
    requires |data| >= 5 && |t| == 5 && AllBelow(t, 8)
    requires ScanInvariant(data, s)
    ensures ScanStep(data, s, t).Some?
    ensures ScanInvariant(data, ScanStep(data, s, t).value)
    ensures ScanStep(data, s, t).value.done == s.done + {t}
  {
    if t !in s.done && AreValidValues(t) {
      CategorizeFive(t);
      var c := s.counted + [t];
      assert c[..|c| - 1] == s.counted;
      assert t !in s.counted;
    }
  }

  /** Over tuples of five values below 8 the loop never fails; `done`
      holds exactly the tuples met, the counted tuples are the valid ones
      among them, each once, and the total is their room added up. */
  lemma {:induction false} ScanListSpec(data: seq<nat>, ts: seq<seq<nat>>)
    requires |data| >= 5
    requires forall i :: 0 <= i < |ts| ==> |ts[i]| == 5 && AllBelow(ts[i], 8)
    ensures ScanList(data, ts).Some?
    ensures ScanInvariant(data, ScanList(data, ts).value)
    ensures forall t :: t in ScanList(data, ts).value.done <==> t in ts
  {
    if |ts| > 0 {
      var init := ts[..|ts| - 1];
      ScanListSpec(data, init);
      ScanStepSpec(data, ScanList(data, init).value, ts[|ts| - 1]);
      assert ts == init + [ts[|ts| - 1]];
    }
  }

  /** The tuples of `hand_v` in `0 .. n - 1`. */
  function TuplesUpTo(n: nat): (r: seq<seq<nat>>)
    ensures |r| == n && forall i :: 0 <= i < n ==> r[i] == ValuesOf(i)
  {
    seq(n, (i: nat) => ValuesOf(i))
  }

  /** Every tuple of the loop is five sorted values below 8. */
  lemma ValuesOfSpec(i: nat)
    requires i < Tuples
    ensures |ValuesOf(i)| == 5 && Sorted(ValuesOf(i)) && AllBelow(ValuesOf(i), 8)
  {
    var p := Padded(i, 8, 5);
    PaddedSpec(i, 8, 5);
    assert Power(8, 5) == 32768;
    forall j | 0 <= j < 5 ensures ValuesOf(i)[j] < 8 {
      assert ValuesOf(i)[j] in multiset(p);
    }
  }

  /** Every sorted tuple of five values below 8 is met: it is the tuple
      of the number its digits stand for. */
  lemma ValuesOfComplete(t: seq<nat>)
    requires |t| == 5 && Sorted(t) && AllBelow(t, 8)
    ensures Eval(t, 8) < Tuples && ValuesOf(Eval(t, 8)) == t
  {
    PaddedComplete(t, 8);
    assert Power(8, 5) == 32768;
    SortSorted(t);
  }

  /** A listing of exactly the sorted tuples of five values below 8. */
  ghost predicate Enumerates(ts: seq<seq<nat>>) {
    (forall i :: 0 <= i < |ts| ==> |ts[i]| == 5 && AllBelow(ts[i], 8)) &&
    (forall t :: t in ts <==> |t| == 5 && Sorted(t) && AllBelow(t, 8))
  }

  /** The loop meets exactly the sorted tuples of five values below 8. */
  lemma AllTuples()
    ensures Enumerates(TuplesUpTo(Tuples))
  {
    var ts := TuplesUpTo(Tuples);
    forall i | 0 <= i < Tuples ensures |ts[i]| == 5 && Sorted(ts[i]) && AllBelow(ts[i], 8) {
      ValuesOfSpec(i);
    }
    forall t | |t| == 5 && Sorted(t) && AllBelow(t, 8) ensures t in ts {
      ValuesOfComplete(t);
      assert ts[Eval(t, 8)] == t;
    }
  }

  /** `calc_storage_size(factorization)`: `total_size`, or `None` when the
      loop fails. */
  function StorageSize(fz: seq<(Stored, nat)>): Option<nat> {
    match ScanList(Data(fz), TuplesUpTo(Tuples))
    case None => None
    case Some(s) => Some(s.total)
  }

  /** With an entry for each of the five buckets the size is the room of
      every valid sorted tuple, each counted once: tuples in which some
      value occurs more than three times get none. */
  lemma StorageSizeSpec(fz: seq<(Stored, nat)>)
    requires |fz| >= 5
    ensures StorageSize(fz).Some?
    ensures exists ts ::
      NoDup(ts) && (forall t :: t in ts <==> ValidShape(t)) && StorageSize(fz).value == WeightSum(Data(fz), ts)
  {
    AllTuples();
    ScanAll(Data(fz), TuplesUpTo(Tuples));
  }

  /** Scanning every sorted tuple of five values below 8 counts exactly the
      valid ones, each once. */
  lemma ScanAll(data: seq<nat>, ts: seq<seq<nat>>)
    requires |data| >= 5
    requires Enumerates(ts)
    ensures ScanList(data, ts).Some?
    ensures var c := ScanList(data, ts).value.counted;
      NoDup(c) && (forall t :: t in c <==> ValidShape(t)) && ScanList(data, ts).value.total == WeightSum(data, c)
  {
    ScanListSpec(data, ts);
  }

  // -------------------------------------------------- hand_storage_format

  /** `[card % 8 for card in cards]` */
  function ValuesOfCards(cards: seq<nat>): (r: seq<nat>)
    ensures |r| == |cards| && forall i :: 0 <= i < |cards| ==> r[i] == Value(cards[i])
  {
    seq(|cards|, i requires 0 <= i < |cards| => Value(cards[i]))
  }

  /** The values of the cards of a hand, lowest card first. */
  function HandValues(hand: nat): seq<nat> {
    ValuesOfCards(BinaryToList(hand))
  }

  /** How many of the cards `v`, `v + 8`, `v + 16` of value `v` are at
      least `lo`. */
  function Room(v: nat, lo: nat): nat {
    (if v >= lo then 1 else 0) + (if v + 8 >= lo then 1 else 0) + (if v + 16 >= lo then 1 else 0)
  }

  /** Distinct cards below 24 from `lo` up hold value `v` at most as often
      as there are cards of that value from `lo` up. */
  lemma {:induction false} ValueCountBound(cards: seq<nat>, v: nat, lo: nat)
    requires StrictlyIncreasing(cards) && AllBelow(cards, 24) && v < 8
    requires forall i :: 0 <= i < |cards| ==> lo <= cards[i]
    ensures Count(ValuesOfCards(cards), v) <= Room(v, lo)
    decreases |cards|
  {
    if |cards| > 0 {
      var x := cards[0];
      ValueCountBound(cards[1..], v, x + 1);
      assert ValuesOfCards(cards)[1..] == ValuesOfCards(cards[1..]);
      CardOfParts(x);
      if Value(x) == v {
        assert Room(v, x) == Room(v, x + 1) + 1;
      } else {
        assert x != v && x != v + 8 && x != v + 16;
        assert Room(v, x) == Room(v, x + 1);
      }
    }
  }

  /** The cards of a 24-bit hand are below 24. */
  lemma HandCardsBelow(hand: nat)
    requires hand < Pow2(24)
    ensures AllBelow(BinaryToList(hand), 24)
  {
    var cards := BinaryToList(hand);
    BelowIffNoHighBits(hand, 24);
    forall i | 0 <= i < |cards| ensures cards[i] < 24 {
      var x := cards[i];
      assert x in cards;
      if x >= 24 {
        assert !Bit(hand, x);
        assert false;
      }
    }
  }

  /** The values of a 24-bit five-card hand, sorted, are one of the tuples
      `calc_storage_size` gives room to, and the hand's type is the bucket
      of that tuple: a card value occurs at most three times, once per
      colour. */
  lemma HandValuesShape(hand: nat)
    requires hand < Pow2(24) && NumOnes(hand) == 5
    ensures ValidShape(Sort(HandValues(hand)))
    ensures CategorizeValues(HandValues(hand)) == CategorizeValues(Sort(HandValues(hand)))
    ensures CategorizeValues(HandValues(hand)).Bucket? && CategorizeValues(HandValues(hand)).kind < 5
  {
    HandValuesBounded(hand);
    ShapeOfValues(HandValues(hand));
  }

  /** Five cards below 24 hold values below 8, each at most three times. */
  lemma HandValuesBounded(hand: nat)
    requires hand < Pow2(24) && NumOnes(hand) == 5
    ensures var values := HandValues(hand);
      |values| == 5 && (forall i :: 0 <= i < 5 ==> values[i] < 8) &&
      forall v | v < 8 :: multiset(values)[v] <= 3
  {
    HandCardsBelow(hand);
    CardValuesBounded(BinaryToList(hand));
  }

  lemma CardValuesBounded(cards: seq<nat>)
    requires StrictlyIncreasing(cards) && AllBelow(cards, 24)
    ensures var values := ValuesOfCards(cards);
      (forall i :: 0 <= i < |values| ==> values[i] < 8) &&
      forall v | v < 8 :: multiset(values)[v] <= 3
  {
    var values := ValuesOfCards(cards);
    forall v | v < 8 ensures multiset(values)[v] <= 3 {
      ValueCountBound(cards, v, 0);
      CountIsMultiplicity(values, v);
    }
  }

  /** Five values below 8, none more than three times, sort into a valid
      tuple of the same bucket. */
  lemma ShapeOfValues(values: seq<nat>)
    requires |values| == 5 && forall i :: 0 <= i < 5 ==> values[i] < 8
    requires forall v | v < 8 :: multiset(values)[v] <= 3
    ensures ValidShape(Sort(values))
    ensures CategorizeValues(values) == CategorizeValues(Sort(values))
    ensures CategorizeValues(values).Bucket? && CategorizeValues(values).kind < 5
  {
    var sorted := Sort(values);
    AreValidValuesSpec(values);
    AreValidValuesSpec(sorted);
    forall i | 0 <= i < 5 ensures sorted[i] < 8 {
      assert sorted[i] in multiset(values);
    }
    CategorizeOrderFree(values, sorted);
    CategorizeFive(sorted);
  }

  /** `len(set(equiv_class(state)))`: how many different recolourings. */
  function ClassSize(st: State): nat {
    |set i | 0 <= i < 6 :: EquivClass(st)[i]|
  }

  /** `[v for v in d.values() if v is not None]` */
  function Present(d: Stored): seq<seq<nat>> {
    if |d| == 0 then []
    else
      Present(d[..|d| - 1]) + match d[|d| - 1].1 case None => [] case Some(v) => [v]
  }

  /** The present rows are the values that are not `None`, in order. */
  lemma {:induction false} PresentSpec(d: Stored)
    ensures forall v :: v in Present(d) <==> exists i :: 0 <= i < |d| && d[i].1 == Some(v)
    ensures |Present(d)| <= |d|
  {
    if |d| > 0 {
      var init := d[..|d| - 1];
      PresentSpec(init);
      forall v ensures v in Present(d) <==> exists i :: 0 <= i < |d| && d[i].1 == Some(v) {
        if exists i :: 0 <= i < |d| && d[i].1 == Some(v) {
          var i :| 0 <= i < |d| && d[i].1 == Some(v);
          if i < |init| {
            assert init[i] == d[i];
          }
        }
        if v in Present(init) {
          var i :| 0 <= i < |init| && init[i].1 == Some(v);
          assert d[i] == init[i];
        }
      }
    }
  }

  /** Stored rows that are present are exactly the rows that are not full. */
  lemma PresentRows(f: Factor)
    requires Shaped(f)
    ensures forall v :: v in Present(ToStore(f)) <==>
      exists i :: 0 <= i < |f| && f[i].1 == v && exists j :: 0 <= j < Slots && f[i].1[j] != 1
  {
    PresentSpec(ToStore(f));
    ToStoreSpec(f);
  }

  /** Each of the five types has exactly one stored row that is not `None`,
      a row of marks: what the assertion in `hand_storage_format` expects
      of the factorization file. */
  predicate OnePartialRow(fz: seq<(Stored, nat)>) {
    |fz| >= 5 && forall k :: 0 <= k < 5 ==> |Present(fz[k].0)| == 1 && Row(Present(fz[k].0)[0])
  }

  /** `hand_storage_format(hand, factorization)`: the slots of `hand` and
      its type. A hand that is not canonical gets none; a canonical hand
      with six different recolourings gets one per compact deck; any other
      canonical hand gets the marks of the one row of its type's factor
      that is not `None`. `None` when `factorization[values_type]` fails or
      that row is not unique (the assertion). */
  function HandStorageFormat(hand: nat, fz: seq<(Stored, nat)>): Option<(nat, Category)> {
    var kind := CategorizeValues(HandValues(hand));
    match HandSlots(hand, kind, fz)
    case None => None
    case Some(n) => Some((n, kind))
  }

  /** The slot count of `hand_storage_format` for a hand of type `kind`. */
  function HandSlots(hand: nat, kind: Category, fz: seq<(Stored, nat)>): Option<nat> {
    if !CanonicalHand(hand) then Some(0)
    else if ClassSize(State(0, hand, 0)) == 6 then Some(Slots)
    else
      match kind
      case Bucket(k) =>
        if k < |fz| then
          var l := Present(fz[k].0);
          if |l| == 1 then Some(Sum(l[0])) else None
        else None
      case _ => None
  }

  /** The three cases of the slot count; the type is always
      `categorize_values` of the hand's values; the only failure is a
      canonical hand with repeated recolourings whose type has no unique
      partial row. */
  lemma HandStorageFormatSpec(hand: nat, fz: seq<(Stored, nat)>)
    ensures var kind := CategorizeValues(HandValues(hand));
      var r := HandStorageFormat(hand, fz);
      (!CanonicalHand(hand) ==> r == Some((0, kind))) &&
      (CanonicalHand(hand) && ClassSize(State(0, hand, 0)) == 6 ==> r == Some((Slots, kind))) &&
      (r.Some? ==> r.value.1 == kind) &&
      (CanonicalHand(hand) && ClassSize(State(0, hand, 0)) != 6 ==>
        (r.Some? <==> kind.Bucket? && kind.kind < |fz| && |Present(fz[kind.kind].0)| == 1) &&
        (r.Some? ==> r.value.0 == Sum(Present(fz[kind.kind].0)[0])))
    ensures hand < Pow2(24) && NumOnes(hand) == 5 && OnePartialRow(fz) ==>
      var r := HandStorageFormat(hand, fz);
      r.Some? && r.value.1.Bucket? && r.value.1.kind < 5 &&
      r.value.0 <= Slots && (r.value.0 > 0 ==> CanonicalHand(hand))
  {
    if hand < Pow2(24) && NumOnes(hand) == 5 && OnePartialRow(fz) {
      HandValuesShape(hand);
      var kind := CategorizeValues(HandValues(hand));
      if CanonicalHand(hand) && ClassSize(State(0, hand, 0)) != 6 {
        SumAllOnes(Present(fz[kind.kind].0)[0]);
      }
    }
  }

  /** Only canonical hands get slots, and each class of recoloured hands
      has one: a hand with slots is the canonical form of itself, and no
      other recolouring of it has slots. */
  lemma SlotsPerOrbit(hand: nat, p: Perm, fz: seq<(Stored, nat)>)
    requires HandStorageFormat(hand, fz).Some? && HandStorageFormat(hand, fz).value.0 > 0
    requires HandStorageFormat(ApplyPermutation(hand, p), fz).Some?
    requires HandStorageFormat(ApplyPermutation(hand, p), fz).value.0 > 0
    ensures CanonicalHand(hand) && ApplyPermutation(hand, p) == hand
  {
    HandStorageFormatSpec(hand, fz);
    HandStorageFormatSpec(ApplyPermutation(hand, p), fz);
    CanonicalPerOrbit(hand, p);
  }

  // ------------------------------------------------------- calc_allocation

  /** `offsets`: starts at `[0]` and appends the running total after each
      hand. */
  function OffsetLoop(fs: seq<(nat, Category)>): (r: seq<nat>)
    ensures |r| == |fs| + 1
  {
    if |fs| == 0 then [0]
    else
      var o := OffsetLoop(fs[..|fs| - 1]);
      o + [o[|o| - 1] + fs[|fs| - 1].0]
  }

  /** Entry `i` of the offsets is the sum of the slots before hand `i`. */
  lemma {:induction false} OffsetLoopSpec(fs: seq<(nat, Category)>)
    ensures forall i :: 0 <= i <= |fs| ==> OffsetLoop(fs)[i] == Sum(Firsts(fs)[..i])
  {
    if |fs| > 0 {
      var init := fs[..|fs| - 1];
      OffsetLoopSpec(init);
      assert Firsts(init) == Firsts(fs)[..|fs| - 1];
      forall i | 0 <= i < |fs| ensures Firsts(init)[..i] == Firsts(fs)[..i] {
      }
      SumOfPrefix(Firsts(fs), |fs| - 1);
      assert Firsts(fs)[..|fs|] == Firsts(fs);
    }
  }

  lemma {:induction false} SumPrefixMono(s: seq<nat>, i: nat, j: nat)
    requires i <= j <= |s|
    ensures Sum(s[..i]) <= Sum(s[..j])
    decreases j - i
  {
    if i < j {
      SumPrefixMono(s, i, j - 1);
      SumOfPrefix(s, j - 1);
    }
  }

  /** The rest of `calc_allocation` once every hand has its format: pop the
      last offset, check it against `total_size`, and pair the offsets with
      the types. */
  function Allocate(fs: seq<(nat, Category)>, total: nat): Option<seq<(nat, Category)>> {
    var offsets := OffsetLoop(fs);
    if offsets[|fs|] != total then None
    else Some(seq(|fs|, i requires 0 <= i < |fs| => (offsets[i], fs[i].1)))
  }

  /** The allocation exists exactly when the slots add up to `total_size`;
      its offsets start at 0, each is the sum of the slots before it, so
      they never decrease, and the last hand ends at `total_size`. */
  lemma AllocateSpec(fs: seq<(nat, Category)>, total: nat)
    ensures Allocate(fs, total).Some? <==> Sum(Firsts(fs)) == total
    ensures Allocate(fs, total).Some? ==>
      var r := Allocate(fs, total).value;
      |r| == |fs| &&
      (forall i :: 0 <= i < |r| ==> r[i] == (Sum(Firsts(fs)[..i]), fs[i].1)) &&
      (|r| > 0 ==> r[0].0 == 0 && r[|r| - 1].0 + fs[|r| - 1].0 == total) &&
      (forall i, j :: 0 <= i <= j < |r| ==> r[i].0 <= r[j].0)
  {
    OffsetLoopSpec(fs);
    assert Firsts(fs)[..|fs|] == Firsts(fs);
    if Allocate(fs, total).Some? {
      var r := Allocate(fs, total).value;
      if |r| > 0 {
        assert Firsts(fs)[..0] == [];
        SumOfPrefix(Firsts(fs), |fs| - 1);
      }
      forall i, j | 0 <= i <= j < |r| ensures r[i].0 <= r[j].0 {
        SumPrefixMono(Firsts(fs), i, j);
      }
    }
  }

  /** `hand_storage_format` of each hand in order. */
  function FormatResults(hands: seq<nat>, fz: seq<(Stored, nat)>): (r: seq<Option<(nat, Category)>>)
    ensures |r| == |hands| && forall i :: 0 <= i < |hands| ==> r[i] == HandStorageFormat(hands[i], fz)
  {
    seq(|hands|, i requires 0 <= i < |hands| => HandStorageFormat(hands[i], fz))
  }

  /** `calc_allocation()` without the files: the hands' formats in order
      (the generator's `hands5` is a parameter), then the offsets. */
  function Allocation(hands: seq<nat>, fz: seq<(Stored, nat)>, total: nat): Option<seq<(nat, Category)>> {
    match Collect(FormatResults(hands, fz))
    case None => None
    case Some(fs) => Allocate(fs, total)
  }

  /** The values of a list of results that all succeeded. */
  function Values<T>(results: seq<Option<T>>): (r: seq<T>)
    requires forall i :: 0 <= i < |results| ==> results[i].Some?
    ensures |r| == |results| && forall i :: 0 <= i < |results| ==> r[i] == results[i].value
  {
    seq(|results|, i requires 0 <= i < |results| => results[i].value)
  }

  /** Collecting then allocating: fails exactly when some step fails or
      the slots do not add up, and otherwise places each entry after the
      slots of the ones before it. */
  lemma CollectAllocate(results: seq<Option<(nat, Category)>>, total: nat)
    ensures (match Collect(results) case None => None case Some(fs) => Allocate(fs, total)).Some? ==>
      forall i :: 0 <= i < |results| ==> results[i].Some?
    ensures (forall i :: 0 <= i < |results| ==> results[i].Some?) ==>
      var fs := Values(results);
      var a := match Collect(results) case None => None case Some(fs) => Allocate(fs, total);
      (a.Some? <==> Sum(Firsts(fs)) == total) &&
      (a.Some? ==>
        |a.value| == |results| &&
        (forall i :: 0 <= i < |results| ==> a.value[i] == (Sum(Firsts(fs)[..i]), fs[i].1)) &&
        (forall i, j :: 0 <= i <= j < |results| ==> a.value[i].0 <= a.value[j].0))
  {
    CollectSpec(results);
    if Collect(results).Some? {
      assert Collect(results).value == Values(results);
      AllocateSpec(Values(results), total);
    }
  }

  /** A hand's format, when there is one, carries the hand's type; the type
      of a 24-bit five-card hand is the position in `patterns` of the one
      pattern with as many values occurring three times, and as many
      occurring twice, as the hand's values. */
  lemma FormatKind(hand: nat, fz: seq<(Stored, nat)>)
    ensures HandStorageFormat(hand, fz).Some? ==>
      HandStorageFormat(hand, fz).value.1 == CategorizeValues(HandValues(hand))
    ensures hand < Pow2(24) && NumOnes(hand) == 5 ==>
      var values := HandValues(hand);
      var kind := CategorizeValues(values);
      kind.Bucket? && kind.kind < 5 && CategorizeValues(Patterns[kind.kind]) == kind &&
      Occurring(values, 3) == Occurring(Patterns[kind.kind], 3) &&
      Occurring(values, 2) == Occurring(Patterns[kind.kind], 2)
  {
    if hand < Pow2(24) && NumOnes(hand) == 5 {
      var values := HandValues(hand);
      HandValuesBounded(hand);
      AreValidValuesSpec(values);
      BucketPattern(values);
    }
  }

  /** The allocation fails exactly when some hand has no format or the
      slots do not add up to `total_size`; otherwise hand `i` starts at the
      sum of the slots of the hands before it and carries its own type. */
  lemma AllocationSpec(hands: seq<nat>, fz: seq<(Stored, nat)>, total: nat)
    ensures Allocation(hands, fz, total).Some? ==>
      forall i :: 0 <= i < |hands| ==> HandStorageFormat(hands[i], fz).Some?
    ensures (forall i :: 0 <= i < |hands| ==> HandStorageFormat(hands[i], fz).Some?) ==>
      var fs := Values(FormatResults(hands, fz));
      (Allocation(hands, fz, total).Some? <==> Sum(Firsts(fs)) == total) &&
      (Allocation(hands, fz, total).Some? ==>
        var r := Allocation(hands, fz, total).value;
        |r| == |hands| &&
        (forall i :: 0 <= i < |r| ==>
          r[i].0 == Sum(Firsts(fs)[..i]) && r[i].1 == CategorizeValues(HandValues(hands[i]))) &&
        (forall i, j :: 0 <= i <= j < |r| ==> r[i].0 <= r[j].0))
  {
    var results := FormatResults(hands, fz);
    CollectAllocate(results, total);
    forall i | 0 <= i < |hands|
      ensures results[i].Some? ==> results[i].value.1 == CategorizeValues(HandValues(hands[i]))
    {
      FormatKind(hands[i], fz);
    }
  }

  /** `calc_allocation()` as a whole: `total_size` is
      `calc_storage_size(factorization)`, and a failure of that loop is a
      failure of the allocation. */
  function CalcAllocation(hands: seq<nat>, fz: seq<(Stored, nat)>): Option<seq<(nat, Category)>> {
    match StorageSize(fz)
    case None => None
    case Some(total) => Allocation(hands, fz, total)
  }

  /** Hand `i` of the allocation starts at the sum of the slots before it
      and carries the type of its values. */
  predicate PlacedAt(r: seq<(nat, Category)>, hands: seq<nat>, fs: seq<(nat, Category)>) {
    |r| == |hands| == |fs| &&
    forall i :: 0 <= i < |r| ==>
      r[i].0 == Sum(Firsts(fs)[..i]) && r[i].1 == CategorizeValues(HandValues(hands[i]))
  }

  /** With an entry for each type the storage size always exists, so the
      allocation is the one for that size; when moreover each type has its
      one partial row, every 24-bit five-card hand gets a format, and the
      allocation exists exactly when the hands' slots add up to the room
      `calc_storage_size` counts, each hand then starting where the slots
      of the hands before it end. */
  lemma CalcAllocationSpec(hands: seq<nat>, fz: seq<(Stored, nat)>)
    requires |fz| >= 5
    ensures exists total :: StorageSize(fz) == Some(total) && CalcAllocation(hands, fz) == Allocation(hands, fz, total)
    ensures OnePartialRow(fz) && FiveCardHands(hands) ==>
      (forall i :: 0 <= i < |hands| ==> HandStorageFormat(hands[i], fz).Some?) &&
      var fs := Values(FormatResults(hands, fz));
      match CalcAllocation(hands, fz)
      case None => StorageSize(fz) != Some(Sum(Firsts(fs)))
      case Some(r) => StorageSize(fz) == Some(Sum(Firsts(fs))) && PlacedAt(r, hands, fs)
  {
    StorageSizeSpec(fz);
    var total := StorageSize(fz).value;
    if OnePartialRow(fz) && FiveCardHands(hands) {
      AllocationOfHands(hands, fz, total);
    }
  }

  /** Every hand is a 24-bit mask of five cards. */
  predicate FiveCardHands(hands: seq<nat>) {
    forall i :: 0 <= i < |hands| ==> hands[i] < Pow2(24) && NumOnes(hands[i]) == 5
  }

  /** For 24-bit five-card hands and a factorization with one partial row
      per type, every hand has a format, so the allocation fails only when
      the slots do not add up. */
  lemma AllocationOfHands(hands: seq<nat>, fz: seq<(Stored, nat)>, total: nat)
    requires OnePartialRow(fz) && FiveCardHands(hands)
    ensures forall i :: 0 <= i < |hands| ==> HandStorageFormat(hands[i], fz).Some?
    ensures var fs := Values(FormatResults(hands, fz));
      (Allocation(hands, fz, total).Some? <==> Sum(Firsts(fs)) == total) &&
      (Allocation(hands, fz, total).Some? ==> PlacedAt(Allocation(hands, fz, total).value, hands, fs))
  {
    forall i | 0 <= i < |hands| ensures HandStorageFormat(hands[i], fz).Some? {
      HandStorageFormatSpec(hands[i], fz);
    }
    AllocationSpec(hands, fz, total);
  }
}

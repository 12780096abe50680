# mu-rainbow: a Dafny model of the game rules and the solver's arithmetic

mu-rainbow solves a one-player card game. There are 24 cards: three colours
times eight values. Card `c` has value `c % 8` and colour `c / 8`. The player
holds a hand of five cards and draws from a deck. On each turn they either
discard one card, which is replaced from the deck, or play a scoring
combination of three cards, which is replaced by up to three deck cards.
There are three kinds of combination:

- a same-colour run scores 50 + 10 × the low value;
- a triple of one value scores 20 + 10 × the value;
- a mixed-colour run scores 10 + 10 × the low value.

The game is won when the score reaches 40.

This project models the exact core of that program as pure Dafny functions
over card masks (`nat` below `2**24`) and sorted card lists. It proves the
properties the program relies on.

| module | models |
|---|---|
| `Bits`, `CardSets` | Python bit operations on unbounded integers; `num_ones`, `list_to_binary` and `binary_to_list` as functions, and as methods with the source's loops |
| `Scoring` | `score_combination`, `card_combinations`, `moves_from_hand` and `best_move_score` |
| `Shapes` | `are_valid_values` and `categorize_values` |
| `Symmetry` | `apply_permutation`, `equiv_class` and `canonicalize` |
| `Compaction` | `expand_deck` and `compactify_deck`, as functions and as loop methods |
| `Radix` | `to_base`, with `str`, `join` and `zfill` written out, as the enumeration loops read it back |
| `GameCalc` | the list engine of gamecalc.py: the cached scorer, the cached generator, the `combinations_cache` table, `moves` and `outcomes` |
| `Roomy` | the index tables of mu_roomy.py (`binom*_to_binary`, `binary_to_binom`), `hand_binary_to_score_change`, `hand_binary_to_list_of_moves` and `moves_dp` |
| `SolveDp` | `outcomes_dp`, the branches of `get` that end a search, and `get`'s move selection |
| `Simulate` | one turn of `simulate_game` and the whole loop for a given algorithm |
| `Layout` | the storage-layout counting of scratchpad.py, from the factorization of a hand pattern through to the allocation of offsets |

Python's assertion failures, `KeyError`, `IndexError` and `ValueError` are
modelled as `None` of `Wrappers.Option`. Lemmas then state exactly when
they happen.

Some objects are built once at import time: the `combinations_cache`
dictionary, the three `binom*_to_binary` tables, and the score cache. These
enter the model in three ways:

- as the function that builds them (`GameCalc.BuildTable`, `Roomy.BuildIndex`);
- as a parameter of the functions that read them (`ComboTable`, `HandIndex`);
- as a predicate that the built object satisfies: `GameCalc.TableSound`,
  `GameCalc.TableKeyed` and `Roomy.IndexSound`, proved by
  `GameCalc.BuildTableSpec` and `Roomy.BuildIndexSound`.

The readers' lemmas assume these predicates, so they hold for the tables the
program builds. The dictionary comprehension that fills `combinations_cache`
is modelled generically. `GameCalc.BuildFrom` takes the per-hand step and the
scoring rules as parameters, and `GameCalc.CachedStepSound` instantiates them
with the cached generator and `score_combination`.

Several helpers are defined twice in the source. `list_to_binary`,
`binary_to_list` and `num_ones` in mu_roomy.py are the same code as in
utils.py. `score_combination` and `card_combinations` in gamecalc.py are the
utils.py versions behind a cache. Each is modelled once. Where scratchpad.py
calls `gen.canonicalize`, `gen.expand_deck`, `gen.compactify_deck` or
`gen.equiv_class`, the model uses the utils.py definitions; generator.py is
not part of this model. mu_roomy.py:4 imports `moves`, `outcomes` and
`combinations_cache` from utils.py, which defines none of them. The model
uses the gamecalc.py definitions in their place.

Two readings follow the code rather than a description of it:

- **Two score scales in mu_roomy.py.** Deal moves carry the full combination
  score (10 to 100). The empty-deck rule of `get` adds the hand's score
  change, which is that score divided by 10, and compares the total against
  40 and 30. Both are modelled as written. The assertion at tests.py:20
  expects every deal move to carry a score change from 1 to 10. That is
  the divided scale, and it contradicts the moves the code builds
  (mu_roomy.py:102). `Scoring.DealMovesSpec` proves that every deal move
  carries 10 to 100.
- **No bucket from `categorize_values`.** The function returns nothing when
  the top count is 3 and the second count is neither 2 nor 1. This is
  `Shapes.Category.NoBucket`, and a value of 8 or more is the `IndexError`
  `BadValue`. `Shapes.CategorizeFive` shows that neither case arises for the
  hands the program classifies.

## Model

| member | source | states |
|---|---|---|
| CardSets.CountOnes | utils.py:42-48 | The bit-counting loop returns the number of set bits of `n`, which is also the length of `binary_to_list(n)` |
| CardSets.ListToMask | utils.py:50-54 | The OR loop sets exactly the bits of the listed cards |
| CardSets.MaskToList | utils.py:56-64 | The bit-walking loop lists, in strictly increasing order, exactly the positions of the set bits |
| CardSets.BinaryToList | mu_roomy.py:57-65 | `binary_to_list(n)` is strictly increasing, has `num_ones(n)` entries and holds exactly the set bits |
| CardSets.MaskRoundTrip | utils.py:50-64 | `list_to_binary(binary_to_list(n)) == n` for every mask |
| CardSets.ListRoundTrip | mu_roomy.py:51-73 | For a strictly increasing list, `binary_to_list(list_to_binary(l)) == l`, and the mask has `len(l)` ones |
| CardSets.ListToBinaryInjective | utils.py:50-54 | Different strictly increasing card lists give different masks |
| CardSets.CardsBelow24 | utils.py:50-54 | A list of cards below 24 gives a 24-bit mask |
| Scoring.ScoreCombination | utils.py:146-157 | Whenever a score is returned, the combo has at least three cards and the score lies in 10..100 |
| Scoring.ScoreTens | utils.py:146-157 | Every score is a multiple of 10, so `score // 10` is an exact number of tens |
| Scoring.RunScore | utils.py:148-156 | Three cards of consecutive values score 50 + 10·low when they share a colour and 10 + 10·low otherwise |
| Scoring.TripleScore | utils.py:151-153 | Three cards of one value score 20 + 10·value |
| Scoring.ScoredIsRunOrTriple | utils.py:146-157 | A three-card combination that scores is a run or a triple: everything else is the assertion failure |
| Scoring.RunComboScore | utils.py:166-177 | Each run built by the generator scores, under `score_combination`, exactly the score it is yielded with (the assertion at line 176 holds) |
| Scoring.TripleComboScore | utils.py:179-185 | Each triple built by the generator scores exactly the score it is yielded with (the assertion at line 184 holds) |
| Scoring.CardCombinationsSound | utils.py:159-185 | Every yielded combination is three cards of the hand, of values v, v+1, v+2 or v, v, v, with its `score_combination` score, and its cards are distinct when the hand's are |
| Scoring.CardCombinationsHasRun | utils.py:165-177 | Any three hand cards of consecutive values are yielded as a run |
| Scoring.CardCombinationsHasTriple | utils.py:179-185 | Any three distinct hand cards of one value are yielded together as a triple |
| Scoring.RemoveMovesSpec | utils.py:189 | There is one removal per hand card: `Move(0, 1 << c, 0)` for exactly the cards `c` of the hand |
| Scoring.DealMovesSpec | utils.py:190 | Every deal move plays three cards of the hand and carries a multiple of 10 in 10..100 |
| Scoring.MovesFromHandRemovals | utils.py:187-191 | `moves_from_hand` starts with exactly the hand's removals |
| Scoring.MovesFromHandDeals | utils.py:187-191 | After the removals come only deal moves, each playing three cards of the hand |
| Scoring.DealsOfMoves | utils.py:187-191 | The deal moves of `moves_from_hand` are exactly the moves of the hand's combinations |
| Scoring.MaxScoreRange | utils.py:193-198 | The running maximum over scored combinations is a multiple of 10 of at most 100, and 0 exactly when there are none |
| Scoring.BestMoveScoreRange | utils.py:193-198 | `best_move_score` is a multiple of 10 of at most 100, and 0 exactly when the hand has no deal move |
| Scoring.BestMoveScoreIsBest | utils.py:193-198 | `best_move_score` bounds every deal move's score and, when positive, is attained by one |
| Shapes.AreValidValuesSpec | utils.py:68-72 | The values are valid exactly when no value below 8 occurs more than three times |
| Shapes.TallySpec | utils.py:75-78 | Counting succeeds exactly when every value is below 8. Then `val_cnt[v]` is the multiplicity of `v` and the counts add up to the number of values |
| Shapes.CategorizeOrderFree | utils.py:74-93 | The category depends only on the multiset of values, not on their order |
| Shapes.CategorizeFive | utils.py:74-93 | Five valid values below 8 always fall into one of the buckets 0..4 |
| Shapes.CategorizeBuckets | utils.py:74-93 | For five valid values below 8, each bucket is decided by how many values occur three times and how many occur twice: 0 is one triple and one pair, 1 is one triple and no pair, 2 is two pairs, 3 is one pair, and 4 is neither |
| Shapes.BucketPattern | utils.py:74-93 | Five valid values below 8 fall into a bucket 0..4, the bucket of the one pattern with as many triples and as many pairs of equal values |
| Shapes.PatternBuckets | scratchpad.py:42-48 | Pattern `i` of `calc_factorization` falls into bucket `i`, so `factorization[values_type]` is the entry computed for a pattern of the hand's own type |
| Symmetry.PermutedBit | utils.py:95-101 | Bit `i` of the permuted mask is bit `Source(p, i)` of the original (same value, colour `p[i / 8]`), and no bit at or above 24 is set |
| Symmetry.ApplyPermutationBelow | utils.py:95-101 | A permuted mask always fits in 24 bits |
| Symmetry.ApplyIdentity | utils.py:95-101 | Permutation `(0, 1, 2)` leaves every 24-bit mask unchanged |
| Symmetry.ApplyCompose | utils.py:95-101 | Permuting by `p` and then by `q` is permuting once by the composition |
| Symmetry.ApplyInverse | utils.py:95-101 | Permuting by the inverse undoes a permutation on 24-bit masks |
| Symmetry.ApplyKeepsDisjoint | utils.py:95-101 | Disjoint masks stay disjoint under a permutation |
| Symmetry.ApplyKeepsNumOnes | utils.py:95-101 | A permutation keeps the number of cards of a 24-bit mask |
| Symmetry.ClassMembers | utils.py:103-111 | The class holds exactly the recolourings of the state, one for each permutation of the three colours |
| Symmetry.RecolourSameClass | utils.py:103-115 | A recoloured state has the same class as the state itself |
| Symmetry.ClassMember | utils.py:103-111 | Every recolouring of a state belongs to its class |
| Symmetry.CanonicalizeIsLeast | utils.py:113-115 | The canonical state keeps the score, its pair is one of the class, and it is lexicographically no greater than any member |
| Symmetry.CanonicalizeBelow | utils.py:113-115 | For 24-bit masks the canonical pair is no greater than the state's own pair |
| Symmetry.CanonicalizeInvariant | utils.py:103-115 | Recolouring a state first does not change its canonical form |
| Symmetry.CanonicalizeIdempotent | utils.py:113-115 | Canonicalizing twice is canonicalizing once |
| Compaction.ExpandDeck | utils.py:117-126 | The loop computes the expansion, and the expanded deck misses the hand |
| Compaction.CompactifyDeck | utils.py:128-139 | The loop succeeds exactly when the deck is disjoint from the hand; otherwise the assertion at line 136 fails |
| Compaction.ExpandDisjoint | utils.py:117-126 | `expand_deck(hand, d) & hand == 0` |
| Compaction.CompactifyExpand | utils.py:117-139 | `compactify_deck(hand, expand_deck(hand, d)) == d` |
| Compaction.ExpandCompactify | utils.py:117-139 | Compaction succeeds exactly on decks disjoint from the hand, and expanding its result gives back the deck |
| Compaction.ExpandInjective | utils.py:117-126 | Different compact decks expand to different decks |
| Compaction.ExpandNumOnes | utils.py:117-126 | Expansion keeps the number of cards |
| Compaction.CompactifyNumOnes | utils.py:128-139 | Compaction keeps the number of cards |
| Compaction.ExpandBelow | utils.py:117-126 | With a hand of `h` cards below `2**k`, a compact deck below `2**(k-h)` expands below `2**k` |
| Compaction.CompactifyBelow | utils.py:128-139 | A deck below `2**k` that misses a hand of `h` cards compacts below `2**(k-h)` |
| Radix.CollectDigits | utils.py:206-210 | The divmod loop collects the base-`base` digits of `a`, and they evaluate back to `a` |
| Radix.DigitsSpec | utils.py:202-211 | The digits are below the base, lead with a non-zero digit, are empty only for 0, and evaluate to `a` |
| Radix.DigitsLength | utils.py:206-210 | `a` has at most `w` digits exactly when `a < base**w` |
| Radix.ToBaseDigits | utils.py:202-215 | For bases up to 10 the zero-filled string is all digit characters, and reading it back digit by digit gives the padded digits of `a` |
| Radix.PaddedSpec | utils.py:202-215 | The padded digits are at least `zfill` long, each below the base, and evaluate to `a`; they are exactly `zfill` long when `a < base**zfill` |
| Radix.PaddedInjective | utils.py:202-215 | Different numbers give different padded digit strings |
| Radix.PaddedComplete | utils.py:202-215 | Every digit string of width `w` is the padded representation of its value, which is below `base**w` |
| Radix.Str | utils.py:211 | `str(v)` is a non-empty string of digits, one character exactly when `v < 10` |
| GameCalc.CachedScoreSound | gamecalc.py:9-22 | Behind a cache that holds only rule-computed scores, the cached `score_combination` equals the uncached rule |
| GameCalc.RecordSound | gamecalc.py:41-42 | Recording correctly scored combinations never trips the assertion, keeps the cache sound, keeps old entries and adds exactly the recorded combos |
| GameCalc.CachedCardCombinationsSound | gamecalc.py:24-52 | The cached generator yields exactly the utils.py combinations, its assertions hold, and the cache stays sound while it learns every yielded combo |
| GameCalc.BuildFromSound | gamecalc.py:91-98 | Building the table with a sound step never fails, every entry is its hand's combinations, and the keys are the listed hands |
| GameCalc.CachedStepSound | gamecalc.py:24-52 | The cached generator is a sound step for `score_combination` |
| GameCalc.TableHandsSpec | gamecalc.py:93-97 | The hands enumerated are exactly the strictly increasing lists of 3 to 5 cards below 24 |
| GameCalc.BuildTableSpec | gamecalc.py:90-98 | Building `combinations_cache` succeeds. Its keys are exactly the sorted 3-, 4- and 5-card hands, each entry holds the hand's combinations, and the score cache ends sound |
| GameCalc.MovesRemovals | gamecalc.py:54-57 | Against the built table, `moves` fails exactly on a non-key hand of three or more cards. Every hand card can be removed, for 0 points, exactly when the deck is not empty |
| GameCalc.MovesOfKey | gamecalc.py:54-60 | For a table key, `moves` is the removals (only with a non-empty deck) followed by the deals of the hand's combinations |
| GameCalc.MovesDeals | gamecalc.py:58-60 | Deals are offered only for hands of three or more cards, and each plays three distinct hand cards with their `score_combination` score |
| GameCalc.MovesHasRun | gamecalc.py:58-60 | Any run in a table hand is offered as a deal |
| GameCalc.MovesHasTriple | gamecalc.py:58-60 | Any triple in a table hand is offered as a deal |
| GameCalc.OutcomesCount | gamecalc.py:63-86 | A removal has `len(deck)` outcomes, or one with an empty deck. A deal has C(len(deck), 3) outcomes when more than three cards are left, else one. Every outcome scores `score + score_change` |
| GameCalc.OutcomesConserve | gamecalc.py:63-86 | In every outcome, new hand + new deck + played cards = hand + deck with no card twice. The deck loses the refill, the hand gains it, and the new hand is sorted whenever a card was drawn or dealt |
| GameCalc.OutcomeSorted | gamecalc.py:69-70 | An outcome's hand is sorted whenever the hand was refilled |
| GameCalc.DealOutcomesComplete | gamecalc.py:77-82 | With more than three cards in a duplicate-free deck, any three distinct deck cards, in any order, give an outcome: the rest of the hand plus those cards, sorted, and the deck without them |
| Roomy.TableSize | mu_roomy.py:79-81 | `binom{k}_to_binary` has C(24, k) entries |
| Roomy.BuildIndexSound | mu_roomy.py:79-81 | Each built table lists every 24-bit mask of 5 (4, 3) cards exactly once |
| Roomy.IndexInSpec | mu_roomy.py:83-85 | The enumerated index of a list finds `x` exactly when it is listed, at a position holding `x` |
| Roomy.LookupSpec | mu_roomy.py:83-85 | Over layered tables the index is defined exactly on listed masks: 5-card masks come first, then 4-card, then 3-card masks |
| Roomy.BinomIndexSpec | mu_roomy.py:79-85 | `binary_to_binom` is defined exactly on 24-bit masks of 3 to 5 cards. 5-card hands get indices below C(24,5), 4-card hands the next C(24,4), 3-card hands the last C(24,3), and the table entry at the index is the mask |
| Roomy.BinomIndexInverts | mu_roomy.py:79-85 | `binary_to_binom` inverts the concatenated tables |
| Roomy.HandScoreChangeSpec | mu_roomy.py:87-93 | The score change is defined exactly for 24-bit masks of 3 to 5 cards. It is `best_move_score // 10`, lies in 0..10, and is 0 exactly when the hand has no deal |
| Roomy.ScoreChangeAtIndex | mu_roomy.py:160-168 | Reading `dp5`/`dp4`/`dp3` at a mask's index gives that mask's score change |
| Roomy.HandMovesSpec | mu_roomy.py:99-103 | The move list is defined exactly for 24-bit masks of 3 to 5 cards and is then `moves_from_hand`: one `Move(0, 1 << c, 0)` per card, then the deals |
| Roomy.MovesDpSpec | mu_roomy.py:105-115 | `moves_dp` accepts exactly the 5-card indices and returns the moves of the 5-card hand at that index |
| SolveDp.OutcomesDpSpec | mu_roomy.py:117-144 | `outcomes_dp` fails exactly on an empty deck. It lists one outcome per deck card for a removal and C(n, min(n, 3)) for a deal. The outcomes are exactly the states `(score + change, (hand ^ param) | d, deck ^ d)` for `d` a subset of the deck of the drawn size |
| SolveDp.DrawsSpec | mu_roomy.py:122-142 | The masks drawn are pairwise different, and are exactly the subsets of the deck of one card (remove) or `min(n, 3)` cards (deal) |
| SolveDp.OutcomesDpConserve | mu_roomy.py:117-144 | Every outcome of a legal move keeps hand and deck disjoint, holds the cards of hand and deck minus the played ones, moves the drawn count from deck to hand, and stays within 24 bits |
| SolveDp.MoveShape | mu_roomy.py:99-103 | A move of a hand plays cards of the hand: one card for 0 points, or three cards for 10..100 points |
| SolveDp.SuccessorHands | mu_roomy.py:117-144 | From a 5-card hand every successor has 3 to 5 cards, and exactly 5 while the deck is not empty |
| SolveDp.TerminalSpec | mu_roomy.py:146-176 | `get` fails exactly on hands that are not 3 to 5 cards below 24, or not 5 cards while a search is needed. Score ≥ 40 gives 1.0. An empty deck below 30 gives 0.0. From 30 on with an empty deck the result is 1.0 exactly when `score + best_move_score // 10 >= 40`. Otherwise `get` searches `moves_from_hand` |
| SolveDp.SuccessorsAnswered | mu_roomy.py:117-176 | Every successor of a legal 5-card state is a state `get` can answer |
| SolveDp.SelectSpec | mu_roomy.py:174-189 | The chosen weight is non-negative and the greatest average. With no positive average the result stays `(0.0, whatever)`. Otherwise it is the first move with the greatest average |
| Simulate.DeleteAllSpec | mu_roomy.py:220-221 | The deletions succeed exactly when the hand holds the played cards, and remove exactly them |
| Simulate.TurnSpec | mu_roomy.py:206-237 | A turn fails exactly on a card not in the hand or on a deal that does not score or lacks cards, and stops exactly on `'any'`. Otherwise it plays the cards, draws the refill from the front of the deck into a sorted hand, and adds the deal's score |
| Simulate.TurnRemove | mu_roomy.py:209-216 | A removal goes on exactly when the card is in the hand, keeps the score, and refills one card while the deck lasts |
| Simulate.DealTurnSpec | mu_roomy.py:217-229 | A deal goes on exactly when it scores and the hand holds its cards. It draws three cards, or the rest of the deck, and adds the score |
| Simulate.TurnShrinks | mu_roomy.py:206-237 | Every turn that goes on strictly shrinks `len(hand) + len(deck)`, so the loop ends |
| Simulate.TurnGain | mu_roomy.py:217-229 | A turn adds exactly its choice's points to the score |
| Simulate.PointsTens | mu_roomy.py:218 | A turn scores a multiple of 10, at most 100 |
| Simulate.PlayScore | mu_roomy.py:199-237 | The final score is never below the starting score |
| Layout.ColouringSpec | scratchpad.py:14-15 | Every colouring of the loop is five colours below 3 |
| Layout.NumOnesOfList | scratchpad.py:17-21 | The hand has as many cards as listed exactly when no card is listed twice, and never more |
| Layout.HandForSpec | scratchpad.py:17-21 | A colouring's hand has five cards exactly when its cards are distinct, and for values below 8 it fits in 24 bits |
| Layout.DedupSpec | scratchpad.py:21-27 | The processed hands are distinct and are exactly the candidates of five cards |
| Layout.UsedHandsSpec | scratchpad.py:14-27 | Colourings whose cards collide are skipped, and each distinct five-card hand of some colouring is processed exactly once |
| Layout.TargetSpec | scratchpad.py:31-37 | For a 24-bit five-card hand, every compact deck expands to a deck that misses the hand (the assertion at line 33 holds), and its mark lands on a canonical hand inside the row |
| Layout.CanonicalCompact | scratchpad.py:36-37 | The canonical state of a hand and a disjoint deck compacts to an index below `2**19`, under a canonical five-card hand |
| Layout.SetMarkShape | scratchpad.py:37 | Marking a row index below `2**19` succeeds, keeps one row of 0/1 marks per key, and adds only the marked key |
| Layout.SetMarkRows | scratchpad.py:37 | Marking sets the mark of the marked key's row and leaves every other key's row unchanged |
| Layout.MarkAllSpec | scratchpad.py:31-37 | Marking all compact decks of a hand never fails, counts one state per deck, and adds only target keys |
| Layout.MarkHandsSpec | scratchpad.py:14-37 | Over all processed hands, the states counted are `2**19` per hand and every key is a canonical five-card hand |
| Layout.FactorizationForSpec | scratchpad.py:10-39 | For five values below 8 nothing fails. `num_states` is `2**19` times the number of distinct hands, and every key of the factor is a canonical hand with a row of `2**19` marks |
| Layout.CanonicalHandOf | scratchpad.py:36-37 | The hand of every canonical state is itself canonical |
| Layout.CanonicalPerOrbit | scratchpad.py:137-140 | Two canonical hands that are recolourings of each other are the same hand |
| Layout.ToStoreSpec | scratchpad.py:59 | A row is stored as `None` exactly when all `2**19` compact decks are marked, and the stored value gives back the row's number of marks |
| Layout.StoredTotalMarks | scratchpad.py:80 | Storing full rows as `None` loses no count: the stored factor still adds up to `num_cstates` |
| Layout.EntrySpec | scratchpad.py:53-60 | For each pattern the entry exists, its keys are canonical hands, and it counts `2**19` states per distinct hand |
| Layout.CollectSpec | scratchpad.py:53-60 | The loop fails exactly when some step fails, and otherwise keeps every result in order |
| Layout.CalcFactorizationSpec | scratchpad.py:41-60 | All five patterns are factorized without failure |
| Layout.ScanListSpec | scratchpad.py:86-110 | The loop meets every tuple. It counts each tuple once and exactly the valid ones, and the total is their summed room |
| Layout.AllTuples | scratchpad.py:87-89 | The enumeration meets exactly the sorted tuples of five values below 8 |
| Layout.StorageSizeSpec | scratchpad.py:77-121 | With five buckets the size is the summed room of every valid sorted tuple, each counted once; tuples with a value more than three times get none |
| Layout.HandValuesShape | scratchpad.py:131-132 | A 24-bit five-card hand has a valid sorted value tuple and a bucket in 0..4, the same for sorted and unsorted values |
| Layout.PresentSpec | scratchpad.py:153 | The present rows are exactly the stored values that are not `None` |
| Layout.HandStorageFormatSpec | scratchpad.py:125-161 | A non-canonical hand gets 0 slots. A canonical hand with six distinct recolourings gets `2**19`. Otherwise it gets the marks of its type's unique partial row, and fails exactly when that row is not unique. The type is always `categorize_values` of the card values. When every type has one partial row of marks, every 24-bit five-card hand gets a format of type 0..4 with at most `2**19` slots, and only canonical hands get any |
| Layout.FormatKind | scratchpad.py:131-132 | The type returned is `categorize_values` of the hand's values. For a 24-bit five-card hand it is the index of the one pattern of `calc_factorization` with as many triples and as many pairs of equal values |
| Layout.SlotsPerOrbit | scratchpad.py:137-157 | Two recolourings of a hand that both get slots are the same hand: each orbit is stored once |
| Layout.OffsetLoopSpec | scratchpad.py:170-176 | Each running offset is the sum of the slots before it |
| Layout.AllocateSpec | scratchpad.py:170-181 | The allocation exists exactly when the slots add up to `total_size`. Offsets start at 0, are prefix sums and hence nondecreasing, and the last hand ends at `total_size` |
| Layout.AllocationSpec | scratchpad.py:164-181 | The allocation fails when some hand's format fails. Otherwise it exists exactly when the slots add up to `total_size`, with prefix-sum, nondecreasing offsets and each hand's `categorize_values` type |
| Layout.AllocationOfHands | scratchpad.py:170-181 | For 24-bit five-card hands and one partial row per type, no hand's format fails, so the allocation fails exactly when the slots do not add up |
| Layout.CalcAllocationSpec | scratchpad.py:163-181 | `total_size` always exists with five entries, and the allocation is the one for it. For 24-bit five-card hands and one partial row per type, it exists exactly when the slots add up to the room `calc_storage_size` counts, each hand starting at the sum of the slots before it |

## Left out

- The heuristic `solve_game` (mu_roomy.py:9-49) is approximate planning with a floating-point guess, so it is not modelled.
- Floating-point averaging in `get` (mu_roomy.py:177-187) is left out. Only the selection rule over the averages is modelled (`SolveDp.Select`), over `real`, with the averages taken as given.
- The recursion of `get` over its memo dictionary (mu_roomy.py:170-171, 188) is left out, as are its progress printing and the memo itself. The model covers the terminal branches, `moves_dp`, `outcomes_dp` and the selection rule.
- `whatever = Move(2, None, 0)` carries `None` as its parameter. The model uses mask 0 with action `Any`.
- The translation of the best move back to `('remove' | 'deal' | 'any', param)` (mu_roomy.py:191-197) is left out. `simulate_game` takes the algorithm's choice as a parameter.
- In `simulate_game`, `random.shuffle`, printing and the module-level call (mu_roomy.py:200-203, 245) are left out. The hand and deck are parameters.
- The `assert action == 'any'` of `simulate_game` cannot fail in the model, because a choice is one of the three actions.
- JSON and file I/O, `dump` and `load` are left out (utils.py:34-38; scratchpad.py:72-73, 165-166, 183-184). So are timing and all printing. The factorization is passed in as data.
- The `hand_values_data_1` and `hand_values_data_2` side dictionaries and the cross-check in `__main__` (scratchpad.py:186-201) are left out. So is the JSON round-trip that turns integer keys into strings.
- `gen.hands5` is a parameter of `Layout.Allocation` and `Layout.CalcAllocation`, because generator.py is not part of this model.
- The pretty-printers (utils.py:16-30) and the `Location` and `Handle` records (utils.py:11-12) are left out. They are display and storage plumbing.
- generator.py and profiling.py are drivers for a disk storage engine that is not part of this model.
- tests.py is not modelled as a file. It imports `moves_cache` and `score_change_cache` from utils.py, which defines neither of them. Its assertions at tests.py:14, 19 and 23-25 are stated as contracts: `Scoring.RemoveMovesSpec`, `Scoring.DealMovesSpec` and `SolveDp.MoveShape` say that a move plays cards of the hand and that a removal scores 0, and `Roomy.HandScoreChangeSpec` says that a score change lies in 0..10. The assertion at tests.py:20 is contradicted by the modelled code, as explained under the two score scales above.
- Simulate.PlayScore: states only that the final score never drops below the starting score. The fact that each turn adds a multiple of 10 is proved per turn (`Simulate.PointsTens`, `Simulate.TurnGain`) and is not carried through the loop.
- Radix.ToBase: requires `base >= 2`. For a non-zero `a` the source loops forever with base 1 and raises `ZeroDivisionError` with base 0 (utils.py:207-208). Neither path is modelled.
- SolveDp.SelectSpec: concerns the selection among given averages only. It does not say that an average is the mean of the outcome weights, because that mean is floating-point arithmetic.

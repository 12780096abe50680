/** Hand shapes (utils.py): which multisets of card values a hand may hold,
    and the five multiplicity buckets of a five-card hand. */
module Shapes {
  import opened Wrappers
  import opened Seqs

  /** `values.count(v)` */
  function Count(values: seq<nat>, v: nat): nat {
    if |values| == 0 then 0 else (if values[0] == v then 1 else 0) + Count(values[1..], v)
  }

  lemma {:induction false} CountIsMultiplicity(values: seq<nat>, v: nat)
    ensures Count(values, v) == multiset(values)[v]
  {
    if |values| > 0 {
      CountIsMultiplicity(values[1..], v);
      assert values == [values[0]] + values[1..];
    }
  }

  /** The loop of `are_valid_values` from value `v` on. */
  function ValidFrom(values: seq<nat>, v: nat): bool
    decreases 8 - v
  {
    if v >= 8 then true
    else if Count(values, v) > 3 then false
    else ValidFrom(values, v + 1)
  }

  /** `are_valid_values(values)` */
  function AreValidValues(values: seq<nat>): bool {
    ValidFrom(values, 0)
  }

  lemma {:induction false} ValidFromSpec(values: seq<nat>, v: nat)
    ensures ValidFrom(values, v) <==> forall w :: v <= w < 8 ==> multiset(values)[w] <= 3
    decreases 8 - v
  {
    if v < 8 {
      ValidFromSpec(values, v + 1);
      CountIsMultiplicity(values, v);
    }
  }

  /** No value of 0 .. 7 occurs more than three times (there are three
      colours); values from 8 up are not looked at. */
  lemma AreValidValuesSpec(values: seq<nat>)
    ensures AreValidValues(values) <==> forall v :: v < 8 ==> multiset(values)[v] <= 3
  {
    ValidFromSpec(values, 0);
  }

  // ---------------------------------------------------- categorize_values

  /** The result of `categorize_values`: a bucket number, Python's implicit
      `None` (three of a value, and the second count neither 1 nor 2), or
      the `IndexError` a value from 8 up raises. */
  datatype Category = Bucket(kind: nat) | NoBucket | BadValue

  /** `val_cnt` after the counting loop, or `None` on an out-of-range value. */
  function Tally(values: seq<nat>): Option<seq<nat>> {
    if |values| == 0 then Some(seq(8, _ => 0))
    else
      var last := values[|values| - 1];
      match Tally(values[..|values| - 1])
      case None => None
      case Some(cnt) =>
        if last < |cnt| then Some(cnt[last := cnt[last] + 1]) else None
  }

  lemma {:induction false} TallySpec(values: seq<nat>)
    ensures Tally(values).Some? <==> AllBelow(values, 8)
    ensures Tally(values).Some? ==> Tallied(values, Tally(values).value)
  {
    if |values| == 0 {
      var z: seq<nat> := seq(8, _ => 0);
      assert Sum(z) == 0 by {
        SumAllZero(z);
      }
    } else {
      var init := values[..|values| - 1];
      var last := values[|values| - 1];
      TallySpec(init);
      assert values == init + [last];
      AllBelowSnoc(init, last);
      if Tally(init).Some? && last < 8 {
        TallyStep(init, last, Tally(init).value);
      }
    }
  }

  /** `cnt` counts how often each value below 8 occurs in `values`. */
  ghost predicate Tallied(values: seq<nat>, cnt: seq<nat>) {
    |cnt| == 8 && (forall v :: 0 <= v < 8 ==> cnt[v] == multiset(values)[v]) && Sum(cnt) == |values|
  }

  lemma AllBelowSnoc(init: seq<nat>, last: nat)
    ensures AllBelow(init + [last], 8) <==> AllBelow(init, 8) && last < 8
  {
    var values := init + [last];
    if AllBelow(values, 8) {
      assert values[|init|] == last;
      forall i | 0 <= i < |init| ensures init[i] < 8 {
        assert values[i] == init[i];
      }
    }
  }

  lemma TallyStep(init: seq<nat>, last: nat, cnt: seq<nat>)
    requires Tallied(init, cnt) && last < 8
    ensures Tallied(init + [last], cnt[last := cnt[last] + 1])
  {
    assert multiset(init + [last]) == multiset(init) + multiset{last};
    SumBump(cnt, last);
  }

  lemma {:induction false} SumAllZero(z: seq<nat>)
    requires forall i :: 0 <= i < |z| ==> z[i] == 0
    ensures Sum(z) == 0
  {
    if |z| > 0 {
      SumAllZero(z[..|z| - 1]);
    }
  }

  lemma {:induction false} SumBump(cnt: seq<nat>, v: nat)
    requires v < |cnt|
    ensures Sum(cnt[v := cnt[v] + 1]) == Sum(cnt) + 1
  {
    var next := cnt[v := cnt[v] + 1];
    var n := |cnt|;
    if v == n - 1 {
      assert next[..n - 1] == cnt[..n - 1];
    } else {
      SumBump(cnt[..n - 1], v);
      assert next[..n - 1] == cnt[..n - 1][v := cnt[v] + 1];
    }
  }

  /** The branches of `categorize_values` on the largest and second
      largest counts. */
  function Classify(top: nat, second: nat): Category {
    if top == 3 then
      if second == 2 then Bucket(0)
      else if second == 1 then Bucket(1)
      else NoBucket
    else if top == 2 then
      if second == 2 then Bucket(2) else Bucket(3)
    else Bucket(4)
  }

  /** `categorize_values(values)`: counts per value, sorted, and the two
      largest decide. */
  function CategorizeValues(values: seq<nat>): Category {
    TallySpec(values);
    match Tally(values)
    case None => BadValue
    case Some(cnt) =>
      var sorted := Sort(cnt);
      Classify(sorted[7], sorted[6])
  }

  /** The bucket depends only on the multiset of values. */
  lemma CategorizeOrderFree(a: seq<nat>, b: seq<nat>)
    requires multiset(a) == multiset(b)
    ensures CategorizeValues(a) == CategorizeValues(b)
  {
    TallySpec(a);
    TallySpec(b);
    assert AllBelow(a, 8) <==> AllBelow(b, 8) by {
      forall i | 0 <= i < |a| ensures a[i] in b {
        assert a[i] in multiset(a);
      }
      forall i | 0 <= i < |b| ensures b[i] in a {
        assert b[i] in multiset(b);
      }
    }
    if Tally(a).Some? {
      var ca, cb := Tally(a).value, Tally(b).value;
      assert ca == cb;
    }
  }

  /** The largest element of a sorted list sits last. */
  lemma SortedLast(s: seq<nat>)
    requires Sorted(s) && |s| > 0
    ensures forall i :: 0 <= i < |s| ==> s[i] <= s[|s| - 1]
  {
  }

  lemma SumEight(s: seq<nat>)
    requires |s| == 8
    ensures Sum(s) == s[0] + s[1] + s[2] + s[3] + s[4] + s[5] + s[6] + s[7]
  {
    SumOfPrefix(s, 0);
    SumOfPrefix(s, 1);
    SumOfPrefix(s, 2);
    SumOfPrefix(s, 3);
    SumOfPrefix(s, 4);
    SumOfPrefix(s, 5);
    SumOfPrefix(s, 6);
    SumOfPrefix(s, 7);
    assert s[..8] == s;
  }

  /** The counts, sorted, of valid values below 8: every count is at most 3,
      they sum to the number of values, and the largest is 3 exactly when
      some value occurs three times. */
  lemma SortedCounts(values: seq<nat>)
    requires AllBelow(values, 8) && AreValidValues(values)
    ensures Tally(values).Some?
    ensures var s := Sort(Tally(values).value);
      |s| == 8 && Sorted(s) && Sum(s) == |values| &&
      (forall i :: 0 <= i < 8 ==> s[i] <= 3) &&
      (s[7] == 3 <==> exists v :: 0 <= v < 8 && multiset(values)[v] == 3) &&
      (s[7] <= 1 <==> forall v :: 0 <= v < 8 ==> multiset(values)[v] <= 1)
  {
    TallySpec(values);
    AreValidValuesSpec(values);
    var cnt := Tally(values).value;
    var s := Sort(cnt);
    SumSort(cnt);
    SortedLast(s);
    forall i | 0 <= i < 8 ensures s[i] <= 3 && s[i] in cnt {
      assert s[i] in multiset(s);
    }
    assert s[7] in cnt;
    forall v | 0 <= v < 8 ensures cnt[v] <= s[7] {
      assert cnt[v] in multiset(cnt);
      assert cnt[v] in s;
    }
  }

  /** Five valid values always land in one of the five buckets. */
  lemma CategorizeFive(values: seq<nat>)
    requires |values| == 5 && AllBelow(values, 8) && AreValidValues(values)
    ensures CategorizeValues(values).Bucket?
    ensures CategorizeValues(values).kind < 5
  {
    SortedCounts(values);
    var s := Sort(Tally(values).value);
    assert CategorizeValues(values) == Classify(s[7], s[6]);
    SumEight(s);
    if s[7] == 3 {
      assert s[0] <= s[6] && s[1] <= s[6] && s[2] <= s[6] && s[3] <= s[6] && s[4] <= s[6] && s[5] <= s[6];
      assert s[6] != 0 && s[6] != 3;
    }
  }

  /** `[values.count(v) for v in range(8)]`: how often each value occurs. */
  function Multiplicities(values: seq<nat>): seq<nat> {
    seq(8, (v: nat) => Count(values, v))
  }

  /** How many of the values 0 .. 7 occur exactly `k` times. */
  function Occurring(values: seq<nat>, k: nat): nat {
    Count(Multiplicities(values), k)
  }

  /** The bucket of each five-value hand, by how many values it holds three
      times and how many twice: 0 is three and two of a kind (`00011`), 1
      three of a kind and two singles (`00012`), 2 two pairs (`01122`), 3
      one pair (`01233`), 4 five different values (`01234`). */
  lemma CategorizeBuckets(values: seq<nat>)
    requires |values| == 5 && AllBelow(values, 8) && AreValidValues(values)
    ensures var c := CategorizeValues(values);
      var triples, pairs := Occurring(values, 3), Occurring(values, 2);
      (c == Bucket(0) <==> triples == 1 && pairs == 1) &&
      (c == Bucket(1) <==> triples == 1 && pairs == 0) &&
      (c == Bucket(2) <==> triples == 0 && pairs == 2) &&
      (c == Bucket(3) <==> triples == 0 && pairs == 1) &&
      (c == Bucket(4) <==> triples == 0 && pairs == 0)
    ensures CategorizeValues(values) in {Bucket(0), Bucket(1)} <==>
      exists v :: 0 <= v < 8 && multiset(values)[v] == 3
    ensures CategorizeValues(values) == Bucket(4) <==>
      forall v :: 0 <= v < 8 ==> multiset(values)[v] <= 1
  {
    SortedCounts(values);
    CategorizeFive(values);
    var cnt := Tally(values).value;
    var s := Sort(cnt);
    assert CategorizeValues(values) == Classify(s[7], s[6]);
    TallySpec(values);
    forall v | 0 <= v < 8 ensures Multiplicities(values)[v] == cnt[v] {
      CountIsMultiplicity(values, v);
    }
    assert Multiplicities(values) == cnt;
    SameCount(cnt, s, 3);
    SameCount(cnt, s, 2);
    SortedShape(s);
  }

  /** Lists with the same elements count each element alike. */
  lemma SameCount(a: seq<nat>, b: seq<nat>, k: nat)
    requires multiset(a) == multiset(b)
    ensures Count(a, k) == Count(b, k)
  {
    CountIsMultiplicity(a, k);
    CountIsMultiplicity(b, k);
  }

  /** The sorted counts of five values, none more than three times, fall
      into the branches of `categorize_values` by their threes and twos. */
  lemma SortedShape(s: seq<nat>)
    requires |s| == 8 && Sorted(s) && Sum(s) == 5
    requires forall i :: 0 <= i < 8 ==> s[i] <= 3
    ensures var c := Classify(s[7], s[6]);
      var triples, pairs := Count(s, 3), Count(s, 2);
      (c == Bucket(0) <==> triples == 1 && pairs == 1) &&
      (c == Bucket(1) <==> triples == 1 && pairs == 0) &&
      (c == Bucket(2) <==> triples == 0 && pairs == 2) &&
      (c == Bucket(3) <==> triples == 0 && pairs == 1) &&
      (c == Bucket(4) <==> triples == 0 && pairs == 0)
  {
    SumEight(s);
    CountEight(s, 3);
    CountEight(s, 2);
    assert s[0] <= s[1] <= s[2] <= s[3] <= s[4] <= s[5] <= s[6] <= s[7];
  }

  /** Five values whose multiplicities are `m`, none above 3, are valid,
      and the values occurring three times and twice are counted in `m`. */
  lemma ByMultiplicities(values: seq<nat>, m: seq<nat>)
    requires |m| == 8 && forall v :: 0 <= v < 8 ==> Count(values, v) == m[v] <= 3
    ensures AreValidValues(values)
    ensures Occurring(values, 3) == Count(m, 3) && Occurring(values, 2) == Count(m, 2)
  {
    forall v | 0 <= v < 8 ensures multiset(values)[v] <= 3 {
      CountIsMultiplicity(values, v);
    }
    AreValidValuesSpec(values);
    assert Multiplicities(values) == m;
  }

  /** The five value patterns of `calc_factorization`, in bucket order. */
  const Patterns: seq<seq<nat>> :=
    [[0, 0, 0, 1, 1], [0, 0, 0, 1, 2], [0, 1, 1, 2, 2], [0, 1, 2, 3, 3], [0, 1, 2, 3, 4]]

  /** Pattern `i` lies in bucket `i`, so `factorization[values_type]`
      finds the entry `calc_factorization` computed for the pattern of the
      hand's own bucket. */
  lemma PatternBuckets()
    ensures forall i :: 0 <= i < |Patterns| ==> CategorizeValues(Patterns[i]) == Bucket(i)
  {
    forall i | 0 <= i < |Patterns| ensures CategorizeValues(Patterns[i]) == Bucket(i) {
      if i == 0 {
        PatternThreeTwo();
      } else if i == 1 {
        PatternThreeOneOne();
      } else if i == 2 {
        PatternTwoTwo();
      } else if i == 3 {
        PatternTwoOneOneOne();
      } else {
        PatternDistinct();
      }
    }
  }

  /** Five valid values below 8 fall into the bucket of the one pattern
      with as many values occurring three times and as many occurring
      twice. */
  lemma BucketPattern(values: seq<nat>)
    requires |values| == 5 && AllBelow(values, 8) && AreValidValues(values)
    ensures var kind := CategorizeValues(values);
      kind.Bucket? && kind.kind < 5 && CategorizeValues(Patterns[kind.kind]) == kind &&
      Occurring(values, 3) == Occurring(Patterns[kind.kind], 3) &&
      Occurring(values, 2) == Occurring(Patterns[kind.kind], 2)
  {
    CategorizeFive(values);
    CategorizeBuckets(values);
    var k := CategorizeValues(values).kind;
    if k == 0 {
      PatternThreeTwo();
    } else if k == 1 {
      PatternThreeOneOne();
    } else if k == 2 {
      PatternTwoTwo();
    } else if k == 3 {
      PatternTwoOneOneOne();
    } else {
      PatternDistinct();
    }
  }

  /** Pattern 0, three of one value and two of another. */
  lemma PatternThreeTwo()
    ensures CategorizeValues(Patterns[0]) == Bucket(0)
    ensures Occurring(Patterns[0], 3) == 1 && Occurring(Patterns[0], 2) == 1
  {
    var p := Patterns[0];
    assert |p| == 5 && AllBelow(p, 8) by {
      assert p == [0, 0, 0, 1, 1];
    }
    assert AreValidValues(p) && Occurring(p, 3) == 1 && Occurring(p, 2) == 1 by {
      var m: seq<nat> := [3, 2, 0, 0, 0, 0, 0, 0];
      assert p == [0, 0, 0, 1, 1];
      forall v | 0 <= v < 8 ensures Count(p, v) == m[v] <= 3 {
        CountFive(p, v);
      }
      ByMultiplicities(p, m);
      CountEight(m, 3);
      CountEight(m, 2);
    }
    CategorizeBuckets(p);
  }

  /** Pattern 1, three of one value and two singles. */
  lemma PatternThreeOneOne()
    ensures CategorizeValues(Patterns[1]) == Bucket(1)
    ensures Occurring(Patterns[1], 3) == 1 && Occurring(Patterns[1], 2) == 0
  {
    var p := Patterns[1];
    assert |p| == 5 && AllBelow(p, 8) by {
      assert p == [0, 0, 0, 1, 2];
    }
    assert AreValidValues(p) && Occurring(p, 3) == 1 && Occurring(p, 2) == 0 by {
      var m: seq<nat> := [3, 1, 1, 0, 0, 0, 0, 0];
      assert p == [0, 0, 0, 1, 2];
      forall v | 0 <= v < 8 ensures Count(p, v) == m[v] <= 3 {
        CountFive(p, v);
      }
      ByMultiplicities(p, m);
      CountEight(m, 3);
      CountEight(m, 2);
    }
    CategorizeBuckets(p);
  }

  /** Pattern 2, two pairs. */
  lemma PatternTwoTwo()
    ensures CategorizeValues(Patterns[2]) == Bucket(2)
    ensures Occurring(Patterns[2], 3) == 0 && Occurring(Patterns[2], 2) == 2
  {
    var p := Patterns[2];
    assert |p| == 5 && AllBelow(p, 8) by {
      assert p == [0, 1, 1, 2, 2];
    }
    assert AreValidValues(p) && Occurring(p, 3) == 0 && Occurring(p, 2) == 2 by {
      var m: seq<nat> := [1, 2, 2, 0, 0, 0, 0, 0];
      assert p == [0, 1, 1, 2, 2];
      forall v | 0 <= v < 8 ensures Count(p, v) == m[v] <= 3 {
        CountFive(p, v);
      }
      ByMultiplicities(p, m);
      CountEight(m, 3);
      CountEight(m, 2);
    }
    CategorizeBuckets(p);
  }

  /** Pattern 3, one pair. */
  lemma PatternTwoOneOneOne()
    ensures CategorizeValues(Patterns[3]) == Bucket(3)
    ensures Occurring(Patterns[3], 3) == 0 && Occurring(Patterns[3], 2) == 1
  {
    var p := Patterns[3];
    assert |p| == 5 && AllBelow(p, 8) by {
      assert p == [0, 1, 2, 3, 3];
    }
    assert AreValidValues(p) && Occurring(p, 3) == 0 && Occurring(p, 2) == 1 by {
      var m: seq<nat> := [1, 1, 1, 2, 0, 0, 0, 0];
      assert p == [0, 1, 2, 3, 3];
      forall v | 0 <= v < 8 ensures Count(p, v) == m[v] <= 3 {
        CountFive(p, v);
      }
      ByMultiplicities(p, m);
      CountEight(m, 3);
      CountEight(m, 2);
    }
    CategorizeBuckets(p);
  }

  /** Pattern 4, five different values. */
  lemma PatternDistinct()
    ensures CategorizeValues(Patterns[4]) == Bucket(4)
    ensures Occurring(Patterns[4], 3) == 0 && Occurring(Patterns[4], 2) == 0
  {
    var p := Patterns[4];
    assert |p| == 5 && AllBelow(p, 8) by {
      assert p == [0, 1, 2, 3, 4];
    }
    assert AreValidValues(p) && Occurring(p, 3) == 0 && Occurring(p, 2) == 0 by {
      var m: seq<nat> := [1, 1, 1, 1, 1, 0, 0, 0];
      assert p == [0, 1, 2, 3, 4];
      forall v | 0 <= v < 8 ensures Count(p, v) == m[v] <= 3 {
        CountFive(p, v);
      }
      ByMultiplicities(p, m);
      CountEight(m, 3);
      CountEight(m, 2);
    }
    CategorizeBuckets(p);
  }

  /** One step of `values.count(v)` from position `i` on. */
  lemma CountAt(s: seq<nat>, i: nat, v: nat)
    requires i < |s|
    ensures Count(s[i..], v) == Hit(s[i], v) + Count(s[i + 1..], v)
  {
    assert s[i..][1..] == s[i + 1..];
  }

  /** `1` when `x == v`, else `0`. */
  function Hit(x: nat, v: nat): nat {
    if x == v then 1 else 0
  }

  lemma CountEight(s: seq<nat>, v: nat)
    requires |s| == 8
    ensures Count(s, v) ==
      Hit(s[0], v) + Hit(s[1], v) + Hit(s[2], v) + Hit(s[3], v) +
      Hit(s[4], v) + Hit(s[5], v) + Hit(s[6], v) + Hit(s[7], v)
  {
    assert s[0..] == s;
    CountAt(s, 0, v);
    CountAt(s, 1, v);
    CountAt(s, 2, v);
    CountAt(s, 3, v);
    CountAt(s, 4, v);
    CountAt(s, 5, v);
    CountAt(s, 6, v);
    CountAt(s, 7, v);
    assert s[8..] == [];
  }

  lemma CountFive(s: seq<nat>, v: nat)
    requires |s| == 5
    ensures Count(s, v) == Hit(s[0], v) + Hit(s[1], v) + Hit(s[2], v) + Hit(s[3], v) + Hit(s[4], v)
  {
    assert s[0..] == s;
    CountAt(s, 0, v);
    CountAt(s, 1, v);
    CountAt(s, 2, v);
    CountAt(s, 3, v);
    CountAt(s, 4, v);
    assert s[5..] == [];
  }
}

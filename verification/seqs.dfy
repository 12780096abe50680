/** Sequence vocabulary used throughout the model: orderedness, sorting,
    sums, list filtering and `itertools.combinations`. */
module Seqs {

  predicate Sorted(s: seq<nat>) {
    forall i, j :: 0 <= i < j < |s| ==> s[i] <= s[j]
  }

  predicate StrictlyIncreasing(s: seq<nat>) {
    forall i, j :: 0 <= i < j < |s| ==> s[i] < s[j]
  }

  /** No element occurs twice. */
  predicate NoDup<T(==)>(s: seq<T>) {
    forall i, j :: 0 <= i < j < |s| ==> s[i] != s[j]
  }

  predicate AllBelow(s: seq<nat>, bound: nat) {
    forall i :: 0 <= i < |s| ==> s[i] < bound
  }

  lemma StrictlyIncreasingNoDup(s: seq<nat>)
    requires StrictlyIncreasing(s)
    ensures NoDup(s) && Sorted(s)
  {
  }

  lemma HeadIn(s: seq<nat>)
    ensures |s| > 0 ==> s[0] in s
  {
  }

  /** A strictly increasing list is determined by its set of elements. */
  lemma {:induction false} StrictlyIncreasingUnique(a: seq<nat>, b: seq<nat>)
    requires StrictlyIncreasing(a) && StrictlyIncreasing(b)
    requires forall x :: x in a <==> x in b
    ensures a == b
  {
    if |a| == 0 {
      HeadIn(b);
    } else {
      assert a[0] in b;
      assert |b| > 0;
      assert b[0] in a;
      assert a[0] == b[0];
      forall x ensures x in a[1..] <==> x in b[1..] {
        if x in a[1..] {
          assert x > a[0];
          assert x in b;
        }
        if x in b[1..] {
          assert x > b[0];
          assert x in a;
        }
      }
      StrictlyIncreasingUnique(a[1..], b[1..]);
      assert a == [a[0]] + a[1..] && b == [b[0]] + b[1..];
    }
  }

  /** `list(range(n))` */
  function Range(n: nat): (r: seq<nat>)
    ensures |r| == n
    ensures forall i :: 0 <= i < n ==> r[i] == i
    ensures StrictlyIncreasing(r)
  {
    seq(n, i => i)
  }

  /** The tail of a duplicate-free list is duplicate-free. */
  lemma NoDupTail<T>(s: seq<T>)
    requires NoDup(s) && |s| > 0
    ensures NoDup(s[1..])
  {
    forall i, j | 0 <= i < j < |s| - 1 ensures s[1..][i] != s[1..][j] {
      assert s[1..][i] == s[i + 1] && s[1..][j] == s[j + 1];
    }
  }

  /** Where an element sits in a list. */
  lemma Position<T>(x: T, s: seq<T>) returns (i: nat)
    requires x in s
    ensures i < |s| && s[i] == x
  {
    var j :| 0 <= j < |s| && s[j] == x;
    i := j;
  }

  lemma InAppend<T>(x: T, a: seq<T>, b: seq<T>)
    ensures x in a + b <==> x in a || x in b
  {
  }

  // ---------------------------------------------------------------- sorting

  function Insert(x: nat, s: seq<nat>): (r: seq<nat>)
    requires Sorted(s)
    ensures Sorted(r)
    ensures multiset(r) == multiset(s) + multiset{x}
    ensures |r| == |s| + 1
  {
    if |s| == 0 then [x]
    else if x <= s[0] then [x] + s
    else
      var rest := Insert(x, s[1..]);
      InsertBehind(x, s, rest);
      [s[0]] + rest
  }

  /** Putting the head back in front of `x` inserted into the tail keeps the
      list sorted and adds `x` to its elements. */
  lemma InsertBehind(x: nat, s: seq<nat>, rest: seq<nat>)
    requires Sorted(s) && |s| > 0 && s[0] < x
    requires Sorted(rest) && multiset(rest) == multiset(s[1..]) + multiset{x}
    ensures Sorted([s[0]] + rest)
    ensures multiset([s[0]] + rest) == multiset(s) + multiset{x}
  {
    assert s == [s[0]] + s[1..];
    BoundedBelow(rest, s[1..], x, s[0]);
  }

  /** Elements of a list whose multiset is that of `s` plus `x` are at least `lo`
      when `x` and all elements of `s` are. */
  lemma BoundedBelow(r: seq<nat>, s: seq<nat>, x: nat, lo: nat)
    requires multiset(r) == multiset(s) + multiset{x}
    requires lo <= x && forall i :: 0 <= i < |s| ==> lo <= s[i]
    ensures forall i :: 0 <= i < |r| ==> lo <= r[i]
  {
    forall i | 0 <= i < |r| ensures lo <= r[i] {
      assert r[i] in multiset(r);
      if r[i] != x {
        assert r[i] in multiset(s);
        assert r[i] in s;
      }
    }
  }

  /** Python's `sorted` / `list.sort()` on integers: ascending, same elements. */
  function Sort(s: seq<nat>): (r: seq<nat>)
    ensures Sorted(r)
    ensures multiset(r) == multiset(s)
    ensures |r| == |s|
  {
    if |s| == 0 then []
    else
      assert s == [s[0]] + s[1..];
      Insert(s[0], Sort(s[1..]))
  }

  /** A sorted sequence is determined by its multiset of elements. */
  lemma {:induction false} SortedUnique(a: seq<nat>, b: seq<nat>)
    requires Sorted(a) && Sorted(b)
    requires multiset(a) == multiset(b)
    ensures a == b
  {
    if |a| == 0 {
      assert |b| == |multiset(b)| == 0;
    } else {
      assert |b| == |multiset(b)| == |a|;
      SortedHeads(a, b);
      TailMultiset(a);
      TailMultiset(b);
      SortedUnique(a[1..], b[1..]);
      assert a == [a[0]] + a[1..];
      assert b == [b[0]] + b[1..];
    }
  }

  /** Two non-empty sorted sequences with one multiset start alike. */
  lemma SortedHeads(a: seq<nat>, b: seq<nat>)
    requires Sorted(a) && Sorted(b) && |a| > 0 && |b| > 0
    requires multiset(a) == multiset(b)
    ensures a[0] == b[0]
  {
    assert a[0] in multiset(b);
    assert b[0] in multiset(a);
    var i := Position(b[0], a);
    var j := Position(a[0], b);
  }

  lemma TailMultiset(a: seq<nat>)
    requires |a| > 0
    ensures multiset(a[1..]) == multiset(a) - multiset{a[0]}
  {
    assert a == [a[0]] + a[1..];
  }

  lemma SortSorted(s: seq<nat>)
    requires Sorted(s)
    ensures Sort(s) == s
  {
    SortedUnique(Sort(s), s);
  }

  /** The first components of a list of pairs: the keys of a dictionary's
      items, or the counts of a list of formats. */
  function Firsts<A, B>(s: seq<(A, B)>): (r: seq<A>)
    ensures |r| == |s| && forall i :: 0 <= i < |s| ==> r[i] == s[i].0
  {
    seq(|s|, i requires 0 <= i < |s| => s[i].0)
  }

  // ------------------------------------------------------------------- sums

  /** `sum(s)` */
  function Sum(s: seq<nat>): nat {
    if |s| == 0 then 0 else Sum(s[..|s| - 1]) + s[|s| - 1]
  }

  lemma {:induction false} SumOfPrefix(s: seq<nat>, i: nat)
    requires i < |s|
    ensures Sum(s[..i + 1]) == Sum(s[..i]) + s[i]
  {
    assert s[..i + 1][..i] == s[..i];
  }

  lemma {:induction false} SumCons(x: nat, s: seq<nat>)
    ensures Sum([x] + s) == x + Sum(s)
  {
    if |s| > 0 {
      var init := s[..|s| - 1];
      assert ([x] + s)[..|s|] == [x] + init;
      SumCons(x, init);
    }
  }

  lemma {:induction false} SumInsert(x: nat, s: seq<nat>)
    requires Sorted(s)
    ensures Sum(Insert(x, s)) == Sum(s) + x
  {
    if |s| == 0 {
      assert Insert(x, s) == [x] + s;
      SumCons(x, s);
    } else if x <= s[0] {
      SumCons(x, s);
    } else {
      SumInsert(x, s[1..]);
      SumCons(s[0], Insert(x, s[1..]));
      SumCons(s[0], s[1..]);
      assert s == [s[0]] + s[1..];
    }
  }

  /** Sorting keeps the sum. */
  lemma {:induction false} SumSort(s: seq<nat>)
    ensures Sum(Sort(s)) == Sum(s)
  {
    if |s| > 0 {
      SumSort(s[1..]);
      SumInsert(s[0], Sort(s[1..]));
      SumCons(s[0], s[1..]);
      assert s == [s[0]] + s[1..];
    }
  }

  /** A 0/1 vector sums to its length exactly when every entry is 1. */
  lemma {:induction false} SumAllOnes(v: seq<nat>)
    requires forall i :: 0 <= i < |v| ==> v[i] <= 1
    ensures Sum(v) <= |v|
    ensures Sum(v) == |v| <==> forall i :: 0 <= i < |v| ==> v[i] == 1
  {
    if |v| > 0 {
      var p := v[..|v| - 1];
      SumAllOnes(p);
      assert forall i :: 0 <= i < |p| ==> p[i] == v[i];
    }
  }

  // -------------------------------------------------------------- filtering

  /** `[c for c in s if c != x]` */
  function Without(s: seq<nat>, x: nat): (r: seq<nat>)
    ensures |r| <= |s|
    ensures forall e :: multiset(r)[e] == if e == x then 0 else multiset(s)[e]
  {
    if |s| == 0 then []
    else
      assert s == [s[0]] + s[1..];
      (if s[0] == x then [] else [s[0]]) + Without(s[1..], x)
  }

  /** `[c for c in s if c not in t]` */
  function Minus(s: seq<nat>, t: seq<nat>): (r: seq<nat>)
    ensures |r| <= |s|
    ensures forall e :: multiset(r)[e] == if e in t then 0 else multiset(s)[e]
  {
    if |s| == 0 then []
    else
      assert s == [s[0]] + s[1..];
      (if s[0] in t then [] else [s[0]]) + Minus(s[1..], t)
  }

  /** In a list without duplicates every element occurs once. */
  lemma {:induction false} NoDupMultiset(s: seq<nat>)
    requires NoDup(s)
    ensures forall e :: multiset(s)[e] <= 1
  {
    if |s| > 0 {
      assert s == [s[0]] + s[1..];
      NoDupMultiset(s[1..]);
      assert s[0] !in s[1..];
    }
  }

  /** A list whose elements each occur at most once has no duplicates. */
  lemma {:induction false} MultisetNoDup(s: seq<nat>)
    requires forall e :: multiset(s)[e] <= 1
    ensures NoDup(s)
  {
    if |s| > 0 {
      assert s == [s[0]] + s[1..];
      assert forall e :: multiset(s[1..])[e] <= multiset(s)[e];
      MultisetNoDup(s[1..]);
      assert multiset(s)[s[0]] == 1 + multiset(s[1..])[s[0]];
      assert s[0] !in s[1..];
    }
  }

  // ------------------------------------------------ itertools.combinations

  function Binom(n: nat, k: nat): nat {
    if k == 0 then 1 else if n == 0 then 0 else Binom(n - 1, k - 1) + Binom(n - 1, k)
  }

  /** Put `x` in front of every list of `css`. */
  function Prepend(x: nat, css: seq<seq<nat>>): (r: seq<seq<nat>>)
    ensures |r| == |css|
    ensures forall i :: 0 <= i < |r| ==> r[i] == [x] + css[i]
  {
    seq(|css|, i requires 0 <= i < |css| => [x] + css[i])
  }

  /** `list(itertools.combinations(s, k))`: the k-element sub-lists of `s`
      in lexicographic order of their positions. */
  function Combinations(s: seq<nat>, k: nat): seq<seq<nat>>
    decreases |s|
  {
    if k == 0 then [[]]
    else if |s| == 0 then []
    else Prepend(s[0], Combinations(s[1..], k - 1)) + Combinations(s[1..], k)
  }

  lemma {:induction false} CombinationsCount(s: seq<nat>, k: nat)
    ensures |Combinations(s, k)| == Binom(|s|, k)
    decreases |s|
  {
    if k > 0 && |s| > 0 {
      CombinationsCount(s[1..], k - 1);
      CombinationsCount(s[1..], k);
      CountStep(s, k, Combinations(s[1..], k - 1), Combinations(s[1..], k));
    }
  }

  lemma CountStep(s: seq<nat>, k: nat, with: seq<seq<nat>>, without: seq<seq<nat>>)
    requires k > 0 && |s| > 0
    requires with == Combinations(s[1..], k - 1) && without == Combinations(s[1..], k)
    requires |with| == Binom(|s[1..]|, k - 1) && |without| == Binom(|s[1..]|, k)
    ensures |Combinations(s, k)| == Binom(|s|, k)
  {
    assert Combinations(s, k) == Prepend(s[0], with) + without;
  }

  /** Lists of `k` elements each taken from `s` without reuse. */
  predicate DrawnFrom(cs: seq<seq<nat>>, s: seq<nat>, k: nat) {
    forall c | c in cs :: |c| == k && multiset(c) <= multiset(s)
  }

  /** A list drawn from the tail is drawn from the whole list. */
  lemma TailDrawn(t: seq<nat>, s: seq<nat>)
    requires |s| > 0 && multiset(t) <= multiset(s[1..])
    ensures multiset(t) <= multiset(s)
  {
    assert s == [s[0]] + s[1..];
  }

  /** The head in front of a list drawn from the tail is drawn from the whole list. */
  lemma HeadDrawn(t: seq<nat>, s: seq<nat>)
    requires |s| > 0 && multiset(t) <= multiset(s[1..])
    ensures multiset([s[0]] + t) <= multiset(s)
  {
    assert s == [s[0]] + s[1..];
  }

  /** Where a combination of `k > 0` elements comes from: it is either `s[0]`
      in front of a `k - 1`-combination of the tail, or a `k`-combination of
      the tail. */
  lemma CombinationSource(s: seq<nat>, k: nat, c: seq<nat>) returns (fromHead: bool, tail: seq<nat>)
    requires k > 0 && c in Combinations(s, k)
    ensures |s| > 0
    ensures fromHead ==> tail in Combinations(s[1..], k - 1) && c == [s[0]] + tail
    ensures !fromHead ==> tail == c && c in Combinations(s[1..], k)
  {
    var inner := Combinations(s[1..], k - 1);
    var left := Prepend(s[0], inner);
    InAppend(c, left, Combinations(s[1..], k));
    fromHead := c in left;
    if fromHead {
      var i := Position(c, left);
      tail := inner[i];
    } else {
      tail := c;
    }
  }

  /** One combination has `k` elements taken from `s` without reuse. */
  lemma {:induction false} CombinationShape(s: seq<nat>, k: nat, c: seq<nat>)
    requires c in Combinations(s, k)
    ensures |c| == k && multiset(c) <= multiset(s)
    decreases |s|
  {
    if k > 0 {
      var fromHead, tail := CombinationSource(s, k, c);
      CombinationShape(s[1..], if fromHead then k - 1 else k, tail);
      DrawnStep(s, k, c, fromHead, tail);
    }
  }

  /** A combination built from one drawn from the tail is drawn from the list. */
  lemma DrawnStep(s: seq<nat>, k: nat, c: seq<nat>, fromHead: bool, tail: seq<nat>)
    requires |s| > 0 && k > 0
    requires fromHead ==> c == [s[0]] + tail && |tail| == k - 1
    requires !fromHead ==> c == tail && |tail| == k
    requires multiset(tail) <= multiset(s[1..])
    ensures |c| == k && multiset(c) <= multiset(s)
  {
    if fromHead {
      HeadDrawn(tail, s);
    } else {
      TailDrawn(c, s);
    }
  }

  /** Every combination has `k` elements taken from `s` without reuse. */
  lemma CombinationsShape(s: seq<nat>, k: nat)
    ensures DrawnFrom(Combinations(s, k), s, k)
  {
    forall c | c in Combinations(s, k) ensures |c| == k && multiset(c) <= multiset(s) {
      CombinationShape(s, k, c);
    }
  }

  /** Where an element of the tail sits in the whole list. */
  lemma TailIndex(s: seq<nat>, x: nat) returns (m: nat)
    requires |s| > 0 && x in s[1..]
    ensures 0 < m < |s| && s[m] == x
  {
    var i :| 0 <= i < |s[1..]| && s[1..][i] == x;
    m := i + 1;
  }

  /** The head of a strictly increasing list put in front of a strictly
      increasing list drawn from its tail keeps both properties. */
  lemma PrependHead(s: seq<nat>, tail: seq<nat>)
    requires StrictlyIncreasing(s) && |s| > 0
    requires StrictlyIncreasing(tail) && forall j :: 0 <= j < |tail| ==> tail[j] in s[1..]
    ensures StrictlyIncreasing([s[0]] + tail)
    ensures forall j :: 0 <= j < |tail| + 1 ==> ([s[0]] + tail)[j] in s
  {
    var c := [s[0]] + tail;
    forall j | 0 <= j < |tail| ensures s[0] < tail[j] && tail[j] in s {
      var m := TailIndex(s, tail[j]);
    }
    forall i, j | 0 <= i < j < |c| ensures c[i] < c[j] {
      assert c[j] == tail[j - 1];
      if i > 0 {
        assert c[i] == tail[i - 1];
      }
    }
    forall j | 0 <= j < |c| ensures c[j] in s {
      if j > 0 {
        assert c[j] == tail[j - 1];
      }
    }
  }

  /** Strictly increasing lists of `k` elements of `s`. */
  predicate IncreasingFrom(cs: seq<seq<nat>>, s: seq<nat>, k: nat) {
    forall c | c in cs :: |c| == k && StrictlyIncreasing(c) && forall j :: 0 <= j < |c| ==> c[j] in s
  }

  /** One combination of a strictly increasing list is strictly increasing
      and draws its `k` elements from the list. */
  lemma {:induction false} CombinationIncreasing(s: seq<nat>, k: nat, c: seq<nat>)
    requires StrictlyIncreasing(s) && c in Combinations(s, k)
    ensures |c| == k && StrictlyIncreasing(c) && forall j :: 0 <= j < |c| ==> c[j] in s
    decreases |s|
  {
    if k == 0 {
      assert c == [];
    } else {
      var fromHead, tail := CombinationSource(s, k, c);
      CombinationIncreasing(s[1..], if fromHead then k - 1 else k, tail);
      IncreasingStep(s, k, c, fromHead, tail);
    }
  }

  /** A combination built from an increasing one of the tail is increasing. */
  lemma IncreasingStep(s: seq<nat>, k: nat, c: seq<nat>, fromHead: bool, tail: seq<nat>)
    requires StrictlyIncreasing(s) && |s| > 0 && k > 0
    requires fromHead ==> c == [s[0]] + tail && |tail| == k - 1
    requires !fromHead ==> c == tail && |tail| == k
    requires StrictlyIncreasing(tail) && forall j :: 0 <= j < |tail| ==> tail[j] in s[1..]
    ensures |c| == k && StrictlyIncreasing(c) && forall j :: 0 <= j < |c| ==> c[j] in s
  {
    if fromHead {
      PrependHead(s, tail);
    } else {
      InWhole(s, c);
    }
  }

  /** Elements of the tail are elements of the whole list. */
  lemma InWhole(s: seq<nat>, c: seq<nat>)
    requires |s| > 0 && forall j :: 0 <= j < |c| ==> c[j] in s[1..]
    ensures forall j :: 0 <= j < |c| ==> c[j] in s
  {
    forall j | 0 <= j < |c| ensures c[j] in s {
      var m := TailIndex(s, c[j]);
    }
  }

  /** Every combination of a strictly increasing list is strictly increasing
      and draws its elements from the list. */
  lemma CombinationsSound(s: seq<nat>, k: nat)
    requires StrictlyIncreasing(s)
    ensures IncreasingFrom(Combinations(s, k), s, k)
  {
    forall c | c in Combinations(s, k)
      ensures |c| == k && StrictlyIncreasing(c) && forall j :: 0 <= j < |c| ==> c[j] in s
    {
      CombinationIncreasing(s, k, c);
    }
  }

  /** A strictly increasing list drawn from `s` that starts with `s[0]`
      continues with elements of `s[1..]`. */
  lemma TailInTail(s: seq<nat>, c: seq<nat>)
    requires StrictlyIncreasing(s) && StrictlyIncreasing(c) && |c| > 0 && |s| > 0
    requires c[0] == s[0] && forall j :: 0 <= j < |c| ==> c[j] in s
    ensures forall j :: 0 <= j < |c| - 1 ==> c[1..][j] in s[1..]
    ensures StrictlyIncreasing(c[1..])
  {
    forall j | 0 <= j < |c| - 1 ensures c[1..][j] in s[1..] {
      assert c[1..][j] == c[j + 1] && c[j + 1] > s[0];
      var m :| 0 <= m < |s| && s[m] == c[j + 1];
      assert m != 0;
      assert s[1..][m - 1] == s[m];
    }
  }

  /** A strictly increasing list drawn from `s` that does not start with
      `s[0]` is drawn from `s[1..]`. */
  lemma AllInTail(s: seq<nat>, c: seq<nat>)
    requires StrictlyIncreasing(s) && StrictlyIncreasing(c) && |c| > 0 && |s| > 0
    requires c[0] != s[0] && forall j :: 0 <= j < |c| ==> c[j] in s
    ensures forall j :: 0 <= j < |c| ==> c[j] in s[1..]
  {
    var m0 :| 0 <= m0 < |s| && s[m0] == c[0];
    assert m0 != 0;
    forall j | 0 <= j < |c| ensures c[j] in s[1..] {
      var m :| 0 <= m < |s| && s[m] == c[j];
      if j > 0 {
        assert c[0] < c[j];
      }
      assert s[0] < s[m0] <= s[m];
      assert m != 0;
      assert s[1..][m - 1] == s[m];
    }
  }

  lemma InLeft(x: nat, inner: seq<seq<nat>>, right: seq<seq<nat>>, tail: seq<nat>)
    requires tail in inner
    ensures [x] + tail in Prepend(x, inner) + right
  {
    var i := Position(tail, inner);
    assert Prepend(x, inner)[i] == [x] + tail;
  }

  /** The head in front of a `k - 1`-combination of the tail is a
      `k`-combination. */
  lemma HeadCombination(s: seq<nat>, k: nat, tail: seq<nat>)
    requires k > 0 && |s| > 0 && tail in Combinations(s[1..], k - 1)
    ensures [s[0]] + tail in Combinations(s, k)
  {
    InLeft(s[0], Combinations(s[1..], k - 1), Combinations(s[1..], k), tail);
  }

  /** A `k`-combination of the tail is a `k`-combination. */
  lemma TailCombination(s: seq<nat>, k: nat, c: seq<nat>)
    requires k > 0 && |s| > 0 && c in Combinations(s[1..], k)
    ensures c in Combinations(s, k)
  {
    InAppend(c, Prepend(s[0], Combinations(s[1..], k - 1)), Combinations(s[1..], k));
  }

  /** Conversely, every strictly increasing `k`-element list drawn from a
      strictly increasing list is one of its combinations. */
  lemma {:induction false} CombinationsComplete(s: seq<nat>, k: nat, c: seq<nat>)
    requires StrictlyIncreasing(s)
    requires |c| == k && StrictlyIncreasing(c)
    requires forall j :: 0 <= j < |c| ==> c[j] in s
    ensures c in Combinations(s, k)
    decreases |s|
  {
    if k == 0 {
      assert c == [];
    } else {
      assert c[0] in s;
      if c[0] == s[0] {
        TailInTail(s, c);
        CombinationsComplete(s[1..], k - 1, c[1..]);
        HeadCombination(s, k, c[1..]);
        assert c == [s[0]] + c[1..];
      } else {
        AllInTail(s, c);
        CombinationsComplete(s[1..], k, c);
        TailCombination(s, k, c);
      }
    }
  }

  /** The elements of `s` that are members of `t`, kept in the order of `s`. */
  function Among(s: seq<nat>, t: seq<nat>): (r: seq<nat>)
    ensures forall e :: multiset(r)[e] == if e in t then multiset(s)[e] else 0
  {
    if |s| == 0 then []
    else
      assert s == [s[0]] + s[1..];
      (if s[0] in t then [s[0]] else []) + Among(s[1..], t)
  }

  /** Picking elements of a list in its own order gives one of its
      combinations, whatever the order of the list. */
  lemma {:induction false} AmongCombination(s: seq<nat>, t: seq<nat>)
    ensures Among(s, t) in Combinations(s, |Among(s, t)|)
    decreases |s|
  {
    var c := Among(s, t);
    if |s| > 0 {
      var rest := Among(s[1..], t);
      AmongCombination(s[1..], t);
      if s[0] in t {
        assert c == [s[0]] + rest;
        HeadCombination(s, |c|, rest);
      } else if |c| > 0 {
        assert c == rest;
        TailCombination(s, |c|, rest);
      }
    }
  }

  /** Distinct elements of a duplicate-free list, picked in the list's own
      order, are the same elements and form one of its combinations. */
  lemma AmongDistinct(s: seq<nat>, t: seq<nat>)
    requires NoDup(s) && NoDup(t) && forall e :: e in t ==> e in s
    ensures multiset(Among(s, t)) == multiset(t)
    ensures |Among(s, t)| == |t|
    ensures forall e :: e in Among(s, t) <==> e in t
    ensures Among(s, t) in Combinations(s, |t|)
  {
    var c := Among(s, t);
    NoDupMultiset(s);
    NoDupMultiset(t);
    forall e ensures multiset(c)[e] == multiset(t)[e] {
      if e in t {
        assert multiset(s)[e] > 0 && multiset(t)[e] > 0;
      }
    }
    assert multiset(c) == multiset(t);
    assert |multiset(c)| == |multiset(t)|;
    AmongCombination(s, t);
  }

  /** Removing the members of a list depends only on which elements it has. */
  lemma {:induction false} MinusSameMembers(s: seq<nat>, t: seq<nat>, u: seq<nat>)
    requires forall e :: e in t <==> e in u
    ensures Minus(s, t) == Minus(s, u)
    decreases |s|
  {
    if |s| > 0 {
      MinusSameMembers(s[1..], t, u);
    }
  }

  /** Two duplicate-free lists with no element in common join without
      duplicates. */
  lemma NoDupAppend<T>(a: seq<T>, b: seq<T>)
    requires NoDup(a) && NoDup(b)
    requires forall i, j :: 0 <= i < |a| && 0 <= j < |b| ==> a[i] != b[j]
    ensures NoDup(a + b)
  {
    var ab := a + b;
    forall i, j | 0 <= i < j < |ab| ensures ab[i] != ab[j] {
      if j < |a| {
        assert ab[i] == a[i] && ab[j] == a[j];
      } else if i >= |a| {
        assert ab[i] == b[i - |a|] && ab[j] == b[j - |a|];
      } else {
        assert ab[i] == a[i] && ab[j] == b[j - |a|];
      }
    }
  }

  /** Putting one element in front keeps distinct lists distinct. */
  lemma PrependNoDup(x: nat, css: seq<seq<nat>>)
    requires NoDup(css)
    ensures NoDup(Prepend(x, css))
  {
    var left := Prepend(x, css);
    forall i, j | 0 <= i < j < |left| ensures left[i] != left[j] {
      assert css[i] != css[j];
      assert left[i][1..] == css[i] && left[j][1..] == css[j];
    }
  }

  /** In a duplicate-free list the head is not in the tail. */
  lemma HeadNotInRest(s: seq<nat>)
    requires NoDup(s) && |s| > 0
    ensures multiset(s[1..])[s[0]] == 0
  {
    forall j | 0 <= j < |s| - 1 ensures s[1..][j] != s[0] {
      assert s[1..][j] == s[j + 1];
    }
  }

  /** Nor is it in anything drawn from the tail. */
  lemma HeadNotDrawn(s: seq<nat>, c: seq<nat>)
    requires NoDup(s) && |s| > 0 && multiset(c) <= multiset(s[1..])
    ensures s[0] !in c
  {
    HeadNotInRest(s);
    assert multiset(c)[s[0]] == 0;
  }

  /** In a duplicate-free list, no combination of the tail holds the head. */
  lemma HeadNotInTail(s: seq<nat>, k: nat)
    requires NoDup(s) && |s| > 0
    ensures forall c | c in Combinations(s[1..], k) :: s[0] !in c
  {
    var h: nat := s[0];
    forall c: seq<nat> | c in Combinations(s[1..], k) ensures h !in c {
      CombinationShape(s[1..], k, c);
      HeadNotDrawn(s, c);
    }
  }

  /** Over a list without duplicates no combination is produced twice. */
  lemma {:induction false} CombinationsNoDup(s: seq<nat>, k: nat)
    requires NoDup(s)
    ensures NoDup(Combinations(s, k))
    decreases |s|
  {
    if k > 0 && |s| > 0 {
      var inner := Combinations(s[1..], k - 1);
      var left := Prepend(s[0], inner);
      var right := Combinations(s[1..], k);
      NoDupTail(s);
      CombinationsNoDup(s[1..], k - 1);
      CombinationsNoDup(s[1..], k);
      PrependNoDup(s[0], inner);
      HeadNotInTail(s, k);
      forall i, j | 0 <= i < |left| && 0 <= j < |right| ensures left[i] != right[j] {
        assert right[j] in right;
        assert s[0] in left[i];
      }
      NoDupAppend(left, right);
    }
  }

}

/** The nearest-rank percentile of the benchmark, `_percentile` (bench/prism_benchmark_852.py). */
module Percentile {
  import opened Wrappers

  predicate IsSorted(s: seq<int>) {
    forall i, j | 0 <= i < j < |s| :: s[i] <= s[j]
  }

  function Insert(x: int, s: seq<int>): (r: seq<int>)
    ensures |r| == |s| + 1
  {
    if s == [] || x <= s[0] then [x] + s else [s[0]] + Insert(x, s[1..])
  }

  /** `sorted(s)` */
  function Sorted(s: seq<int>): (r: seq<int>)
    ensures |r| == |s|
  {
    if s == [] then [] else Insert(s[0], Sorted(s[1..]))
  }

  /** `ceil(n * p / 100)` */
  function Rank(n: nat, p: int): int {
    (n * p + 99) / 100
  }

  function Clamp(i: int, n: nat): (k: nat)
    requires n > 0
    ensures k < n
  {
    var index := if i < 0 then 0 else i;
    if index < n - 1 then index else n - 1
  }

  function NearestRank(samples: seq<int>, p: int): Option<int> {
    if samples == [] then None
    else Some(Sorted(samples)[Clamp(Rank(|samples|, p) - 1, |samples|)])
  }

  // ---- counting ---------------------------------------------------------------------------

  /** How many samples are at most `v`. */
  function AtMost(s: seq<int>, v: int): (n: nat)
    ensures n <= |s|
  {
    if s == [] then 0 else (if s[0] <= v then 1 else 0) + AtMost(s[1..], v)
  }

  /** How many samples are below `v`. */
  function Below(s: seq<int>, v: int): nat {
    AtMost(s, v - 1)
  }

  lemma {:induction false} CountedIsIn(s: seq<int>, v: int)
    requires Below(s, v) < AtMost(s, v)
    ensures v in s
  {
    if s[0] != v {
      CountedIsIn(s[1..], v);
    }
  }

  lemma {:induction false} AtMostOfInsert(x: int, s: seq<int>, v: int)
    ensures AtMost(Insert(x, s), v) == (if x <= v then 1 else 0) + AtMost(s, v)
  {
    if s == [] || x <= s[0] {
      assert ([x] + s)[1..] == s;
    } else {
      AtMostOfInsert(x, s[1..], v);
      assert Insert(x, s)[1..] == Insert(x, s[1..]);
    }
  }

  lemma {:induction false} AtMostOfSorted(s: seq<int>, v: int)
    ensures AtMost(Sorted(s), v) == AtMost(s, v)
  {
    if s != [] {
      AtMostOfSorted(s[1..], v);
      AtMostOfInsert(s[0], Sorted(s[1..]), v);
    }
  }

  /** In a sorted list the samples at most `v` come first. */
  lemma {:induction false} AtMostInOrder(s: seq<int>, v: int, i: nat)
    requires IsSorted(s) && i < |s|
    ensures s[i] <= v <==> AtMost(s, v) >= i + 1
  {
    if i > 0 {
      AtMostInOrder(s[1..], v, i - 1);
    } else if s[0] > v {
      NoneAtMost(s, v);
    }
  }

  lemma {:induction false} NoneAtMost(s: seq<int>, v: int)
    requires forall i | 0 <= i < |s| :: s[i] > v
    ensures AtMost(s, v) == 0
  {
    if s != [] {
      NoneAtMost(s[1..], v);
    }
  }

  lemma {:induction false} AtMostOfAppend(a: seq<int>, b: seq<int>, v: int)
    ensures AtMost(a + b, v) == AtMost(a, v) + AtMost(b, v)
  {
    if a == [] {
      assert a + b == b;
    } else {
      assert (a + b)[1..] == a[1..] + b;
      AtMostOfAppend(a[1..], b, v);
    }
  }

  lemma RemoveOne(a: seq<int>, x: seq<int>, y: seq<int>)
    requires a != [] && multiset(a) == multiset(x + ([a[0]] + y))
    ensures multiset(a[1..]) == multiset(x + y)
  {
    var e := multiset{a[0]};
    assert a == [a[0]] + a[1..];
    assert multiset(a) == e + multiset(a[1..]);
    assert multiset(a) == multiset(x) + (e + multiset(y));
    assert multiset(a[1..]) == multiset(a) - e == multiset(x) + multiset(y);
  }

  lemma {:induction false} AtMostOfPermutation(a: seq<int>, b: seq<int>, v: int)
    requires multiset(a) == multiset(b)
    ensures AtMost(a, v) == AtMost(b, v)
  {
    if a == [] {
      assert |multiset(a)| == |multiset(b)| == |b|;
    } else {
      assert a[0] in multiset(b);
      var i :| 0 <= i < |b| && b[i] == a[0];
      var x, y := b[..i], b[i + 1..];
      assert b == x + ([a[0]] + y);
      RemoveOne(a, x, y);
      AtMostOfPermutation(a[1..], x + y, v);
      AtMostOfAppend(x, [a[0]] + y, v);
      AtMostOfAppend([a[0]], y, v);
      AtMostOfAppend(x, y, v);
    }
  }

  // ---- sorting ----------------------------------------------------------------------------

  lemma {:induction false} InsertKeepsOrder(x: int, s: seq<int>)
    requires IsSorted(s)
    ensures IsSorted(Insert(x, s))
    ensures forall i | 0 <= i < |Insert(x, s)| :: Insert(x, s)[i] == x || Insert(x, s)[i] in s
  {
    if s != [] && x > s[0] {
      InsertKeepsOrder(x, s[1..]);
    }
  }

  lemma {:induction false} SortedIsSorted(s: seq<int>)
    ensures IsSorted(Sorted(s))
  {
    if s != [] {
      SortedIsSorted(s[1..]);
      InsertKeepsOrder(s[0], Sorted(s[1..]));
    }
  }

  lemma SortedByCounts(a: seq<int>, b: seq<int>)
    requires |a| == |b| && IsSorted(a) && IsSorted(b)
    requires forall v :: AtMost(a, v) == AtMost(b, v)
    ensures a == b
  {
    forall i | 0 <= i < |a| ensures a[i] == b[i] {
      AtMostInOrder(a, a[i], i);
      AtMostInOrder(b, a[i], i);
      AtMostInOrder(a, b[i], i);
      AtMostInOrder(b, b[i], i);
    }
  }

  // ---- main results -----------------------------------------------------------------------

  lemma Product(n: nat, p: int, q: int)
    requires p <= q
    ensures n * p <= n * q
  {
  }

  lemma Ceiling(x: int)
    ensures 100 * ((x + 99) / 100 - 1) < x <= 100 * ((x + 99) / 100)
  {
  }

  lemma RankGrows(n: nat, p: int, q: int)
    requires p <= q
    ensures Rank(n, p) <= Rank(n, q)
  {
    Product(n, p, q);
    var a, b := n * p, n * q;
    assert (a + 99) / 100 <= (b + 99) / 100;
  }

  lemma RankInRange(n: nat, p: int)
    requires n > 0 && 1 <= p <= 100
    ensures 1 <= Rank(n, p) <= n
  {
    RankGrows(n, 1, p);
    RankGrows(n, p, 100);
  }

  lemma SortedAt(samples: seq<int>, k: int, v: int)
    requires 1 <= k <= |samples|
    ensures v == Sorted(samples)[k - 1] <==> Below(samples, v) < k <= AtMost(samples, v)
  {
    SortedIsSorted(samples);
    AtMostOfSorted(samples, v);
    AtMostOfSorted(samples, v - 1);
    AtMostInOrder(Sorted(samples), v, k - 1);
    AtMostInOrder(Sorted(samples), v - 1, k - 1);
  }

  /** `v` is the sample of rank `k`: at least `k` samples are at most `v`, fewer are below it. */
  predicate HasRank(samples: seq<int>, k: int, v: int) {
    Below(samples, v) < k <= AtMost(samples, v)
  }

  lemma RankedSample(samples: seq<int>, k: int)
    requires 1 <= k <= |samples|
    ensures var r := Sorted(samples)[k - 1]; r in samples && forall v :: HasRank(samples, k, v) <==> v == r
  {
    var r := Sorted(samples)[k - 1];
    forall v ensures HasRank(samples, k, v) <==> v == r {
      SortedAt(samples, k, v);
    }
    assert HasRank(samples, k, r);
    CountedIsIn(samples, r);
  }

  /** The result is the one number of rank ceil(n * p / 100), and it is a sample. */
  lemma NearestRankIsRight(samples: seq<int>, p: int)
    requires samples != [] && 1 <= p <= 100
    ensures var r, k := NearestRank(samples, p), Rank(|samples|, p);
            && r.Some? && r.value in samples
            && 100 * (k - 1) < |samples| * p <= 100 * k
            && forall v :: HasRank(samples, k, v) <==> v == r.value
  {
    Ceiling(|samples| * p);
    RankInRange(|samples|, p);
    RankedSample(samples, Rank(|samples|, p));
  }

  /** Outside that range it is the least or the greatest sample, and without samples there is none. */
  lemma NearestRankOutside(samples: seq<int>, p: int)
    requires p <= 0 || p > 100
    ensures NearestRank([], p) == None
    ensures samples != [] ==>
              var r := NearestRank(samples, p).value;
              r in samples && HasRank(samples, if p <= 0 then 1 else |samples|, r)
  {
    if samples != [] {
      var n := |samples|;
      RankGrows(n, if p <= 0 then p else 100, if p <= 0 then 0 else p);
      RankedSample(samples, if p <= 0 then 1 else n);
    }
  }

  /** It does not depend on the order of the samples. */
  lemma NearestRankOfPermutation(a: seq<int>, b: seq<int>, p: int)
    requires multiset(a) == multiset(b)
    ensures NearestRank(a, p) == NearestRank(b, p)
  {
    assert |multiset(a)| == |a| && |multiset(b)| == |b|;
    SortedIsSorted(a);
    SortedIsSorted(b);
    forall v ensures AtMost(Sorted(a), v) == AtMost(Sorted(b), v) {
      AtMostOfSorted(a, v);
      AtMostOfSorted(b, v);
      AtMostOfPermutation(a, b, v);
    }
    SortedByCounts(Sorted(a), Sorted(b));
  }

  /** It grows with the percentile. */
  lemma NearestRankGrows(samples: seq<int>, p: int, q: int)
    requires samples != [] && p <= q
    ensures NearestRank(samples, p).value <= NearestRank(samples, q).value
  {
    SortedIsSorted(samples);
    RankGrows(|samples|, p, q);
  }
}

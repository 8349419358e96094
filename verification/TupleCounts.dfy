/**
 * The tuple-count estimators of SP 800-90B, sections 6.3.5 (t-tuple) and 6.3.6 (longest repeated
 * substring): how often each tuple of a given length occurs in a sample sequence, where the scans
 * over lengths stop, and how many pairs of equal tuples there are. The probabilities and the final
 * entropy figure computed from these counts are floating point and not modelled.
 */
module TupleCounts {

  /** The number of positions at which a tuple of length `i` can start. */
  function Positions<T>(s: seq<T>, i: nat): nat {
    if i <= |s| then |s| - i + 1 else 0
  }

  function TupleAt<T>(s: seq<T>, i: nat, j: nat): seq<T>
    requires j < Positions(s, i)
  {
    s[j..j + i]
  }

  /** Occurrences of `w` among the first `n` tuples of length `i`. */
  function Occ<T(==)>(s: seq<T>, i: nat, n: nat, w: seq<T>): nat
    requires n <= Positions(s, i)
  {
    if n == 0 then 0
    else Occ(s, i, n - 1, w) + if TupleAt(s, i, n - 1) == w then 1 else 0
  }

  function Count<T(==)>(s: seq<T>, i: nat, w: seq<T>): nat {
    Occ(s, i, Positions(s, i), w)
  }

  ghost predicate Below<T>(s: seq<T>, i: nat, bound: int) {
    forall j :: 0 <= j < Positions(s, i) ==> Count(s, i, TupleAt(s, i, j)) < bound
  }

  ghost predicate IsMaxCount<T>(s: seq<T>, i: nat, m: int) {
    && Below(s, i, m + 1)
    && exists j :: 0 <= j < Positions(s, i) && Count(s, i, TupleAt(s, i, j)) == m
  }

  // ---- longer tuples never occur more often --------------------------------------------------------

  lemma {:induction false} OccOfPrefix<T>(s: seq<T>, i: nat, n: nat, w: seq<T>)
    requires |w| == i + 1 && n <= Positions(s, i + 1)
    ensures Occ(s, i + 1, n, w) <= Occ(s, i, n, w[..i])
  {
    if n > 0 {
      OccOfPrefix(s, i, n - 1, w);
      if TupleAt(s, i + 1, n - 1) == w {
        assert TupleAt(s, i, n - 1) == w[..i];
      }
    }
  }

  lemma {:induction false} OccMonotone<T>(s: seq<T>, i: nat, m: nat, n: nat, w: seq<T>)
    requires m <= n <= Positions(s, i)
    ensures Occ(s, i, m, w) <= Occ(s, i, n, w)
    decreases n
  {
    if m < n {
      OccMonotone(s, i, m, n - 1, w);
    }
  }

  lemma {:induction false} OccPositive<T>(s: seq<T>, i: nat, n: nat, w: seq<T>)
    requires n <= Positions(s, i)
    ensures Occ(s, i, n, w) > 0 <==> exists j :: 0 <= j < n && TupleAt(s, i, j) == w
  {
    if n > 0 {
      OccPositive(s, i, n - 1, w);
    }
  }

  /** No (i+1)-tuple occurs more often than the most frequent i-tuple. */
  lemma LongerIsRarer<T>(s: seq<T>, i: nat, bound: int)
    requires Below(s, i, bound)
    ensures Below(s, i + 1, bound)
  {
    var l := i + 1;
    forall j | 0 <= j < Positions(s, l)
      ensures Count(s, l, TupleAt(s, l, j)) < bound
    {
      var w := TupleAt(s, l, j);
      OccOfPrefix(s, i, Positions(s, l), w);
      OccMonotone(s, i, Positions(s, l), Positions(s, i), w[..i]);
      assert w[..i] == TupleAt(s, i, j);
    }
  }

  lemma {:induction false} LongerStaysBelow<T>(s: seq<T>, i: nat, k: nat, bound: int)
    requires i <= k && Below(s, i, bound)
    ensures Below(s, k, bound)
    decreases k
  {
    if i < k {
      LongerStaysBelow(s, i, k - 1, bound);
      LongerIsRarer(s, k - 1, bound);
    }
  }

  // ---- counting --------------------------------------------------------------------------------------

  ghost predicate Counts<T>(s: seq<T>, i: nat, n: nat, cnt: map<seq<T>, nat>)
    requires n <= Positions(s, i)
  {
    && (forall w :: w in cnt ==> cnt[w] == Occ(s, i, n, w) > 0)
    && (forall j :: 0 <= j < n ==> TupleAt(s, i, j) in cnt)
  }

  /** The tuple counter: one entry for each distinct tuple of length `i`. */
  method CountTuples<T(==)>(s: seq<T>, i: nat) returns (cnt: map<seq<T>, nat>)
    ensures Counts(s, i, Positions(s, i), cnt)
    ensures SumPairs(cnt) == Pairs(s, i, Positions(s, i))
  {
    cnt := map[];
    assert SumPairs(cnt) == 0;
    hide SumPairs, Choose2;
    for j := 0 to Positions(s, i)
      invariant Counts(s, i, j, cnt)
      invariant SumPairs(cnt) == Pairs(s, i, j)
    {
      var w := TupleAt(s, i, j);
      ghost var before := cnt;
      OccPositive(s, i, j, w);
      cnt := cnt[w := (if w in cnt then cnt[w] else 0) + 1];
      SumPairsUpdate(before, w);
    }
  }

  /** The largest value of a non-empty counter. */
  method MaxOf<K(==)>(cnt: map<K, nat>) returns (m: nat)
    requires cnt != map[]
    ensures exists w :: w in cnt && cnt[w] == m
    ensures forall w :: w in cnt ==> cnt[w] <= m
  {
    var keys := cnt.Keys;
    var first :| first in keys;
    m := cnt[first];
    keys := keys - {first};
    while keys != {}
      invariant keys <= cnt.Keys
      invariant exists w :: w in cnt && cnt[w] == m
      invariant forall w :: w in cnt && w !in keys ==> cnt[w] <= m
      decreases |keys|
    {
      var w :| w in keys;
      if cnt[w] > m {
        m := cnt[w];
      }
      keys := keys - {w};
    }
  }

  lemma MaxOfCounts<T>(s: seq<T>, i: nat, cnt: map<seq<T>, nat>, m: nat)
    requires Counts(s, i, Positions(s, i), cnt)
    requires exists w :: w in cnt && cnt[w] == m
    requires forall w :: w in cnt ==> cnt[w] <= m
    ensures IsMaxCount(s, i, m)
  {
    var w :| w in cnt && cnt[w] == m;
    OccPositive(s, i, Positions(s, i), w);
  }

  /** The most frequent tuple of length `i` occurs `m` times, which is enough. */
  ghost predicate Reaches<T>(s: seq<T>, i: nat, m: int, cutoff: int) {
    i <= |s| && IsMaxCount(s, i, m) && m >= cutoff
  }

  // ---- section 6.3.5 -----------------------------------------------------------------------------------

  /**
   * The scan over tuple lengths. `q[k]` is the count of the most frequent (k+1)-tuple, for every
   * length up to the result; up to 64 the result is the largest length that still reaches the cutoff.
   */
  method TTuple<T(==)>(s: seq<T>, cutoff: int) returns (t: nat, q: seq<nat>)
    ensures t == |q| <= 65
    ensures forall k :: 0 <= k < t ==> Reaches(s, k + 1, q[k], cutoff)
    ensures t < 65 ==> forall i :: i > t ==> Below(s, i, cutoff)
  {
    q, t := [], 0;
    while true
      invariant t == |q| <= 64 && t <= |s|
      invariant forall k :: 0 <= k < t ==> Reaches(s, k + 1, q[k], cutoff)
      decreases 65 - t
    {
      var i := t + 1;
      var cnt := CountTuples(s, i);
      if i <= |s| {
        SomeTuple(s, i, cnt);
      }
      if cnt == map[] {
        StopsHere(s, i, cutoff);
        return;
      }
      var mx := MaxOf(cnt);
      MaxOfCounts(s, i, cnt, mx);
      if mx < cutoff {
        StopsHere(s, i, cutoff);
        return;
      }
      q := q + [mx];
      t := i;
      if t > 64 {
        return;
      }
    }
  }

  lemma SomeTuple<T>(s: seq<T>, i: nat, cnt: map<seq<T>, nat>)
    requires Counts(s, i, Positions(s, i), cnt) && i <= |s|
    ensures cnt != map[]
  {
    assert TupleAt(s, i, 0) in cnt;
  }

  lemma StopsHere<T>(s: seq<T>, i: nat, bound: int)
    requires Below(s, i, bound)
    ensures forall k :: k >= i ==> Below(s, k, bound)
  {
    forall k: int | k >= i
      ensures Below(s, k, bound)
    {
      LongerStaysBelow(s, i, k, bound);
    }
  }

  // ---- pairs of equal tuples -----------------------------------------------------------------------------

  function Choose2(c: nat): nat {
    c * (c - 1) / 2
  }

  lemma Choose2Step(c: nat)
    ensures Choose2(c + 1) == Choose2(c) + c
  {
    assert (c + 1) * c == c * (c - 1) + 2 * c;
  }

  /** Pairs of equal tuples among the first `n`: each tuple paired with the equal ones before it. */
  function Pairs<T(==)>(s: seq<T>, i: nat, n: nat): nat
    requires n <= Positions(s, i)
  {
    if n == 0 then 0 else Pairs(s, i, n - 1) + Occ(s, i, n - 1, TupleAt(s, i, n - 1))
  }

  ghost function SumPairs<K>(cnt: map<K, nat>): nat
    decreases |cnt|
  {
    if cnt == map[] then 0
    else
      var w :| w in cnt;
      Choose2(cnt[w]) + SumPairs(cnt - {w})
  }

  lemma {:induction false} SumPairsTake<K>(cnt: map<K, nat>, w: K)
    requires w in cnt
    ensures SumPairs(cnt) == Choose2(cnt[w]) + SumPairs(cnt - {w})
    decreases |cnt|
  {
    var x :| x in cnt && SumPairs(cnt) == Choose2(cnt[x]) + SumPairs(cnt - {x});
    if x != w {
      SumPairsTake(cnt - {x}, w);
      SumPairsTake(cnt - {w}, x);
      assert cnt - {x} - {w} == cnt - {w} - {x};
    }
  }

  lemma SumPairsUpdate<K>(cnt: map<K, nat>, w: K)
    ensures var c := if w in cnt then cnt[w] else 0;
            SumPairs(cnt[w := c + 1]) == SumPairs(cnt) + c
  {
    var c := if w in cnt then cnt[w] else 0;
    var cnt' := cnt[w := c + 1];
    SumPairsTake(cnt', w);
    Choose2Step(c);
    assert cnt' - {w} == cnt - {w};
    if w in cnt {
      SumPairsTake(cnt, w);
    } else {
      assert cnt - {w} == cnt;
    }
  }

  ghost function EarlierEqual<T>(s: seq<T>, i: nat, n: nat, w: seq<T>): set<nat>
    requires n <= Positions(s, i)
  {
    set j: nat | j < n && TupleAt(s, i, j) == w
  }

  ghost function PairSet<T>(s: seq<T>, i: nat, n: nat): set<(nat, nat)>
    requires n <= Positions(s, i)
  {
    set j: nat, k: nat | j < k < n && TupleAt(s, i, j) == TupleAt(s, i, k) :: (j, k)
  }

  lemma {:induction false} OccIsSize<T>(s: seq<T>, i: nat, n: nat, w: seq<T>)
    requires n <= Positions(s, i)
    ensures Occ(s, i, n, w) == |EarlierEqual(s, i, n, w)|
  {
    if n > 0 {
      OccIsSize(s, i, n - 1, w);
      var before := EarlierEqual(s, i, n - 1, w);
      if TupleAt(s, i, n - 1) == w {
        assert EarlierEqual(s, i, n, w) == before + {n - 1};
      } else {
        assert EarlierEqual(s, i, n, w) == before;
      }
    }
  }

  ghost function LastPairs<T>(s: seq<T>, i: nat, k: nat): set<(nat, nat)>
    requires k < Positions(s, i)
  {
    set j | j in EarlierEqual(s, i, k, TupleAt(s, i, k)) :: (j, k)
  }

  lemma PairSetStep<T>(s: seq<T>, i: nat, k: nat)
    requires k < Positions(s, i)
    ensures PairSet(s, i, k + 1) == PairSet(s, i, k) + LastPairs(s, i, k)
    ensures PairSet(s, i, k) !! LastPairs(s, i, k)
  {
  }

  /** The running sum really counts the pairs of positions that carry equal tuples. */
  lemma {:induction false} PairsIsSize<T>(s: seq<T>, i: nat, n: nat)
    requires n <= Positions(s, i)
    ensures Pairs(s, i, n) == |PairSet(s, i, n)|
  {
    if n == 0 {
      assert PairSet(s, i, 0) == {};
    } else {
      var k := n - 1;
      var w := TupleAt(s, i, k);
      PairsIsSize(s, i, k);
      OccIsSize(s, i, k, w);
      SameSize(EarlierEqual(s, i, k, w), LastPairs(s, i, k), k);
      PairSetStep(s, i, k);
    }
  }

  lemma {:induction false} SameSize(a: set<nat>, b: set<(nat, nat)>, k: nat)
    requires b == set j | j in a :: (j, k)
    ensures |a| == |b|
    decreases |a|
  {
    if a != {} {
      var x :| x in a;
      SameSize(a - {x}, b - {(x, k)}, k);
    }
  }

  // ---- section 6.3.6 -----------------------------------------------------------------------------------

  /** The shortest length at which no tuple reaches the cutoff, or one past the scan. */
  ghost predicate IsFirstRare<T>(s: seq<T>, cutoff: int, u: nat) {
    && 1 <= u <= 65
    && (forall i :: 1 <= i < u ==> !Below(s, i, cutoff))
    && (u <= 64 ==> Below(s, u, cutoff))
  }

  /** What the two scans of the estimator settle on: every length past u up to v has a repeated tuple,
      and none past v has, unless the scan ended. */
  ghost predicate ScanOk<T>(s: seq<T>, cutoff: int, u: nat, v: nat)
  {
    && IsFirstRare(s, cutoff, u) && u <= v <= 65 && v < |s|
    && (forall i :: u < i <= v ==> !Below(s, i, 2))
    && (v <= 64 ==> forall i :: i > v ==> Below(s, i, 2))
  }

  lemma FirstRareUnique<T>(s: seq<T>, cutoff: int, u: nat, u': nat)
    requires IsFirstRare(s, cutoff, u) && IsFirstRare(s, cutoff, u')
    ensures u == u'
  {
    assert !(u < u') && !(u' < u);
  }

  datatype Ratio = Ratio(num: nat, den: nat)

  datatype LrsResult =
    | EmptyCounter   // a maximum taken over no tuples at all
    | NoEstimate     // no length left with two positions
    | Lrs(u: nat, v: nat, ratios: seq<Ratio>)

  /** The pair counts of section 6.3.6 for tuple length `w`: equal pairs, and all pairs. */
  ghost predicate RatioOk<T>(s: seq<T>, w: nat, r: Ratio) {
    && r.num == |PairSet(s, w, Positions(s, w))|
    && r.den == Choose2(Positions(s, w))
  }

  /** The estimator up to its floating-point end, for any cutoff. */
  method LongestRepeated<T(==)>(s: seq<T>, cutoff: int) returns (r: LrsResult)
    ensures r.EmptyCounter? <==> exists u :: IsFirstRare(s, cutoff, u) && |s| <= u <= 64
    ensures r.NoEstimate? <==> IsFirstRare(s, cutoff, 65) && |s| <= 65
    ensures cutoff >= 3 ==> (r.EmptyCounter? <==> |s| <= 1) && !r.NoEstimate?
    ensures r.Lrs? ==> ScanOk(s, cutoff, r.u, r.v)
    ensures r.Lrs? ==> |r.ratios| == r.v - r.u + 1
    ensures r.Lrs? ==> forall k :: 0 <= k < |r.ratios| ==> RatioOk(s, r.u + k, r.ratios[k]) && r.ratios[k].den > 0
  {
    var u, v, empty;
    u, empty := ScanU(s, cutoff);
    RareEnough(s, cutoff, u);
    forall u' | IsFirstRare(s, cutoff, u') ensures u' == u {
      FirstRareUnique(s, cutoff, u, u');
    }
    hide IsFirstRare;
    if empty {
      return EmptyCounter;
    }
    v, empty := ScanV(s, u);
    if empty {
      return EmptyCounter;
    }
    var ratios: seq<Ratio> := [];
    for w := u to v + 1
      invariant |ratios| == if u < |s| then w - u else 0
      invariant forall k :: 0 <= k < |ratios| ==> RatioOk(s, u + k, ratios[k]) && ratios[k].den > 0
    {
      var q := PairRatio(s, w);
      if q.den > 0 {
        ratios := ratios + [q];
      }
    }
    return if ratios == [] then NoEstimate else Lrs(u, v, ratios);
  }

  /** From a cutoff of three on the scan cannot run off the end of two samples or more. */
  lemma RareEnough<T>(s: seq<T>, cutoff: int, u: nat)
    requires IsFirstRare(s, cutoff, u)
    ensures u <= |s| + 1
    ensures cutoff >= 3 ==> (|s| <= u <= 64 <==> |s| <= 1) && !(|s| <= u == 65)
  {
    hide Below;
    if u > 1 {
      var i := u - 1;
      assert !Below(s, i, cutoff);
      RoomFor(s, i, cutoff);
    }
  }

  lemma RoomFor<T>(s: seq<T>, i: nat, bound: int)
    requires !Below(s, i, bound)
    ensures i <= |s| && i + bound <= |s| + 1
  {
    var j :| 0 <= j < Positions(s, i) && Count(s, i, TupleAt(s, i, j)) >= bound;
    var w := TupleAt(s, i, j);
    hide TupleAt;
    OccBound(s, i, Positions(s, i), w);
  }

  method ScanU<T(==)>(s: seq<T>, cutoff: int) returns (u: nat, empty: bool)
    ensures IsFirstRare(s, cutoff, u)
    ensures empty <==> |s| < u <= 64
  {
    u := 1;
    while u <= 64
      invariant 1 <= u <= 65 && u <= |s| + 1
      invariant forall i :: 1 <= i < u ==> !Below(s, i, cutoff)
    {
      var mx;
      mx, empty := Largest(s, u);
      if empty {
        return;
      }
      if mx < cutoff {
        LowMax(s, u, mx, cutoff);
        break;
      }
      assert !Below(s, u, cutoff);
      u := u + 1;
    }
    empty := false;
  }

  method ScanV<T(==)>(s: seq<T>, u: nat) returns (v: nat, empty: bool)
    requires 1 <= u <= 65 && (u <= |s| || u == 65 == |s| + 1)
    ensures empty <==> |s| <= u <= 64
    ensures !empty ==> u <= v <= 65 && (u < |s| ==> v < |s|) && (u >= |s| ==> v == u)
    ensures !empty ==> forall i :: u < i <= v ==> !Below(s, i, 2)
    ensures !empty && v <= 64 ==> forall i :: i > v ==> Below(s, i, 2)
  {
    v := u;
    while v <= 64
      invariant u <= v <= 65 && (u < |s| ==> v < |s|) && (u >= |s| ==> v == u)
      invariant forall i :: u < i <= v ==> !Below(s, i, 2)
    {
      var mx;
      mx, empty := Largest(s, v + 1);
      if empty {
        return;
      }
      if mx < 2 {
        LowMax(s, v + 1, mx, 2);
        StopsHere(s, v + 1, 2);
        break;
      }
      NotBelow(s, v + 1, mx, 2);
      v := v + 1;
    }
    empty := false;
  }

  lemma LowMax<T>(s: seq<T>, i: nat, m: nat, bound: int)
    requires IsMaxCount(s, i, m) && m < bound
    ensures Below(s, i, bound)
  {
  }

  method PairRatio<T(==)>(s: seq<T>, w: nat) returns (r: Ratio)
    requires w <= |s| + 1
    ensures RatioOk(s, w, r) && (r.den > 0 <==> w < |s|)
  {
    var m := |s| - w + 1;
    assert Positions(s, w) == m;
    hide SumPairs, Pairs, PairSet, Choose2, Positions, Counts;
    var cnt := CountTuples(s, w);
    var num := SumOverValues(cnt);
    PairsIsSize(s, w, Positions(s, w));
    SomePair(m);
    return Ratio(num, Choose2(m));
  }

  lemma SomePair(m: nat)
    ensures Choose2(m) > 0 <==> m > 1
  {
    if m > 1 {
      Choose2Step(m - 1);
    }
  }

  /** `max(cnt.values())` for the tuples of length `i`, which fails when there are none. */
  method Largest<T(==)>(s: seq<T>, i: nat) returns (mx: nat, empty: bool)
    ensures empty <==> i > |s|
    ensures !empty ==> IsMaxCount(s, i, mx)
  {
    var cnt := CountTuples(s, i);
    if i <= |s| {
      SomeTuple(s, i, cnt);
    }
    if cnt == map[] {
      return 0, true;
    }
    empty := false;
    mx := MaxOf(cnt);
    MaxOfCounts(s, i, cnt, mx);
  }

  /** A tuple that occurs at least `bound > 1` times leaves room for a longer one. */
  lemma NotBelow<T>(s: seq<T>, i: nat, m: nat, bound: nat)
    requires IsMaxCount(s, i, m) && m >= bound >= 2
    ensures !Below(s, i, bound) && i + bound <= |s| + 1
  {
    var j :| 0 <= j < Positions(s, i) && Count(s, i, TupleAt(s, i, j)) == m;
    OccBound(s, i, Positions(s, i), TupleAt(s, i, j));
  }

  lemma {:induction false} OccBound<T>(s: seq<T>, i: nat, n: nat, w: seq<T>)
    requires n <= Positions(s, i)
    ensures Occ(s, i, n, w) <= n
  {
    if n > 0 {
      OccBound(s, i, n - 1, w);
    }
  }

  /** The sum of c * (c - 1) // 2 over the values of a counter, in whatever order. */
  method SumOverValues<K(==)>(cnt: map<K, nat>) returns (num: nat)
    ensures num == SumPairs(cnt)
  {
    num := 0;
    var left := cnt;
    while left != map[]
      invariant num + SumPairs(left) == SumPairs(cnt)
      decreases |left|
    {
      var w :| w in left;
      SumPairsTake(left, w);
      var c: int := left[w];
      num := num + c * (c - 1) / 2;
      left := left - {w};
    }
  }

  lemma Frequent<T>(s: seq<T>, cutoff: int, t: nat, q: seq<nat>, i: nat)
    requires t == |q| && forall k :: 0 <= k < t ==> Reaches(s, k + 1, q[k], cutoff)
    requires 1 <= i <= t
    ensures !Below(s, i, cutoff)
  {
    assert Reaches(s, (i - 1) + 1, q[i - 1], cutoff);
  }

  /** The two estimators agree on where the frequent tuples end: u = t + 1, both scans capped at 65. */
  lemma FirstRareLength<T>(s: seq<T>, cutoff: int, t: nat, q: seq<nat>, u: nat)
    requires t == |q| <= 65 && forall k :: 0 <= k < t ==> Reaches(s, k + 1, q[k], cutoff)
    requires t < 65 ==> forall i :: i > t ==> Below(s, i, cutoff)
    requires IsFirstRare(s, cutoff, u)
    ensures u == if t <= 64 then t + 1 else 65
  {
    if u <= t {
      Frequent(s, cutoff, t, q, u);
    }
    assert t < 65 ==> Below(s, t + 1, cutoff);
  }

  /** The longest length the scan reports is that of a repeated tuple exactly when some u-tuple
      repeats; otherwise the scan stops where it began and the ratio it reports is zero. */
  lemma LastLengthRepeats<T>(s: seq<T>, cutoff: int, u: nat, v: nat)
    requires ScanOk(s, cutoff, u, v)
    ensures !Below(s, v, 2) <==> !Below(s, u, 2)
    ensures Below(s, u, 2) ==> u == v && |PairSet(s, u, Positions(s, u))| == 0
  {
    if Below(s, u, 2) {
      LongerStaysBelow(s, u, v, 2);
      assert v == u;
      assert PairSet(s, u, Positions(s, u)) == {} by {
        forall j: nat, k: nat | j < k < Positions(s, u)
          ensures TupleAt(s, u, j) != TupleAt(s, u, k)
        {
          if TupleAt(s, u, j) == TupleAt(s, u, k) {
            TwiceCounted(s, u, j, k);
          }
        }
      }
    }
  }

  lemma TwiceCounted<T>(s: seq<T>, i: nat, j: nat, k: nat)
    requires j < k < Positions(s, i) && TupleAt(s, i, j) == TupleAt(s, i, k)
    ensures Count(s, i, TupleAt(s, i, k)) >= 2
  {
    var w := TupleAt(s, i, k);
    OccPositive(s, i, k, w);
    OccMonotone(s, i, k + 1, Positions(s, i), w);
  }
}

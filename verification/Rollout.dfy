/** Percentage rollout: bucket ranges, their normal form, and the union of disjoint slices. */
module Rollout {
  import opened Wrappers

  datatype BucketRange = BucketRange(start: int, end: int)

  datatype RolloutError = InvalidRollout

  predicate InBounds(r: BucketRange) { 0 <= r.start <= r.end <= 99 }

  /** The two ranges share no bucket. */
  predicate Apart(a: BucketRange, b: BucketRange) { a.end < b.start || b.end < a.start }

  /** Every range lies in 0..99 and no two of them share a bucket. */
  predicate WellFormed(rs: seq<BucketRange>) {
    && (forall i :: 0 <= i < |rs| ==> InBounds(rs[i]))
    && (forall i, j :: 0 <= i < j < |rs| ==> Apart(rs[i], rs[j]))
  }

  /** Ascending and disjoint. */
  predicate Ordered(rs: seq<BucketRange>) {
    && (forall i :: 0 <= i < |rs| ==> InBounds(rs[i]))
    && (forall i, j :: 0 <= i < j < |rs| ==> rs[i].end < rs[j].start)
  }

  /** Ascending, disjoint, and no two ranges adjacent. */
  predicate Canonical(rs: seq<BucketRange>) {
    && (forall i :: 0 <= i < |rs| ==> InBounds(rs[i]))
    && (forall i, j :: 0 <= i < j < |rs| ==> rs[i].end + 1 < rs[j].start)
  }

  predicate Contains(r: BucketRange, b: int) { r.start <= b <= r.end }

  predicate Covers(rs: seq<BucketRange>, b: int) {
    exists i :: 0 <= i < |rs| && Contains(rs[i], b)
  }

  /** The client buckets a list of ranges serves. */
  ghost function Buckets(rs: seq<BucketRange>): set<int> {
    set b: int | 0 <= b <= 99 && Covers(rs, b)
  }

  /** The buckets of one range. */
  ghost function Interval(r: BucketRange): set<int> {
    set b: int | r.start <= b <= r.end && Contains(r, b)
  }

  lemma EndsCovered(rs: seq<BucketRange>, i: nat)
    requires i < |rs| && InBounds(rs[i])
    ensures Covers(rs, rs[i].start) && Covers(rs, rs[i].end)
  {
    assert Contains(rs[i], rs[i].start) && Contains(rs[i], rs[i].end);
  }

  /** Last bucket of the run of served buckets that holds `b`. */
  ghost function RunEnd(s: set<int>, b: int): (e: int)
    requires b <= 99 && b in s
    ensures b <= e <= 99 && (e < 99 ==> e + 1 !in s)
    ensures forall x :: b <= x <= e ==> x in s
    decreases 99 - b
  {
    if b < 99 && b + 1 in s then RunEnd(s, b + 1) else b
  }

  /** A maximal run in front of the runs after it. */
  lemma PrependRun(s: set<int>, b: int, e: int, rest: seq<BucketRange>)
    requires 0 <= b <= e <= 99 && (e < 99 ==> e + 1 !in s) && forall x :: b <= x <= e ==> x in s
    requires Canonical(rest) && forall i :: 0 <= i < |rest| ==> e + 1 <= rest[i].start
    requires forall x :: Covers(rest, x) <==> x in s && e + 1 <= x <= 99
    ensures var rs := [BucketRange(b, e)] + rest;
            && Canonical(rs) && (forall i :: 0 <= i < |rs| ==> b <= rs[i].start)
            && forall x :: Covers(rs, x) <==> x in s && b <= x <= 99
  {
    var rs := [BucketRange(b, e)] + rest;
    forall x ensures Covers(rs, x) <==> Contains(rs[0], x) || Covers(rest, x) { ConsCovers(rs[0], rest, x); }
    forall i | 0 <= i < |rest| ensures e + 1 < rest[i].start { EndsCovered(rest, i); }
  }

  ghost function RunsFrom(s: set<int>, b: int): (rs: seq<BucketRange>)
    requires 0 <= b
    ensures Canonical(rs)
    ensures forall i :: 0 <= i < |rs| ==> b <= rs[i].start
    ensures forall x :: Covers(rs, x) <==> x in s && b <= x <= 99
    decreases 100 - b
  {
    if b > 99 then []
    else if b !in s then RunsFrom(s, b + 1)
    else
      var e := RunEnd(s, b);
      var rest := RunsFrom(s, e + 1);
      PrependRun(s, b, e, rest);
      [BucketRange(b, e)] + rest
  }

  /**
   * Reference form of a bucket set: the maximal runs of consecutive buckets, in ascending order,
   * found by looking at the buckets 0..99 one by one.
   */
  ghost function Runs(s: set<int>): (rs: seq<BucketRange>)
    ensures Canonical(rs)
    ensures Buckets(rs) == s * Interval(BucketRange(0, 99))
  {
    RunsFrom(s, 0)
  }

  lemma ConsCovers(r: BucketRange, rs: seq<BucketRange>, b: int)
    ensures Covers([r] + rs, b) <==> Contains(r, b) || Covers(rs, b)
  {
    if Contains(r, b) { assert Contains(([r] + rs)[0], b); }
    if Covers(rs, b) {
      var i :| 0 <= i < |rs| && Contains(rs[i], b);
      assert Contains(([r] + rs)[i + 1], b);
    }
  }

  lemma AppendCovers(a: seq<BucketRange>, c: seq<BucketRange>, b: int)
    ensures Covers(a + c, b) <==> Covers(a, b) || Covers(c, b)
  {
    if Covers(a, b) {
      var i :| 0 <= i < |a| && Contains(a[i], b);
      assert Contains((a + c)[i], b);
    }
    if Covers(c, b) {
      var i :| 0 <= i < |c| && Contains(c[i], b);
      assert Contains((a + c)[|a| + i], b);
    }
  }

  lemma AppendBuckets(a: seq<BucketRange>, c: seq<BucketRange>)
    ensures Buckets(a + c) == Buckets(a) + Buckets(c)
  {
    forall b: int { AppendCovers(a, c, b); }
  }

  /** Two canonical lists that serve the same buckets are the same list. */
  lemma {:induction false} CanonicalUnique(a: seq<BucketRange>, c: seq<BucketRange>)
    requires Canonical(a) && Canonical(c)
    requires forall b :: 0 <= b <= 99 ==> (Covers(a, b) <==> Covers(c, b))
    ensures a == c
  {
    if a != [] { EndsCovered(a, 0); }
    if c != [] { EndsCovered(c, 0); }
    if a != [] {
      FirstRangeNotLater(a, c);
      FirstRangeNotLater(c, a);
      assert a == [a[0]] + a[1..] && c == [c[0]] + c[1..];
      forall b | 0 <= b <= 99 ensures Covers(a[1..], b) <==> Covers(c[1..], b) {
        ConsCovers(a[0], a[1..], b);
        ConsCovers(c[0], c[1..], b);
      }
      CanonicalUnique(a[1..], c[1..]);
    }
  }

  lemma FirstRangeNotLater(a: seq<BucketRange>, c: seq<BucketRange>)
    requires Canonical(a) && Canonical(c) && a != [] && c != []
    requires forall b :: 0 <= b <= 99 ==> (Covers(a, b) <==> Covers(c, b))
    ensures c[0].start <= a[0].start
    ensures c[0].start == a[0].start ==> a[0].end <= c[0].end
  {
    EndsCovered(a, 0);
    assert !Covers(c, c[0].end + 1);
    if c[0].start == a[0].start && c[0].end < a[0].end {
      assert Contains(a[0], c[0].end + 1);
    }
  }

  /** Number of buckets in a list of disjoint ranges. */
  function Width(rs: seq<BucketRange>): int {
    if rs == [] then 0 else Width(rs[..|rs| - 1]) + rs[|rs| - 1].end - rs[|rs| - 1].start + 1
  }

  lemma {:induction false} IntervalSize(r: BucketRange)
    requires r.start <= r.end + 1
    ensures |Interval(r)| == r.end - r.start + 1
    decreases r.end - r.start + 1
  {
    if r.start <= r.end {
      IntervalSize(BucketRange(r.start, r.end - 1));
      assert Interval(r) == Interval(BucketRange(r.start, r.end - 1)) + {r.end};
    } else {
      assert Interval(r) == {};
    }
  }

  lemma SingleBuckets(r: BucketRange)
    requires InBounds(r)
    ensures Buckets([r]) == Interval(r)
  {
    forall b: int ensures b in Buckets([r]) <==> b in Interval(r) {
      if Contains(r, b) { assert Contains([r][0], b); }
    }
  }

  /** Disjoint ranges serve exactly as many buckets as their widths add up to. */
  lemma {:induction false} WidthCountsBuckets(rs: seq<BucketRange>)
    requires WellFormed(rs)
    ensures Width(rs) == |Buckets(rs)|
  {
    if rs == [] {
      assert Buckets(rs) == {};
    } else {
      var init, last := rs[..|rs| - 1], rs[|rs| - 1];
      assert rs == init + [last];
      SplitWellFormed(init, [last]);
      WidthCountsBuckets(init);
      AppendBuckets(init, [last]);
      SingleBuckets(last);
      IntervalSize(last);
    }
  }

  /**
   * What adding a slice means: refused when nothing is added or two buckets coincide, otherwise the
   * canonical list of the union.
   */
  ghost function Expand(current: seq<BucketRange>, addition: seq<BucketRange>): Result<seq<BucketRange>, RolloutError> {
    if addition != [] && WellFormed(current + addition)
    then Success(Runs(Buckets(current) + Buckets(addition)))
    else Failure(InvalidRollout)
  }

  /** The union is as wide as the two slices together. */
  lemma ExpandAddsWidths(current: seq<BucketRange>, addition: seq<BucketRange>)
    requires Expand(current, addition).Success?
    ensures Width(Expand(current, addition).value) == Width(current) + Width(addition)
  {
    var union := Expand(current, addition).value;
    SplitWellFormed(current, addition);
    CanonicalWellFormed(union);
    WidthCountsBuckets(union);
    WidthCountsBuckets(current);
    WidthCountsBuckets(addition);
    assert Buckets(union) == Buckets(current) + Buckets(addition);
  }

  lemma CanonicalWellFormed(rs: seq<BucketRange>)
    requires Canonical(rs)
    ensures WellFormed(rs)
  {
  }

  lemma SplitWellFormed(a: seq<BucketRange>, c: seq<BucketRange>)
    ensures WellFormed(a + c) <==> WellFormed(a) && WellFormed(c) && Buckets(a) !! Buckets(c)
  {
    var all := a + c;
    if WellFormed(all) {
      forall i | 0 <= i < |a| ensures InBounds(a[i]) { assert a[i] == all[i]; }
      forall i, j | 0 <= i < j < |a| ensures Apart(a[i], a[j]) { assert a[i] == all[i] && a[j] == all[j]; }
      forall i | 0 <= i < |c| ensures InBounds(c[i]) { assert c[i] == all[|a| + i]; }
      forall i, j | 0 <= i < j < |c| ensures Apart(c[i], c[j]) {
        assert c[i] == all[|a| + i] && c[j] == all[|a| + j];
      }
      forall b | b in Buckets(a) ensures b !in Buckets(c) {
        var i :| 0 <= i < |a| && Contains(a[i], b);
        forall j | 0 <= j < |c| ensures !Contains(c[j], b) {
          assert Apart(all[i], all[|a| + j]);
        }
      }
    }
    if WellFormed(a) && WellFormed(c) && Buckets(a) !! Buckets(c) {
      forall i, j | 0 <= i < j < |all| ensures Apart(all[i], all[j]) {
        if i < |a| <= j { DisjointRangesApart(a, i, c, j - |a|); }
      }
    }
  }

  lemma DisjointRangesApart(a: seq<BucketRange>, i: nat, c: seq<BucketRange>, j: nat)
    requires WellFormed(a) && WellFormed(c) && Buckets(a) !! Buckets(c)
    requires i < |a| && j < |c|
    ensures Apart(a[i], c[j])
  {
    if !Apart(a[i], c[j]) {
      SharedBucket(a, i, c, j);
    }
  }

  /** Adding two slices in either order gives the same list, or is refused in both orders. */
  lemma ExpandCommutes(current: seq<BucketRange>, a: seq<BucketRange>, c: seq<BucketRange>)
    requires a != [] && c != []
    ensures ExpandAll(current, [a, c]) == ExpandAll(current, [c, a])
  {
    hide ExpandAll, SlicesApart, WellFormed, UnionOf, Buckets;
    var one, other := [a, c], [c, a];
    ExpandAllMeaning(current, one);
    ExpandAllMeaning(current, other);
    SlicesApartPair(a, c);
    UnionCommutes(a, c);
  }

  lemma UnionCommutes(a: seq<BucketRange>, c: seq<BucketRange>)
    ensures UnionOf([a, c]) == UnionOf([c, a])
  {
    hide UnionOf, Buckets;
    UnionPair(a, c);
    UnionPair(c, a);
  }

  lemma UnionPair(a: seq<BucketRange>, c: seq<BucketRange>)
    ensures UnionOf([a, c]) == Buckets(a) + Buckets(c)
  {
    hide Buckets, Covers;
    NothingCovered();
    UnionSplit([], a);
    UnionSplit([a], c);
    assert [] + [a] == [a] && [a] + [c] == [a, c];
  }

  lemma NothingCovered()
    ensures UnionOf([]) == {}
  {
  }

  /** A rollout executed slice by slice. */
  ghost function ExpandAll(current: seq<BucketRange>,
                           slices: seq<seq<BucketRange>>): Result<seq<BucketRange>, RolloutError> {
    if slices == [] then Success(current)
    else
      var before :- ExpandAll(current, slices[..|slices| - 1]);
      Expand(before, slices[|slices| - 1])
  }

  ghost predicate CoveredBySome(slices: seq<seq<BucketRange>>, b: int) {
    exists i :: 0 <= i < |slices| && Covers(slices[i], b)
  }

  ghost function UnionOf(slices: seq<seq<BucketRange>>): set<int> {
    set b: int | 0 <= b <= 99 && CoveredBySome(slices, b)
  }

  /** Every slice is well formed, none is empty, and no bucket is in two slices. */
  ghost predicate SlicesApart(slices: seq<seq<BucketRange>>) {
    && (forall i :: 0 <= i < |slices| ==> slices[i] != [] && WellFormed(slices[i]))
    && (forall i, j :: 0 <= i < j < |slices| ==> Buckets(slices[i]) !! Buckets(slices[j]))
  }

  lemma SlicesApartPair(a: seq<BucketRange>, c: seq<BucketRange>)
    ensures SlicesApart([a, c]) <==> SlicesApart([c, a])
  {
    ApartSplit([a], c);
    ApartSplit([c], a);
    SingleSlice(a);
    SingleSlice(c);
    assert [a, c] == [a] + [c] && [c, a] == [c] + [a];
    UnionSplit([], a);
    UnionSplit([], c);
    assert [a] == [] + [a] && [c] == [] + [c];
  }

  /**
   * A whole rollout succeeds exactly when its slices are disjoint from one another and from the start,
   * and its result depends only on the set of buckets the slices serve, not on their order.
   */
  lemma {:induction false} ExpandAllMeaning(current: seq<BucketRange>, slices: seq<seq<BucketRange>>)
    ensures slices != [] && WellFormed(current) ==>
              (ExpandAll(current, slices).Success? <==>
               SlicesApart(slices) && Buckets(current) !! UnionOf(slices))
    ensures slices != [] && !WellFormed(current) ==> ExpandAll(current, slices) == Failure(InvalidRollout)
    ensures slices != [] && ExpandAll(current, slices).Success? ==>
              ExpandAll(current, slices).value == Runs(Buckets(current) + UnionOf(slices))
    ensures ExpandAll(current, slices).Failure? ==> ExpandAll(current, slices) == Failure(InvalidRollout)
    decreases |slices|
  {
    if slices != [] {
      var init, last := slices[..|slices| - 1], slices[|slices| - 1];
      assert slices == init + [last];
      ExpandAllMeaning(current, init);
      UnionSplit(init, last);
      if init == [] {
        SplitWellFormed(current, last);
        assert UnionOf(init) == {};
        SingleSlice(last);
        assert slices == [last];
        assert ExpandAll(current, slices) == Expand(current, last);
        assert Buckets(current) + UnionOf(slices) == Buckets(current) + Buckets(last);
      } else {
        ExpandLast(current, init, last);
      }
    }
  }

  lemma SingleSlice(last: seq<BucketRange>)
    ensures SlicesApart([last]) <==> last != [] && WellFormed(last)
  {
    assert [last][0] == last;
  }

  lemma ExpandLast(current: seq<BucketRange>, init: seq<seq<BucketRange>>, last: seq<BucketRange>)
    requires init != []
    requires WellFormed(current) ==>
               (ExpandAll(current, init).Success? <==> SlicesApart(init) && Buckets(current) !! UnionOf(init))
    requires !WellFormed(current) ==> ExpandAll(current, init) == Failure(InvalidRollout)
    requires ExpandAll(current, init).Success? ==>
               ExpandAll(current, init).value == Runs(Buckets(current) + UnionOf(init))
    requires ExpandAll(current, init).Failure? ==> ExpandAll(current, init) == Failure(InvalidRollout)
    ensures WellFormed(current) ==>
              (ExpandAll(current, init + [last]).Success? <==>
               SlicesApart(init + [last]) && Buckets(current) !! UnionOf(init + [last]))
    ensures !WellFormed(current) ==> ExpandAll(current, init + [last]) == Failure(InvalidRollout)
    ensures ExpandAll(current, init + [last]).Success? ==>
              ExpandAll(current, init + [last]).value == Runs(Buckets(current) + UnionOf(init + [last]))
    ensures ExpandAll(current, init + [last]).Failure? ==> ExpandAll(current, init + [last]) == Failure(InvalidRollout)
  {
    var slices := init + [last];
    assert slices[..|slices| - 1] == init && slices[|slices| - 1] == last;
    UnionSplit(init, last);
    ApartSplit(init, last);
    if ExpandAll(current, init).Success? {
      var before := Runs(Buckets(current) + UnionOf(init));
      CanonicalWellFormed(before);
      SplitWellFormed(before, last);
      assert Buckets(before) == Buckets(current) + UnionOf(init);
      assert Buckets(current) + UnionOf(slices) == Buckets(before) + Buckets(last);
    }
  }

  lemma UnionSplit(init: seq<seq<BucketRange>>, last: seq<BucketRange>)
    ensures UnionOf(init + [last]) == UnionOf(init) + Buckets(last)
  {
    var slices := init + [last];
    forall b | 0 <= b <= 99 ensures b in UnionOf(slices) <==> b in UnionOf(init) + Buckets(last) {
      if b in UnionOf(init) {
        var i :| 0 <= i < |init| && Covers(init[i], b);
        assert Covers(slices[i], b);
      }
      if b in Buckets(last) { assert Covers(slices[|init|], b); }
    }
  }

  lemma ApartSplit(init: seq<seq<BucketRange>>, last: seq<BucketRange>)
    ensures SlicesApart(init + [last]) <==>
            SlicesApart(init) && last != [] && WellFormed(last) && UnionOf(init) !! Buckets(last)
  {
    var slices := init + [last];
    if SlicesApart(slices) {
      assert slices[|init|] == last;
      forall i | 0 <= i < |init| ensures init[i] != [] && WellFormed(init[i]) { assert slices[i] == init[i]; }
      forall i, j | 0 <= i < j < |init| ensures Buckets(init[i]) !! Buckets(init[j]) {
        assert Buckets(slices[i]) !! Buckets(slices[j]);
      }
      forall b | b in UnionOf(init) ensures b !in Buckets(last) {
        var i :| 0 <= i < |init| && Covers(init[i], b);
        assert Buckets(slices[i]) !! Buckets(slices[|init|]);
        assert b in Buckets(init[i]);
      }
    }
    if SlicesApart(init) && last != [] && WellFormed(last) && UnionOf(init) !! Buckets(last) {
      forall i, j | 0 <= i < j < |slices| ensures Buckets(slices[i]) !! Buckets(slices[j]) {
        if j == |init| {
          forall b | b in Buckets(slices[i]) ensures b !in Buckets(slices[j]) {
            assert Covers(init[i], b);
            assert b in UnionOf(init);
          }
        }
      }
    }
  }

  // ----- the code -----

  predicate Before(a: BucketRange, b: BucketRange) {
    a.start < b.start || (a.start == b.start && a.end <= b.end)
  }

  function InsertRange(x: BucketRange, ordered: seq<BucketRange>): (r: seq<BucketRange>)
    requires forall i, j :: 0 <= i < j < |ordered| ==> Before(ordered[i], ordered[j])
    ensures multiset(r) == multiset(ordered) + multiset{x}
    ensures forall i, j :: 0 <= i < j < |r| ==> Before(r[i], r[j])
  {
    if ordered == [] || Before(x, ordered[0]) then
      assert forall j :: 0 < j < |ordered| ==> Before(ordered[0], ordered[j]);
      [x] + ordered
    else
      var rest := InsertRange(x, ordered[1..]);
      assert ordered == [ordered[0]] + ordered[1..];
      assert forall i :: 0 <= i < |rest| ==> Before(ordered[0], rest[i]) by {
        forall i | 0 <= i < |rest| ensures Before(ordered[0], rest[i]) {
          assert rest[i] in multiset(rest);
          assert rest[i] == x || rest[i] in ordered[1..];
        }
      }
      [ordered[0]] + rest
  }

  /** sort.Slice on a copy: ascending by start, then end. */
  function SortRanges(ranges: seq<BucketRange>): (ordered: seq<BucketRange>)
    ensures multiset(ordered) == multiset(ranges)
    ensures forall i, j :: 0 <= i < j < |ordered| ==> Before(ordered[i], ordered[j])
  {
    if ranges == [] then []
    else
      assert ranges == [ranges[0]] + ranges[1..];
      InsertRange(ranges[0], SortRanges(ranges[1..]))
  }

  lemma OrderedBefore(ranges: seq<BucketRange>)
    requires Ordered(ranges) && |ranges| > 1
    ensures Before(ranges[0], ranges[1])
  {
    assert InBounds(ranges[0]);
  }

  lemma {:induction false} SortOrdered(ranges: seq<BucketRange>)
    requires Ordered(ranges)
    ensures SortRanges(ranges) == ranges
  {
    if ranges != [] {
      SortOrdered(ranges[1..]);
      assert ranges == [ranges[0]] + ranges[1..];
      if |ranges| > 1 { OrderedBefore(ranges); }
    }
  }

  /** The sorted ranges, when every range is in bounds and no two share a bucket. */
  function Normalize(ranges: seq<BucketRange>): Result<seq<BucketRange>, RolloutError> {
    if WellFormed(ranges) then Success(SortRanges(ranges)) else Failure(InvalidRollout)
  }

  lemma PermutationWellFormed(a: seq<BucketRange>, c: seq<BucketRange>)
    requires multiset(a) == multiset(c)
    requires WellFormed(a)
    ensures WellFormed(c)
  {
    forall i | 0 <= i < |c| ensures InBounds(c[i]) {
      assert c[i] in multiset(c);
      assert c[i] in a;
    }
    forall i, j | 0 <= i < j < |c| ensures Apart(c[i], c[j]) {
      if !Apart(c[i], c[j]) {
        assert c[i] in multiset(a) && c[j] in multiset(a);
        var p :| 0 <= p < |a| && a[p] == c[i];
        var q :| 0 <= q < |a| && a[q] == c[j];
        if c[i] == c[j] {
          TwoPlaces(c, i, j);
          var p', q' := TwoOccurrences(a, c[i]);
        }
      }
    }
  }

  lemma TwoPlaces(c: seq<BucketRange>, i: nat, j: nat)
    requires i < j < |c| && c[i] == c[j]
    ensures multiset(c)[c[i]] >= 2
  {
    assert c == c[..j] + [c[j]] + c[j + 1..];
    assert c[..j][i] == c[i];
    assert c[i] in multiset(c[..j]);
    assert multiset(c) == multiset(c[..j]) + multiset{c[j]} + multiset(c[j + 1..]);
  }

  lemma {:induction false} TwoOccurrences(a: seq<BucketRange>, x: BucketRange) returns (p: nat, q: nat)
    requires multiset(a)[x] >= 2
    ensures p < q < |a| && a[p] == x == a[q]
  {
    assert x in a;
    p :| p < |a| && a[p] == x;
    var rest := a[..p] + a[p + 1..];
    assert a == a[..p] + [a[p]] + a[p + 1..];
    assert multiset(a) == multiset(rest) + multiset{x};
    assert x in rest;
    var k :| 0 <= k < |rest| && rest[k] == x;
    q := if k < p then k else k + 1;
    if q < p { p, q := q, p; }
  }

  lemma PermutationBuckets(a: seq<BucketRange>, c: seq<BucketRange>)
    requires multiset(a) == multiset(c)
    ensures Buckets(a) == Buckets(c)
  {
    forall b: int ensures Covers(a, b) <==> Covers(c, b) {
      if Covers(a, b) {
        var i :| 0 <= i < |a| && Contains(a[i], b);
        assert a[i] in multiset(c);
        assert a[i] in c;
      }
      if Covers(c, b) {
        var i :| 0 <= i < |c| && Contains(c[i], b);
        assert c[i] in multiset(a);
        assert c[i] in a;
      }
    }
  }

  /** Sorts a copy and refuses it when a range is out of bounds or overlaps its neighbour. */
  method NormalizeRanges(ranges: seq<BucketRange>) returns (r: Result<seq<BucketRange>, RolloutError>)
    ensures r == Normalize(ranges)
    ensures r.Success? <==> WellFormed(ranges)
    ensures r.Success? ==> Ordered(r.value) && multiset(r.value) == multiset(ranges)
  {
    var ordered := SortRanges(ranges);
    for n := 0 to |ordered|
      invariant Ordered(ordered[..n])
    {
      if ordered[n].start < 0 || ordered[n].end > 99 || ordered[n].start > ordered[n].end {
        if WellFormed(ranges) { PermutationWellFormed(ranges, ordered); }
        return Failure(InvalidRollout);
      }
      if n > 0 && ordered[n - 1].end >= ordered[n].start {
        if WellFormed(ranges) {
          PermutationWellFormed(ranges, ordered);
        }
        return Failure(InvalidRollout);
      }
      OrderedExtends(ordered, n);
    }
    assert ordered[..|ordered|] == ordered;
    assert WellFormed(ordered);
    PermutationWellFormed(ordered, ranges);
    return Success(ordered);
  }

  lemma OrderedExtends(ordered: seq<BucketRange>, n: nat)
    requires n < |ordered| && Ordered(ordered[..n]) && InBounds(ordered[n])
    requires n > 0 ==> ordered[n - 1].end < ordered[n].start
    ensures Ordered(ordered[..n + 1])
  {
    var was, now := ordered[..n], ordered[..n + 1];
    assert now == was + [ordered[n]];
    forall i, j | 0 <= i < j < |now| ensures now[i].end < now[j].start {
      if j == n && i < n - 1 {
        assert was[i].end < was[n - 1].start;
        assert InBounds(was[n - 1]);
      } else if j < n {
        assert was[i].end < was[j].start;
      }
    }
    forall i | 0 <= i < |now| ensures InBounds(now[i]) {
      if i < n { assert InBounds(was[i]); }
    }
  }

  /** Adds a disjoint percentage slice and merges adjacent ranges. */
  method ExpandRolloutRanges(current: seq<BucketRange>, addition: seq<BucketRange>)
    returns (r: Result<seq<BucketRange>, RolloutError>)
    ensures r == Expand(current, addition)
  {
    SplitWellFormed(current, addition);
    if |addition| == 0 { return Failure(InvalidRollout); }
    var canonicalCurrent := NormalizeRanges(current);
    if canonicalCurrent.Failure? { return Failure(InvalidRollout); }
    var canonicalAddition := NormalizeRanges(addition);
    if canonicalAddition.Failure? { return Failure(InvalidRollout); }
    var before, added := canonicalCurrent.value, canonicalAddition.value;
    PermutationBuckets(current, before);
    PermutationBuckets(addition, added);
    var overlap := SomeOverlap(before, added);
    if overlap { return Failure(InvalidRollout); }
    var normalized := NormalizeRanges(before + added);
    var combined := normalized.value;
    PermutationBuckets(before + added, combined);
    AppendBuckets(before, added);
    var merged := MergeAdjacent(combined);
    CanonicalUnique(merged, Runs(Buckets(current) + Buckets(addition)));
    return Success(merged);
  }

  /** The pairwise overlap test between executed and added ranges. */
  method SomeOverlap(existing: seq<BucketRange>, added: seq<BucketRange>) returns (overlap: bool)
    requires Ordered(existing) && Ordered(added)
    ensures overlap <==> !WellFormed(existing + added)
    ensures overlap <==> !(Buckets(existing) !! Buckets(added))
  {
    SplitWellFormed(existing, added);
    for i := 0 to |existing|
      invariant forall p, q :: 0 <= p < i && 0 <= q < |added| ==> Apart(existing[p], added[q])
    {
      for j := 0 to |added|
        invariant forall q :: 0 <= q < j ==> Apart(existing[i], added[q])
      {
        if existing[i].start <= added[j].end && added[j].start <= existing[i].end {
          SharedBucket(existing, i, added, j);
          return true;
        }
      }
    }
    assert WellFormed(existing + added);
    return false;
  }

  lemma SharedBucket(a: seq<BucketRange>, i: nat, c: seq<BucketRange>, j: nat)
    requires i < |a| && j < |c| && InBounds(a[i]) && InBounds(c[j])
    requires !Apart(a[i], c[j])
    ensures !(Buckets(a) !! Buckets(c))
  {
    var b := if a[i].start < c[j].start then c[j].start else a[i].start;
    assert Contains(a[i], b) && Contains(c[j], b);
    assert b in Buckets(a) && b in Buckets(c);
  }

  /** The merge loop: extends the last range when the next one starts right after it. */
  method MergeAdjacent(combined: seq<BucketRange>) returns (merged: seq<BucketRange>)
    requires Ordered(combined)
    ensures Canonical(merged)
    ensures forall b :: 0 <= b <= 99 ==> (Covers(merged, b) <==> b in Buckets(combined))
  {
    merged := [];
    for n := 0 to |combined|
      invariant Canonical(merged)
      invariant n == 0 <==> merged == []
      invariant n > 0 ==> merged[|merged| - 1].end == combined[n - 1].end
      invariant forall b :: Covers(merged, b) <==> Covers(combined[..n], b)
    {
      var candidate := combined[n];
      ghost var was := merged;
      forall b: int {
        AppendCovers(combined[..n], [candidate], b);
      }
      assert combined[..n + 1] == combined[..n] + [candidate];
      if |merged| > 0 && merged[|merged| - 1].end + 1 == candidate.start {
        merged := merged[|merged| - 1 := BucketRange(merged[|merged| - 1].start, candidate.end)];
        LastExtended(was, candidate);
      } else {
        forall b: int {
          AppendCovers(was, [candidate], b);
        }
        merged := merged + [candidate];
      }
    }
    assert combined[..|combined|] == combined;
  }

  lemma LastExtended(was: seq<BucketRange>, candidate: BucketRange)
    requires was != [] && InBounds(was[|was| - 1]) && was[|was| - 1].end + 1 == candidate.start <= candidate.end
    ensures var now := was[|was| - 1 := BucketRange(was[|was| - 1].start, candidate.end)];
            forall b :: Covers(now, b) <==> Covers(was, b) || Covers([candidate], b)
  {
    var k := |was| - 1;
    var now := was[k := BucketRange(was[k].start, candidate.end)];
    forall b: int ensures Covers(now, b) <==> Covers(was, b) || Covers([candidate], b) {
      if Covers(now, b) {
        var i :| 0 <= i < |now| && Contains(now[i], b);
        if i == k {
          assert Contains(was[k], b) || Contains([candidate][0], b);
        } else {
          assert Contains(was[i], b);
        }
      }
      if Covers(was, b) {
        var i :| 0 <= i < |was| && Contains(was[i], b);
        assert Contains(now[i], b);
      }
      if Covers([candidate], b) { assert Contains(now[k], b); }
    }
  }
}

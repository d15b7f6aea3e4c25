/**
 `get_numerical_metadata`: mean, mode (or "No mode"), three largest and three
 smallest values of a list of numbers. Numbers are exact reals here; the
 `sorted` copies leave the input untouched, as a Dafny value always is.
 */
module Numeric {
  import opened JsonTree

  function Min(a: int, b: int): int { if a <= b then a else b }

  function Sum(xs: seq<real>): real
  {
    if |xs| == 0 then 0.0 else Sum(xs[..|xs| - 1]) + xs[|xs| - 1]
  }

  /** `statistics.mean`: the value whose `|xs|` copies add up to the sum of the items. */
  function Mean(xs: seq<real>): (m: real)
    requires |xs| > 0
    ensures m * |xs| as real == Sum(xs)
  {
    Sum(xs) / |xs| as real
  }

  /** Every item lies in `[lo, hi]`, so the sum lies in `[n * lo, n * hi]`. */
  lemma {:induction false} SumWithinBounds(xs: seq<real>, lo: real, hi: real)
    requires forall i :: 0 <= i < |xs| ==> lo <= xs[i] <= hi
    ensures |xs| as real * lo <= Sum(xs) <= |xs| as real * hi
    decreases |xs|
  {
    if |xs| > 0 {
      var init := xs[..|xs| - 1];
      var n := |init| as real;
      assert forall i :: 0 <= i < |init| ==> init[i] == xs[i];
      SumWithinBounds(init, lo, hi);
      assert Sum(xs) == Sum(init) + xs[|xs| - 1];
      assert |xs| as real * lo == n * lo + lo;
      assert |xs| as real * hi == n * hi + hi;
    }
  }

  /** The mean lies between any lower and upper bound of the items. */
  lemma MeanWithinBounds(xs: seq<real>, lo: real, hi: real)
    requires |xs| > 0
    requires forall i :: 0 <= i < |xs| ==> lo <= xs[i] <= hi
    ensures lo <= Mean(xs) <= hi
  {
    SumWithinBounds(xs, lo, hi);
    var n := |xs| as real;
    var m := Mean(xs);
    assert n * (m - lo) >= 0.0 && n * (hi - m) >= 0.0;
  }

  // ---------------------------------------------------------------- mode

  /** How often `x` occurs in `xs`. */
  function Count(xs: seq<real>, x: real): nat
  {
    multiset(xs)[x]
  }

  /** The highest count in `xs` of any of `cands`. */
  function MaxCountAmong(xs: seq<real>, cands: seq<real>): (c: nat)
    ensures forall i :: 0 <= i < |cands| ==> Count(xs, cands[i]) <= c
    ensures |cands| > 0 ==> exists i :: 0 <= i < |cands| && Count(xs, cands[i]) == c
  {
    if |cands| == 0 then 0
    else
      var rest := MaxCountAmong(xs, cands[1..]);
      assert forall i :: 1 <= i < |cands| ==> cands[1..][i - 1] == cands[i];
      if Count(xs, cands[0]) < rest then rest else Count(xs, cands[0])
  }

  /** The position in `cands` of the first value that occurs `c` times in `xs`, or `|cands|`. */
  function FirstWithCount(xs: seq<real>, cands: seq<real>, c: nat): (i: nat)
    ensures i <= |cands|
    ensures i < |cands| ==> Count(xs, cands[i]) == c
    ensures forall j :: 0 <= j < i ==> Count(xs, cands[j]) != c
    ensures (exists j :: 0 <= j < |cands| && Count(xs, cands[j]) == c) ==> i < |cands|
  {
    if |cands| == 0 then 0
    else if Count(xs, cands[0]) == c then 0
    else
      assert forall j :: 1 <= j < |cands| ==> cands[1..][j - 1] == cands[j];
      1 + FirstWithCount(xs, cands[1..], c)
  }

  /**
   Which `statistics.mode` the program runs with: from Python 3.8 the first value
   (in list order) of highest count; before 3.8 the value of highest count when it
   is the only one, and a `StatisticsError` otherwise.
   */
  datatype ModeRule = FirstOfMostCommon | UniqueMostCommon

  /** `v` occurs in `xs` more often than every other value. */
  predicate StrictlyMostCommon(xs: seq<real>, v: real)
  {
    v in xs && forall j :: 0 <= j < |xs| && xs[j] != v ==> Count(xs, xs[j]) < Count(xs, v)
  }

  /**
   The `try: s.mode(...) except: "No mode"` of lines 80-83: `None` is "No mode".
   With either rule a returned value is an item of highest count; an empty list,
   for which the library raises, gives "No mode".
   */
  function Mode(xs: seq<real>, rule: ModeRule): (r: Option<real>)
    ensures r.Some? ==> r.value in xs && forall j :: 0 <= j < |xs| ==> Count(xs, xs[j]) <= Count(xs, r.value)
    ensures rule == FirstOfMostCommon ==> (r.Some? <==> |xs| > 0)
    ensures rule == FirstOfMostCommon && r.Some? ==>
      exists i :: 0 <= i < |xs| && xs[i] == r.value && forall j :: 0 <= j < i ==> Count(xs, xs[j]) < Count(xs, r.value)
    ensures rule == UniqueMostCommon ==> (r.Some? <==> exists v :: StrictlyMostCommon(xs, v))
    ensures rule == UniqueMostCommon && r.Some? ==> StrictlyMostCommon(xs, r.value)
  {
    if |xs| == 0 then None
    else
      var c := MaxCountAmong(xs, xs);
      var i := FirstWithCount(xs, xs, c);
      match rule
      case FirstOfMostCommon => Some(xs[i])
      case UniqueMostCommon =>
        if forall j :: 0 <= j < |xs| && Count(xs, xs[j]) == c ==> xs[j] == xs[i] then
          assert StrictlyMostCommon(xs, xs[i]);
          Some(xs[i])
        else
          assert !exists v :: StrictlyMostCommon(xs, v) by {
            var k :| 0 <= k < |xs| && Count(xs, xs[k]) == c && xs[k] != xs[i];
            forall v | v in xs ensures !StrictlyMostCommon(xs, v) {
              if v == xs[i] {
                assert Count(xs, xs[k]) == Count(xs, v);
              } else {
                assert Count(xs, xs[i]) == c;
                var m :| 0 <= m < |xs| && xs[m] == v;
                assert Count(xs, v) <= c;
              }
            }
          }
          None
  }

  // ---------------------------------------------------------------- sorting

  /** `a` may precede `b` in `sorted(..., reverse=descending)`. */
  predicate InOrder(a: real, b: real, descending: bool)
  {
    if descending then a >= b else a <= b
  }

  predicate IsSorted(xs: seq<real>, descending: bool)
  {
    forall i, j :: 0 <= i < j < |xs| ==> InOrder(xs[i], xs[j], descending)
  }

  function Insert(x: real, xs: seq<real>, descending: bool): (r: seq<real>)
    requires IsSorted(xs, descending)
    ensures IsSorted(r, descending)
    ensures multiset(r) == multiset(xs) + multiset{x}
  {
    if |xs| == 0 then [x]
    else if InOrder(x, xs[0], descending) then [x] + xs
    else
      var tail := xs[1..];
      var rest := Insert(x, tail, descending);
      assert xs == [xs[0]] + tail;
      HeadPrecedes(x, xs, rest, descending);
      [xs[0]] + rest
  }

  /** The head of a sorted list precedes `x` and every item of its tail, so it precedes any arrangement of them. */
  lemma HeadPrecedes(x: real, xs: seq<real>, rest: seq<real>, descending: bool)
    requires IsSorted(xs, descending) && |xs| > 0 && !InOrder(x, xs[0], descending)
    requires multiset(rest) == multiset(xs[1..]) + multiset{x}
    ensures forall k :: 0 <= k < |rest| ==> InOrder(xs[0], rest[k], descending)
  {
    forall k | 0 <= k < |rest| ensures InOrder(xs[0], rest[k], descending) {
      assert rest[k] in multiset(rest);
      if rest[k] != x {
        assert rest[k] in multiset(xs[1..]);
        var m :| 0 <= m < |xs[1..]| && xs[1..][m] == rest[k];
        assert xs[m + 1] == rest[k];
      }
    }
  }

  /** `sorted(xs, reverse=descending)`: an ordered permutation of `xs`. */
  function Sorted(xs: seq<real>, descending: bool): (r: seq<real>)
    ensures IsSorted(r, descending)
    ensures multiset(r) == multiset(xs)
    ensures |r| == |xs|
  {
    if |xs| == 0 then []
    else
      assert xs == [xs[0]] + xs[1..];
      Insert(xs[0], Sorted(xs[1..], descending), descending)
  }

  /** Cutting a sorted sequence after `k` items keeps an ordered part of it, and nothing left out comes before the last kept item. */
  lemma SortedCut(s: seq<real>, k: nat, descending: bool)
    requires IsSorted(s, descending)
    requires k <= |s|
    ensures IsSorted(s[..k], descending)
    ensures multiset(s[..k]) <= multiset(s)
    ensures k > 0 ==> forall x :: x in multiset(s) - multiset(s[..k]) ==> InOrder(s[..k][k - 1], x, descending)
  {
    assert s == s[..k] + s[k..];
    assert multiset(s) == multiset(s[..k]) + multiset(s[k..]);
    assert multiset(s) - multiset(s[..k]) == multiset(s[k..]);
    forall x | x in multiset(s[k..]) && k > 0 ensures InOrder(s[k - 1], x, descending) {
      var j :| 0 <= j < |s[k..]| && s[k..][j] == x;
      assert s[k + j] == x;
    }
  }

  /** `sorted(xs, reverse=descending)[:3]` */
  function FirstThree(xs: seq<real>, descending: bool): (r: seq<real>)
    ensures |r| == Min(3, |xs|)
    ensures IsSorted(r, descending)
    ensures multiset(r) <= multiset(xs)
    ensures |xs| > 0 ==> forall x :: x in multiset(xs) - multiset(r) ==> InOrder(r[|r| - 1], x, descending)
  {
    var s := Sorted(xs, descending);
    var k := Min(3, |xs|);
    SortedCut(s, k, descending);
    s[..k]
  }

  /** "Max 3": the at most three largest items, largest first; no other item exceeds the last of them. */
  function Largest3(xs: seq<real>): (r: seq<real>)
    ensures |r| == Min(3, |xs|)
    ensures forall i, j :: 0 <= i < j < |r| ==> r[i] >= r[j]
    ensures multiset(r) <= multiset(xs)
    ensures |xs| > 0 ==> forall x :: x in multiset(xs) - multiset(r) ==> x <= r[|r| - 1]
  {
    FirstThree(xs, true)
  }

  /** "Min 3": the at most three smallest items, smallest first; no other item is below the last of them. */
  function Smallest3(xs: seq<real>): (r: seq<real>)
    ensures |r| == Min(3, |xs|)
    ensures forall i, j :: 0 <= i < j < |r| ==> r[i] <= r[j]
    ensures multiset(r) <= multiset(xs)
    ensures |xs| > 0 ==> forall x :: x in multiset(xs) - multiset(r) ==> r[|r| - 1] <= x
  {
    FirstThree(xs, false)
  }

  // ---------------------------------------------------------------- the summary

  /** The dict built at line 87; `mode == None` is the string "No mode". */
  datatype NumericSummary = NumericSummary(mean: real, mode: Option<real>, max3: seq<real>, min3: seq<real>)

  /**
   `get_numerical_metadata(xs)`: a failure of the mode computation is caught, but
   `statistics.mean` of an empty list raises, so only the empty list fails.
   */
  function GetNumericalMetadata(xs: seq<real>, rule: ModeRule): (r: Result<NumericSummary>)
    ensures r.Err? <==> |xs| == 0
    ensures r.Err? ==> r.error == StatisticsError
    ensures r.Ok? ==> r.value == NumericSummary(Mean(xs), Mode(xs, rule), Largest3(xs), Smallest3(xs))
  {
    var mode := Mode(xs, rule);
    if |xs| == 0 then Err(StatisticsError)
    else Ok(NumericSummary(Mean(xs), mode, Largest3(xs), Smallest3(xs)))
  }
}

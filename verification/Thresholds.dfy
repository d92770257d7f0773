/** Lower and upper operating thresholds under finite-sample error budgets. */
module Thresholds {
  import opened Orders

  datatype Scored = Scored(spam: bool, p: real)

  datatype Selection = InvalidSample | NoFeasibleThreshold | BudgetExceeded
                     | Selected(lower: real, upper: real, allowedFp: nat, allowedFn: nat, fp: nat, fn: nat)

  /** The neighbouring floating-point numbers: strictly beyond, never across 0 or 1. */
  ghost predicate Neighbours(up: real -> real, down: real -> real) {
    forall x :: && up(x) > x && (x < 1.0 ==> up(x) <= 1.0)
                && down(x) < x && (x > 0.0 ==> down(x) >= 0.0)
  }

  const GUARD := 0.000000001

  function Max(a: real, b: real): real { if a >= b then a else b }

  function Min(a: real, b: real): real { if a <= b then a else b }

  // ---------------------------------------------------------------- samples

  function Class(spam: bool): Scored -> bool { (s: Scored) => s.spam == spam }

  function Score(): Scored -> real { (s: Scored) => s.p }

  function Scores(s: seq<Scored>): seq<real> { Image(s, Score()) }

  function AtMost(): (real, real) -> bool { (a: real, b: real) => a <= b }

  /** The scores of one class, ascending. */
  function Ascending(sample: seq<Scored>, spam: bool): seq<real> {
    Sort(Scores(Keep(sample, Class(spam))), AtMost())
  }

  /** Scores are probabilities and both classes exceed the number of errors allowed for them. */
  predicate Valid(sample: seq<Scored>, allowedFp: nat, allowedFn: nat) {
    && (forall s :: s in sample ==> 0.0 <= s.p <= 1.0)
    && allowedFp < |Keep(sample, Class(false))| && allowedFn < |Keep(sample, Class(true))|
  }

  /** Legitimate messages at or above u, and spam at or below l, in the sample. */
  function Reaching(u: real): Scored -> bool { (s: Scored) => !s.spam && s.p >= u }

  function Staying(l: real): Scored -> bool { (s: Scored) => s.spam && s.p <= l }

  function Above(u: real): real -> bool { (x: real) => x >= u }

  function Below(l: real): real -> bool { (x: real) => x <= l }

  function UpperOf(high: real, next: real): real { Max(0.5, Max(Min(1.0, high + GUARD), next)) }

  function LowerOf(low: real, next: real, upper: real): real {
    Min(0.5, Min(Max(0.0, low - GUARD), Min(next, upper - GUARD)))
  }

  /** The selection as computed from the sorted scores, for given numbers of allowed errors. */
  function Select(sample: seq<Scored>, allowedFp: nat, allowedFn: nat, up: real -> real, down: real -> real): Selection {
    if !Valid(sample, allowedFp, allowedFn) then InvalidSample
    else
      var ham, spam := Ascending(sample, false), Ascending(sample, true);
      var high, low := ham[|ham| - 1 - allowedFp], spam[allowedFn];
      var upper := UpperOf(high, up(high));
      var lower := LowerOf(low, down(low), upper);
      if !(0.0 <= lower < upper <= 1.0) then NoFeasibleThreshold
      else
        var fp, fn := Count(ham, Above(upper)), Count(spam, Below(lower));
        if fp <= allowedFp && fn <= allowedFn then Selected(lower, upper, allowedFp, allowedFn, fp, fn)
        else BudgetExceeded
  }

  lemma ScaledBounds(n: real, rate: real)
    requires 0.0 <= rate < 1.0 && n > 0.0
    ensures 0.0 <= n * rate < n
  {
  }

  /** The allowed number of errors is a proper part of a class that is not empty. */
  function Allowed(n: nat, rate: real): (a: nat)
    requires 0.0 <= rate < 1.0
    ensures n > 0 ==> a < n
  {
    if n == 0 then 0
    else
      ScaledBounds(n as real, rate);
      var x := n as real * rate;
      assert (x.Floor as real) < (n as real);
      x.Floor
  }

  /** The selection for given error rates; an empty class makes the sample invalid. */
  function SelectThresholds(sample: seq<Scored>, fpr: real, fnr: real, up: real -> real, down: real -> real): Selection {
    if !(0.0 <= fpr < 1.0 && 0.0 <= fnr < 1.0) then InvalidSample
    else
      Select(sample, Allowed(|Keep(sample, Class(false))|, fpr), Allowed(|Keep(sample, Class(true))|, fnr), up, down)
  }

  // ---------------------------------------------------------------- order statistics

  ghost predicate Rising(s: seq<real>) { forall i, j :: 0 <= i < j < |s| ==> s[i] <= s[j] }

  lemma AscendingRises(sample: seq<Scored>, spam: bool)
    ensures Rising(Ascending(sample, spam)) && |Ascending(sample, spam)| == |Keep(sample, Class(spam))|
    ensures forall x :: x in Ascending(sample, spam) ==> exists s :: s in sample && s.p == x
  {
    var v := Scores(Keep(sample, Class(spam)));
    SortKeeps(v, AtMost());
    SortSorted(v, AtMost());
    forall i, j | 0 <= i < j < |v| ensures Ascending(sample, spam)[i] <= Ascending(sample, spam)[j] {
      assert AtMost()(Ascending(sample, spam)[i], Ascending(sample, spam)[j]);
    }
    forall x | x in v ensures exists s :: s in sample && s.p == x {
      var k :| 0 <= k < |v| && v[k] == x;
      assert Keep(sample, Class(spam))[k] in Keep(sample, Class(spam));
    }
  }

  /** Up to k a rising sequence is at most its element at k, from there on at least. */
  lemma RisingAround(s: seq<real>, k: nat, front: seq<real>, back: seq<real>)
    requires Rising(s) && k < |s| && front == s[..k + 1] && back == s[k..]
    ensures (forall x :: x in front ==> x <= s[k]) && (forall x :: x in back ==> x >= s[k])
  {
    forall x | x in front ensures x <= s[k] {
      var i :| 0 <= i <= k && s[i] == x;
    }
    forall x | x in back ensures x >= s[k] {
      var i :| k <= i < |s| && s[i] == x;
    }
  }

  /** Exactly the thresholds above the excluded score keep the count at or above within a. */
  lemma AboveBudget(s: seq<real>, a: nat, u: real)
    requires Rising(s) && a < |s|
    ensures Count(s, Above(u)) <= a <==> u > s[|s| - 1 - a]
  {
    var k := |s| - 1 - a;
    RisingAround(s, k, s[..k + 1], s[k..]);
    if u > s[k] {
      CountSplit(s, k + 1, Above(u));
      CountUniform(s[..k + 1], Above(u), false);
    } else {
      CountSplit(s, k, Above(u));
      CountUniform(s[k..], Above(u), true);
    }
  }

  /** Exactly the thresholds below the excluded score keep the count at or below within b. */
  lemma BelowBudget(s: seq<real>, b: nat, l: real)
    requires Rising(s) && b < |s|
    ensures Count(s, Below(l)) <= b <==> l < s[b]
  {
    RisingAround(s, b, s[..b + 1], s[b..]);
    if l < s[b] {
      CountSplit(s, b, Below(l));
      CountUniform(s[b..], Below(l), false);
    } else {
      CountSplit(s, b + 1, Below(l));
      CountUniform(s[..b + 1], Below(l), true);
    }
  }

  /** Counting errors in the sample is counting in the sorted scores of the class. */
  lemma ErrorsAreSorted(sample: seq<Scored>, u: real, l: real)
    ensures Count(sample, Reaching(u)) == Count(Ascending(sample, false), Above(u))
    ensures Count(sample, Staying(l)) == Count(Ascending(sample, true), Below(l))
  {
    CountImage(sample, Score(), Class(false), Above(u), Reaching(u));
    CountImage(sample, Score(), Class(true), Below(l), Staying(l));
    var ham, spam := Scores(Keep(sample, Class(false))), Scores(Keep(sample, Class(true)));
    SortMultiset(ham, AtMost());
    SortMultiset(spam, AtMost());
    CountForgetsOrder(ham, Sort(ham, AtMost()), Above(u));
    CountForgetsOrder(spam, Sort(spam, AtMost()), Below(l));
  }

  // ---------------------------------------------------------------- theorems

  /** Both inclusive thresholds are usable at run time and meet the error budgets of the sample. */
  ghost predicate Feasible(sample: seq<Scored>, allowedFp: nat, allowedFn: nat, l: real, u: real)
    requires Valid(sample, allowedFp, allowedFn)
  {
    && 0.0 <= l < u <= 1.0
    && Count(sample, Reaching(u)) <= allowedFp
    && Count(sample, Staying(l)) <= allowedFn
  }

  /** The excluded scores: the first legitimate and the first spam score beyond the budgets. */
  function High(sample: seq<Scored>, allowedFp: nat, allowedFn: nat): real
    requires Valid(sample, allowedFp, allowedFn)
  {
    var ham := Ascending(sample, false);
    ham[|ham| - 1 - allowedFp]
  }

  function Low(sample: seq<Scored>, allowedFp: nat, allowedFn: nat): real
    requires Valid(sample, allowedFp, allowedFn)
  {
    var spam := Ascending(sample, true);
    spam[allowedFn]
  }

  /** A pair is feasible exactly when it lies strictly beyond the excluded scores. */
  lemma FeasibleBeyondExcluded(sample: seq<Scored>, allowedFp: nat, allowedFn: nat, l: real, u: real)
    requires Valid(sample, allowedFp, allowedFn)
    ensures Feasible(sample, allowedFp, allowedFn, l, u)
            <==> 0.0 <= l < u <= 1.0 && u > High(sample, allowedFp, allowedFn) && l < Low(sample, allowedFp, allowedFn)
  {
    var ham, spam := Ascending(sample, false), Ascending(sample, true);
    AscendingRises(sample, false);
    AscendingRises(sample, true);
    ErrorsAreSorted(sample, u, l);
    AboveBudget(ham, allowedFp, u);
    BelowBudget(spam, allowedFn, l);
  }

  lemma ExcludedInRange(sample: seq<Scored>, allowedFp: nat, allowedFn: nat)
    requires Valid(sample, allowedFp, allowedFn)
    ensures 0.0 <= High(sample, allowedFp, allowedFn) <= 1.0 && 0.0 <= Low(sample, allowedFp, allowedFn) <= 1.0
  {
    var ham, spam := Ascending(sample, false), Ascending(sample, true);
    AscendingRises(sample, false);
    AscendingRises(sample, true);
    assert ham[|ham| - 1 - allowedFp] in ham;
    assert spam[allowedFn] in spam;
  }

  /** The window is usable exactly when the excluded scores leave room, and excludes them. */
  lemma Window(high: real, low: real, above: real, below: real)
    requires 0.0 <= high <= 1.0 && 0.0 <= low <= 1.0
    requires above > high && (high < 1.0 ==> above <= 1.0) && below < low && (low > 0.0 ==> below >= 0.0)
    ensures var u := UpperOf(high, above); var l := LowerOf(low, below, u);
            (0.0 <= l < u <= 1.0 <==> high < 1.0 && low > 0.0) && u > high && l < low && l <= 0.5 <= u
  {
  }

  lemma WindowMeetsBudgets(sample: seq<Scored>, allowedFp: nat, allowedFn: nat, upper: real, lower: real)
    requires Valid(sample, allowedFp, allowedFn)
    requires upper > High(sample, allowedFp, allowedFn) && lower < Low(sample, allowedFp, allowedFn)
    ensures Count(Ascending(sample, false), Above(upper)) <= allowedFp
    ensures Count(Ascending(sample, true), Below(lower)) <= allowedFn
  {
    AscendingRises(sample, false);
    AscendingRises(sample, true);
    AboveBudget(Ascending(sample, false), allowedFp, upper);
    BelowBudget(Ascending(sample, true), allowedFn, lower);
  }

  /** Success is decided by the excluded scores, and the budget check after the selection never fails. */
  lemma BudgetAlwaysMet(sample: seq<Scored>, allowedFp: nat, allowedFn: nat, up: real -> real, down: real -> real)
    requires Neighbours(up, down)
    ensures !Select(sample, allowedFp, allowedFn, up, down).BudgetExceeded?
    ensures Select(sample, allowedFp, allowedFn, up, down).InvalidSample? <==> !Valid(sample, allowedFp, allowedFn)
    ensures Valid(sample, allowedFp, allowedFn) ==>
              (Select(sample, allowedFp, allowedFn, up, down).Selected?
               <==> High(sample, allowedFp, allowedFn) < 1.0 && Low(sample, allowedFp, allowedFn) > 0.0)
  {
    if Valid(sample, allowedFp, allowedFn) {
      ExcludedInRange(sample, allowedFp, allowedFn);
      var high, low := High(sample, allowedFp, allowedFn), Low(sample, allowedFp, allowedFn);
      var upper := UpperOf(high, up(high));
      var lower := LowerOf(low, down(low), upper);
      Window(high, low, up(high), down(low));
      WindowMeetsBudgets(sample, allowedFp, allowedFn, upper, lower);
    }
  }

  /** With error rates, the sample is invalid exactly for a bad rate, a bad score or an empty class. */
  lemma RatesNeverExceedBudget(sample: seq<Scored>, fpr: real, fnr: real, up: real -> real, down: real -> real)
    requires Neighbours(up, down)
    ensures var r := SelectThresholds(sample, fpr, fnr, up, down);
            && !r.BudgetExceeded?
            && (r.InvalidSample? <==> !(0.0 <= fpr < 1.0 && 0.0 <= fnr < 1.0)
                                      || (exists s :: s in sample && !(0.0 <= s.p <= 1.0))
                                      || Keep(sample, Class(false)) == [] || Keep(sample, Class(true)) == [])
  {
    if 0.0 <= fpr < 1.0 && 0.0 <= fnr < 1.0 {
      BudgetAlwaysMet(sample, Allowed(|Keep(sample, Class(false))|, fpr), Allowed(|Keep(sample, Class(true))|, fnr),
                      up, down);
    }
  }

  /**
   The selection succeeds exactly when some feasible pair exists; the selected pair is then
   feasible, brackets one half and reports the errors of the sample.
   */
  lemma SelectsWheneverFeasible(sample: seq<Scored>, allowedFp: nat, allowedFn: nat, up: real -> real, down: real -> real)
    requires Neighbours(up, down) && Valid(sample, allowedFp, allowedFn)
    ensures var r := Select(sample, allowedFp, allowedFn, up, down);
            && (r.Selected? <==> exists l, u :: Feasible(sample, allowedFp, allowedFn, l, u))
            && (r.Selected? ==> Feasible(sample, allowedFp, allowedFn, r.lower, r.upper)
                                && r.lower <= 0.5 <= r.upper
                                && r.fp == Count(sample, Reaching(r.upper)) && r.fn == Count(sample, Staying(r.lower)))
  {
    BudgetAlwaysMet(sample, allowedFp, allowedFn, up, down);
    var r := Select(sample, allowedFp, allowedFn, up, down);
    if r.Selected? {
      SelectedBeyond(sample, allowedFp, allowedFn, up, down);
      FeasibleBeyondExcluded(sample, allowedFp, allowedFn, r.lower, r.upper);
      ErrorsAreSorted(sample, r.upper, r.lower);
    }
    forall l, u | Feasible(sample, allowedFp, allowedFn, l, u) ensures r.Selected? {
      FeasibleBeyondExcluded(sample, allowedFp, allowedFn, l, u);
    }
  }

  lemma SelectedBeyond(sample: seq<Scored>, allowedFp: nat, allowedFn: nat, up: real -> real, down: real -> real)
    requires Neighbours(up, down) && Valid(sample, allowedFp, allowedFn) && Select(sample, allowedFp, allowedFn, up, down).Selected?
    ensures var r := Select(sample, allowedFp, allowedFn, up, down);
            && r.upper > High(sample, allowedFp, allowedFn) && r.lower < Low(sample, allowedFp, allowedFn)
            && 0.0 <= r.lower < r.upper <= 1.0 && r.lower <= 0.5 <= r.upper
  {
    ExcludedInRange(sample, allowedFp, allowedFn);
    var high, low := High(sample, allowedFp, allowedFn), Low(sample, allowedFp, allowedFn);
    Window(high, low, up(high), down(low));
  }

  /** How close the two thresholds come to one half and to the excluded scores. */
  predicate Tight(high: real, low: real, above: real, below: real, lower: real, upper: real) {
    && 0.5 <= upper <= Max(0.5, Max(high + 0.000000001, above))
    && (high + 0.000000001 <= 0.5 && above <= 0.5 ==> upper == 0.5)
    && Min(0.499999999, Min(low - 0.000000001, below)) <= lower <= 0.5
    && (low >= 0.500000001 && below >= 0.5 ==> lower == Min(0.5, upper - 0.000000001))
  }

  lemma WindowIsTight(high: real, low: real, above: real, below: real)
    requires 0.0 <= high <= 1.0 && 0.0 <= low <= 1.0
    requires above > high && (high < 1.0 ==> above <= 1.0) && below < low && (low > 0.0 ==> below >= 0.0)
    ensures var u := UpperOf(high, above); Tight(high, low, above, below, LowerOf(low, below, u), u)
  {
  }

  /**
   Coverage: the selected pair is as close to one half as the excluded scores and the guard
   allow. No feasible pair around one half is tighter by more, and every score beyond one half,
   the excluded score, its neighbour and the guard is decided.
   */
  lemma SelectionIsTight(sample: seq<Scored>, allowedFp: nat, allowedFn: nat, up: real -> real, down: real -> real,
                         l: real, u: real, p: real)
    requires Neighbours(up, down) && Valid(sample, allowedFp, allowedFn)
    requires Select(sample, allowedFp, allowedFn, up, down).Selected?
    requires Feasible(sample, allowedFp, allowedFn, l, u) && l <= 0.5 <= u
    ensures var r := Select(sample, allowedFp, allowedFn, up, down);
            var high, low := High(sample, allowedFp, allowedFn), Low(sample, allowedFp, allowedFn);
            && Tight(high, low, up(high), down(low), r.lower, r.upper)
            && r.upper <= Max(u, Max(high + 0.000000001, up(high)))
            && r.lower >= Min(l, Min(0.499999999, Min(low - 0.000000001, down(low))))
            && (p >= 0.5 && p >= high + 0.000000001 && p >= up(high) ==> p >= r.upper)
            && (p <= 0.499999999 && p <= low - 0.000000001 && p <= down(low) ==> p <= r.lower)
  {
    ExcludedInRange(sample, allowedFp, allowedFn);
    var high, low := High(sample, allowedFp, allowedFn), Low(sample, allowedFp, allowedFn);
    WindowIsTight(high, low, up(high), down(low));
  }

  lemma FloorBounds(x: real)
    ensures x.Floor as real <= x < x.Floor as real + 1.0
  {
  }

  /** The number of allowed errors is the rate of the class, rounded down. */
  lemma AllowedIsFloor(n: nat, rate: real)
    requires 0.0 <= rate < 1.0 && n > 0
    ensures Allowed(n, rate) as real <= n as real * rate < Allowed(n, rate) as real + 1.0
  {
    FloorBounds(n as real * rate);
  }
}

/** The empirical cutoff of the fusion trainer: few false positives, ties kept together, best recall. */
module Cutoff {
  import opened Options
  import opened Orders

  datatype Row = Row(spam: bool, logit: real, eligible: bool)

  // ---------------------------------------------------------------- predictions at a cutoff

  function Flagged(spam: bool, c: real): Row -> bool {
    (r: Row) => r.eligible && r.spam == spam && r.logit >= c
  }

  function Labelled(spam: bool): Row -> bool { (r: Row) => r.spam == spam }

  function Eligible(): Row -> bool { (r: Row) => r.eligible }

  function TruePositives(lot: seq<Row>, c: real): nat { Count(lot, Flagged(true, c)) }

  function FalsePositives(lot: seq<Row>, c: real): nat { Count(lot, Flagged(false, c)) }

  /** At most one false positive in a thousand legitimate messages. */
  function Budget(lot: seq<Row>): (b: nat)
    ensures forall fp: nat :: fp <= b <==> Affordable(lot, fp)
  {
    Count(lot, Labelled(false)) / 1000
  }

  predicate Affordable(lot: seq<Row>, fp: nat) { 1000 * fp <= Count(lot, Labelled(false)) }

  predicate Usable(lot: seq<Row>) {
    (exists k :: 0 <= k < |lot| && lot[k].spam) && (exists k :: 0 <= k < |lot| && !lot[k].spam)
  }

  function Abs(x: real): real { if x < 0.0 then -x else x }

  function Peak(lot: seq<Row>): (m: real)
    requires lot != []
    ensures forall r :: r in lot ==> r.logit <= m
    ensures exists r :: r in lot && r.logit == m
  {
    if |lot| == 1 then
      assert lot[0] in lot;
      lot[0].logit
    else
      var init, last := lot[..|lot| - 1], lot[|lot| - 1];
      assert lot == init + [last];
      var m := Peak(init);
      if last.logit > m then assert last in lot; last.logit else m
  }

  /** The largest logit in size, at least one. */
  function Reach(lot: seq<Row>): (m: real)
    ensures m >= 1.0 && forall r :: r in lot ==> Abs(r.logit) <= m
    ensures m == 1.0 || exists r :: r in lot && Abs(r.logit) == m
  {
    if lot == [] then 1.0
    else
      var init, last := lot[..|lot| - 1], lot[|lot| - 1];
      assert lot == init + [last] && last in lot;
      var m := Reach(init);
      if Abs(last.logit) > m then Abs(last.logit) else m
  }

  /** The smallest distance at which two logits count as different. */
  function Gap(lot: seq<Row>): (g: real)
    ensures g >= 0.000000001 && forall r :: r in lot ==> g >= 0.000000001 * Abs(r.logit)
    ensures g == 0.000000001 || exists r :: r in lot && g == 0.000000001 * Abs(r.logit)
  {
    0.000000001 * Reach(lot)
  }

  /** No eligible logit lies within d of the cutoff, strictly or not. */
  ghost predicate Clear(lot: seq<Row>, c: real, d: real) {
    forall r :: r in lot && r.eligible ==> Abs(r.logit - c) >= d
  }

  ghost predicate WellClear(lot: seq<Row>, c: real, d: real) {
    forall r :: r in lot && r.eligible ==> Abs(r.logit - c) > d
  }

  /** Eligible logits on different sides of the cutoff are more than d apart. */
  ghost predicate Parts(lot: seq<Row>, c: real, d: real) {
    forall a, b :: a in lot && b in lot && a.eligible && b.eligible && a.logit >= c > b.logit ==> a.logit - b.logit > d
  }

  /** Keys compare as pairs: more true positives, then fewer false positives. */
  predicate KeyLess(tp: nat, fp: nat, tp': nat, fp': nat) {
    tp < tp' || (tp == tp' && fp > fp')
  }

  // ---------------------------------------------------------------- cuts in the sorted order

  predicate Higher(a: Row, b: Row) { a.logit >= b.logit }

  function Descending(): (Row, Row) -> bool { (a: Row, b: Row) => Higher(a, b) }

  ghost predicate Falling(e: seq<Row>) {
    && (forall r :: r in e ==> r.eligible)
    && (forall i, j :: 0 <= i < j < |e| ==> e[i].logit >= e[j].logit)
  }

  function Ranked(lot: seq<Row>): seq<Row> { Sort(Keep(lot, Eligible()), Descending()) }

  lemma RankedFalls(lot: seq<Row>)
    ensures Falling(Ranked(lot))
    ensures forall r :: r in Ranked(lot) <==> r in lot && r.eligible
  {
    var s := Keep(lot, Eligible());
    SortKeeps(s, Descending());
    SortSorted(s, Descending());
    forall i, j | 0 <= i < j < |Ranked(lot)| ensures Ranked(lot)[i].logit >= Ranked(lot)[j].logit {
      assert Descending()(Ranked(lot)[i], Ranked(lot)[j]);
    }
  }

  lemma RankedCounts(lot: seq<Row>, spam: bool, c: real)
    ensures Count(lot, Flagged(spam, c)) == Count(Ranked(lot), Flagged(spam, c))
  {
    KeepTwice(lot, Eligible(), Flagged(spam, c));
    CountIsKept(lot, Flagged(spam, c));
    CountIsKept(Keep(lot, Eligible()), Flagged(spam, c));
    SortMultiset(Keep(lot, Eligible()), Descending());
    CountForgetsOrder(Keep(lot, Eligible()), Ranked(lot), Flagged(spam, c));
  }

  /** The cutoff c predicts exactly the first m ranked rows. */
  ghost predicate Cuts(e: seq<Row>, m: nat, c: real) {
    m <= |e| && (forall i :: 0 <= i < m ==> e[i].logit >= c) && (forall i :: m <= i < |e| ==> e[i].logit < c)
  }

  lemma CutCounts(e: seq<Row>, m: nat, c: real, spam: bool)
    requires Falling(e) && Cuts(e, m, c)
    ensures Count(e, Flagged(spam, c)) == Count(e[..m], Labelled(spam))
  {
    var front, back := e[..m], e[m..];
    assert e == front + back;
    CountConcat(front, back, Flagged(spam, c));
    CountCongruent(front, Flagged(spam, c), Labelled(spam));
    CountUniform(back, Flagged(spam, c), false);
  }

  /** Every cutoff is a cut of the ranked rows. */
  lemma {:induction false} SomeCut(e: seq<Row>, c: real) returns (m: nat)
    requires Falling(e)
    ensures Cuts(e, m, c)
  {
    if e == [] {
      m := 0;
    } else {
      var init := e[..|e| - 1];
      assert forall r :: r in init ==> r in e;
      m := SomeCut(init, c);
      assert forall i :: 0 <= i < |init| ==> init[i] == e[i];
      if m == |init| && e[m].logit >= c {
        m := m + 1;
      } else if m < |init| {
        assert e[m].logit < c;
      }
    }
  }

  function Tally(e: seq<Row>, m: nat, spam: bool): nat
    requires m <= |e|
  {
    Count(e[..m], Labelled(spam))
  }

  lemma TallyStep(e: seq<Row>, m: nat, spam: bool)
    requires m < |e|
    ensures Tally(e, m + 1, spam) == Tally(e, m, spam) + if e[m].spam == spam then 1 else 0
  {
    assert e[..m + 1][..m] == e[..m];
  }

  lemma {:induction false} TallyRises(e: seq<Row>, m: nat, n: nat, spam: bool)
    requires m <= n <= |e|
    ensures Tally(e, m, spam) <= Tally(e, n, spam)
    decreases n
  {
    if m < n {
      TallyRises(e, m, n - 1, spam);
      TallyStep(e, n - 1, spam);
    }
  }

  /** The logit after position m - 1, or four gaps below the last one. */
  function NextLogit(e: seq<Row>, m: nat, gap: real): real
    requires 0 < m <= |e|
  {
    if m < |e| then e[m].logit else e[m - 1].logit - 4.0 * gap
  }

  /** The loop may place a cutoff after the first m rows. */
  ghost predicate Candidate(e: seq<Row>, m: nat, gap: real, budget: nat) {
    0 < m <= |e| && Tally(e, m, false) <= budget && e[m - 1].logit - NextLogit(e, m, gap) > 2.0 * gap
  }

  /** A well-clear cutoff within the budget is one of the candidates, or predicts nothing. */
  lemma ClearCutIsCandidate(e: seq<Row>, m: nat, gap: real, budget: nat, c: real)
    requires Falling(e) && gap > 0.0 && Cuts(e, m, c) && WellClear(e, c, gap) && Tally(e, m, false) <= budget
    ensures m == 0 || Candidate(e, m, gap, budget)
  {
    if m > 0 {
      assert e[m - 1] in e;
      assert e[m - 1].logit - c > gap;
      if m < |e| {
        assert e[m] in e;
        assert c - e[m].logit > gap;
      }
    }
  }

  // ---------------------------------------------------------------- the search

  /** best holds a cutoff with the recorded counts, clear of every ranked logit. */
  ghost predicate Sound(e: seq<Row>, gap: real, budget: nat, best: real, tp: nat, fp: nat) {
    Clear(e, best, gap) && Parts(e, best, 2.0 * gap) && fp <= budget
    && Count(e, Flagged(true, best)) == tp && Count(e, Flagged(false, best)) == fp
  }

  /** Above everything, half way between two ranked neighbours, or two gaps below the last. */
  ghost predicate Spot(e: seq<Row>, gap: real, top: real, best: real) {
    || best == top + gap
    || (exists i :: 0 <= i < |e| - 1 && best == (e[i].logit + e[i + 1].logit) / 2.0)
    || (e != [] && best == e[|e| - 1].logit - 2.0 * gap)
  }

  lemma MidpointIsSpot(e: seq<Row>, gap: real, top: real, i: nat)
    requires i < |e|
    ensures Spot(e, gap, top, Midpoint(e, gap, i))
  {
    if i + 1 < |e| {
      assert Midpoint(e, gap, i) == (e[i].logit + e[i + 1].logit) / 2.0;
    }
  }

  /** None of the first n candidates beats the recorded counts. */
  ghost predicate Unbeaten(e: seq<Row>, gap: real, budget: nat, n: nat, tp: nat, fp: nat) {
    && !KeyLess(tp, fp, 0, 0)
    && forall m: nat :: m <= n && Candidate(e, m, gap, budget) ==> !KeyLess(tp, fp, Tally(e, m, true), Tally(e, m, false))
  }

  lemma BudgetSpent(e: seq<Row>, gap: real, budget: nat, n: nat, tp: nat, fp: nat)
    requires n < |e| && Unbeaten(e, gap, budget, n, tp, fp) && Tally(e, n + 1, false) > budget
    ensures Unbeaten(e, gap, budget, |e|, tp, fp)
  {
    forall m: nat | n < m <= |e| ensures !Candidate(e, m, gap, budget) {
      TallyRises(e, n + 1, m, false);
    }
  }

  lemma Placed(e: seq<Row>, gap: real, budget: nat, m: nat, best: real)
    requires Falling(e) && gap > 0.0 && Candidate(e, m, gap, budget)
    requires best == NextLogit(e, m, gap) / 2.0 + e[m - 1].logit / 2.0
    ensures Sound(e, gap, budget, best, Tally(e, m, true), Tally(e, m, false))
  {
    CutCounts(e, m, best, true);
    CutCounts(e, m, best, false);
    GapParts(e, m, gap, best);
  }

  /** What lies on different sides of a cut lies around its gap. */
  lemma GapParts(e: seq<Row>, m: nat, gap: real, c: real)
    requires Falling(e) && 0 < m <= |e| && Cuts(e, m, c) && e[m - 1].logit - NextLogit(e, m, gap) > 2.0 * gap
    ensures Parts(e, c, 2.0 * gap)
  {
    forall a, b | a in e && b in e && a.logit >= c > b.logit ensures a.logit - b.logit > 2.0 * gap {
      var i :| 0 <= i < |e| && e[i] == a;
      var j :| 0 <= j < |e| && e[j] == b;
      assert i < m <= j;
    }
  }

  lemma Above(e: seq<Row>, gap: real, budget: nat, top: real)
    requires Falling(e) && gap > 0.0 && forall r :: r in e ==> r.logit <= top
    ensures Sound(e, gap, budget, top + gap, 0, 0) && Unbeaten(e, gap, budget, 0, 0, 0)
  {
    CutCounts(e, 0, top + gap, true);
    CutCounts(e, 0, top + gap, false);
    assert e[..0] == [];
  }

  /** A position that offers nothing better leaves the record unbeaten. */
  lemma Kept(e: seq<Row>, gap: real, budget: nat, n: nat, tp: nat, fp: nat)
    requires Unbeaten(e, gap, budget, n, tp, fp) && n < |e|
    requires Candidate(e, n + 1, gap, budget) ==> !KeyLess(tp, fp, Tally(e, n + 1, true), Tally(e, n + 1, false))
    ensures Unbeaten(e, gap, budget, n + 1, tp, fp)
  {
  }

  /** A better record stays ahead of everything before it. */
  lemma Raised(e: seq<Row>, gap: real, budget: nat, n: nat, tp: nat, fp: nat)
    requires Unbeaten(e, gap, budget, n, tp, fp) && n < |e|
    requires KeyLess(tp, fp, Tally(e, n + 1, true), Tally(e, n + 1, false))
    ensures Unbeaten(e, gap, budget, n + 1, Tally(e, n + 1, true), Tally(e, n + 1, false))
  {
  }

  /** Whether the loop moves its cutoff behind row i: separated enough, and better than the record. */
  predicate Moves(e: seq<Row>, gap: real, i: nat, kTp: nat, kFp: nat, tp: nat, fp: nat)
    requires i < |e|
  {
    e[i].logit - NextLogit(e, i + 1, gap) > 2.0 * gap && KeyLess(kTp, kFp, tp, fp)
  }

  /** The cutoff half way down to the next logit. */
  function Midpoint(e: seq<Row>, gap: real, i: nat): real
    requires i < |e|
  {
    NextLogit(e, i + 1, gap) / 2.0 + e[i].logit / 2.0
  }

  /** Moving when the loop does keeps the record sound and unbeaten. */
  lemma Decided(e: seq<Row>, gap: real, budget: nat, i: nat, kTp: nat, kFp: nat, tp: nat, fp: nat)
    requires Falling(e) && gap > 0.0 && i < |e| && Unbeaten(e, gap, budget, i, kTp, kFp)
    requires tp == Tally(e, i + 1, true) && fp == Tally(e, i + 1, false) && fp <= budget
    ensures if Moves(e, gap, i, kTp, kFp, tp, fp)
            then Sound(e, gap, budget, Midpoint(e, gap, i), tp, fp) && Unbeaten(e, gap, budget, i + 1, tp, fp)
            else Unbeaten(e, gap, budget, i + 1, kTp, kFp)
  {
    if Moves(e, gap, i, kTp, kFp, tp, fp) {
      Raised(e, gap, budget, i, kTp, kFp);
      Placed(e, gap, budget, i + 1, Midpoint(e, gap, i));
    } else {
      Kept(e, gap, budget, i, kTp, kFp);
    }
  }

  /** The loop over the ranked rows. */
  method Search(e: seq<Row>, gap: real, budget: nat, top: real) returns (best: real, kTp: nat, kFp: nat)
    requires Falling(e) && gap > 0.0 && forall r :: r in e ==> r.logit <= top
    ensures Sound(e, gap, budget, best, kTp, kFp) && Unbeaten(e, gap, budget, |e|, kTp, kFp)
    ensures Spot(e, gap, top, best)
  {
    best, kTp, kFp := top + gap, 0, 0;
    var tp, fp := 0, 0;
    Above(e, gap, budget, top);
    for i := 0 to |e|
      invariant tp == Tally(e, i, true) && fp == Tally(e, i, false)
      invariant Sound(e, gap, budget, best, kTp, kFp) && Unbeaten(e, gap, budget, i, kTp, kFp)
      invariant Spot(e, gap, top, best)
    {
      TallyStep(e, i, true);
      TallyStep(e, i, false);
      tp := tp + if e[i].spam then 1 else 0;
      fp := fp + if e[i].spam then 0 else 1;
      if fp > budget {
        BudgetSpent(e, gap, budget, i, kTp, kFp);
        return;
      }
      Decided(e, gap, budget, i, kTp, kFp, tp, fp);
      if Moves(e, gap, i, kTp, kFp, tp, fp) {
        best, kTp, kFp := Midpoint(e, gap, i), tp, fp;
        MidpointIsSpot(e, gap, top, i);
      }
    }
  }

  // ---------------------------------------------------------------- theorem

  /**
   A chosen cutoff stays within the false-positive budget, keeps its distance from every eligible
   logit, and no well-clear cutoff within the budget finds more spam, or as much with fewer errors.
   */
  ghost predicate Optimal(lot: seq<Row>, c: real) {
    && Affordable(lot, FalsePositives(lot, c))
    && Clear(lot, c, Gap(lot))
    && forall other: real {:trigger FalsePositives(lot, other)} ::
         WellClear(lot, other, Gap(lot)) && Affordable(lot, FalsePositives(lot, other))
         ==> TruePositives(lot, other) <= TruePositives(lot, c)
             && (TruePositives(lot, other) == TruePositives(lot, c) ==> FalsePositives(lot, c) <= FalsePositives(lot, other))
  }

  /** Eligible rows at most two gaps apart are predicted alike. */
  ghost predicate TiesStayTogether(lot: seq<Row>, c: real) {
    forall a, b :: a in lot && b in lot && a.eligible && b.eligible && Abs(a.logit - b.logit) <= 2.0 * Gap(lot)
                   ==> (a.logit >= c <==> b.logit >= c)
  }

  lemma SearchIsOptimal(lot: seq<Row>, c: real, tp: nat, fp: nat)
    requires Sound(Ranked(lot), Gap(lot), Budget(lot), c, tp, fp)
    requires Unbeaten(Ranked(lot), Gap(lot), Budget(lot), |Ranked(lot)|, tp, fp)
    ensures Optimal(lot, c) && TiesStayTogether(lot, c)
  {
    var e, gap, budget := Ranked(lot), Gap(lot), Budget(lot);
    RankedFalls(lot);
    RankedCounts(lot, true, c);
    RankedCounts(lot, false, c);
    forall other: real | WellClear(lot, other, gap) && Affordable(lot, FalsePositives(lot, other))
      ensures !KeyLess(tp, fp, TruePositives(lot, other), FalsePositives(lot, other))
    {
      RankedCounts(lot, true, other);
      RankedCounts(lot, false, other);
      var m := SomeCut(e, other);
      CutCounts(e, m, other, true);
      CutCounts(e, m, other, false);
      ClearCutIsCandidate(e, m, gap, budget, other);
      assert m == 0 ==> Tally(e, m, true) == 0 == Tally(e, m, false);
    }
  }

  /** Fails exactly when one of the two classes is missing. */
  method ChooseCutoff(lot: seq<Row>) returns (r: Option<real>)
    ensures r.Some? <==> (exists x :: x in lot && x.spam) && (exists x :: x in lot && !x.spam)
    ensures r.Some? ==> Optimal(lot, r.value) && TiesStayTogether(lot, r.value)
    ensures r.Some? ==> lot != [] && Spot(Ranked(lot), Gap(lot), Peak(lot), r.value)
  {
    assert forall k :: 0 <= k < |lot| ==> lot[k] in lot;
    if !Usable(lot) {
      return None;
    }
    RankedFalls(lot);
    var best, tp, fp := Search(Ranked(lot), Gap(lot), Budget(lot), Peak(lot));
    SearchIsOptimal(lot, best, tp, fp);
    r := Some(best);
  }
}

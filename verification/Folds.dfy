/**
 Chronological folds of quality campaigns: a campaign enters a fold only when all its
 members fall in one period, and then through a single labelled representative.
 */
module Folds {
  import opened CampaignGraph
  import opened Campaigns
  import opened Selection
  import opened Options
  import opened Orders

  const FOLDS: nat := 5

  /** A missing or uncertain target is None. */
  datatype Observation = Observation(id: nat, observed: int, target: Option<string>, row: Row)

  function Provenance(rows: seq<Observation>): seq<Row> { Image(rows, (o: Observation) => o.row) }

  // ---------------------------------------------------------------- periods

  /** The number of cuts at or before a time. */
  function Period(time: int, cuts: seq<int>): (p: nat)
    ensures p <= |cuts|
  {
    if cuts == [] then 0
    else Period(time, cuts[..|cuts| - 1]) + if time >= cuts[|cuts| - 1] then 1 else 0
  }

  /** A later period means a strictly later time. */
  lemma {:induction false} PeriodsAreOrdered(s: int, t: int, cuts: seq<int>)
    ensures s <= t ==> Period(s, cuts) <= Period(t, cuts)
    ensures Period(s, cuts) < Period(t, cuts) ==> s < t
    decreases |cuts|
  {
    if cuts != [] {
      PeriodsAreOrdered(s, t, cuts[..|cuts| - 1]);
      PeriodsAreOrdered(t, s, cuts[..|cuts| - 1]);
    }
  }

  function TimeLe(): (int, int) -> bool { (a: int, b: int) => a <= b }

  function Times(rows: seq<Observation>): (s: seq<int>)
    ensures |s| == |rows| && forall i :: 0 <= i < |s| ==> s[i] == rows[i].observed
  {
    seq(|rows|, i requires 0 <= i < |rows| => rows[i].observed)
  }

  /** Truncated position of a percentile, kept inside the list. */
  function Percentile(n: nat, hundredths: nat): (k: nat)
    requires n > 0
    ensures k < n
  {
    var k := n * hundredths / 100;
    if k < n then k else n - 1
  }

  /** Cuts at 50, 65, 80 and 90 percent, or none when the sample is small or times repeat. */
  function ChronologicalCuts(rows: seq<Observation>): (cuts: seq<int>)
    ensures |cuts| == 0 || |cuts| == FOLDS - 1
  {
    if |rows| < 20 then []
    else
      var n, times := |rows|, Sort(Times(rows), TimeLe());
      var a, b, c, d := times[Percentile(n, 50)], times[Percentile(n, 65)], times[Percentile(n, 80)], times[Percentile(n, 90)];
      if a != b && a != c && a != d && b != c && b != d && c != d then [a, b, c, d] else []
  }

  /** The cuts are strictly increasing, and never depend on labels or provenance. */
  lemma CutsIncrease(rows: seq<Observation>)
    ensures forall i, j :: 0 <= i < j < |ChronologicalCuts(rows)| ==>
              ChronologicalCuts(rows)[i] < ChronologicalCuts(rows)[j]
  {
    if |rows| >= 20 {
      SortSorted(Times(rows), TimeLe());
      var times, n := Sort(Times(rows), TimeLe()), |rows|;
      assert Percentile(n, 50) <= Percentile(n, 65) <= Percentile(n, 80) <= Percentile(n, 90);
      var p, q, r, t := Percentile(n, 50), Percentile(n, 65), Percentile(n, 80), Percentile(n, 90);
      assert times[p] != times[q] ==> TimeLe()(times[p], times[q]);
      assert times[q] != times[r] ==> TimeLe()(times[q], times[r]);
      assert times[r] != times[t] ==> TimeLe()(times[r], times[t]);
    }
  }

  function Before(t: int): int -> bool { (x: int) => x < t }

  function NotAfter(t: int): int -> bool { (x: int) => x <= t }

  /** The element at a sorted position has at most that many smaller ones and more not larger ones. */
  lemma RankOfElement(times: seq<int>, k: nat)
    requires k < |times|
    ensures var cut := Sort(times, TimeLe())[k];
            Count(times, Before(cut)) <= k < Count(times, NotAfter(cut))
  {
    var s := Sort(times, TimeLe());
    SortSorted(times, TimeLe());
    SortMultiset(times, TimeLe());
    CountForgetsOrder(times, s, Before(s[k]));
    CountForgetsOrder(times, s, NotAfter(s[k]));
    CountByRank(s, TimeLe(), Before(s[k]), k);
    CountByRank(s, TimeLe(), NotAfter(s[k]), k);
  }

  /** A time with at most k earlier and more than k not later observations: the element at position k. */
  ghost predicate Quantile(rows: seq<Observation>, k: nat, cut: int) {
    Count(Times(rows), Before(cut)) <= k < Count(Times(rows), NotAfter(cut))
  }

  /** Observations up to a later time include those up to an earlier one. */
  lemma {:induction false} CountsGrow(s: seq<int>, a: int, b: int)
    requires a < b
    ensures Count(s, NotAfter(a)) <= Count(s, Before(b))
  {
    if s != [] {
      CountsGrow(s[..|s| - 1], a, b);
    }
  }

  lemma QuantileIsUnique(rows: seq<Observation>, k: nat, a: int, b: int)
    requires Quantile(rows, k, a) && Quantile(rows, k, b)
    ensures a == b
  {
    if a < b {
      CountsGrow(Times(rows), a, b);
    } else if b < a {
      CountsGrow(Times(rows), b, a);
    }
  }

  lemma PercentileMeans(n: nat, hundredths: nat)
    requires n > 0 && hundredths < 100
    ensures Percentile(n, hundredths) == n * hundredths / 100 < n
  {
  }

  lemma SortedTimesRise(times: seq<int>, i: nat, j: nat)
    requires i <= j < |times|
    ensures Sort(times, TimeLe())[i] <= Sort(times, TimeLe())[j]
  {
    SortSorted(times, TimeLe());
    var s := Sort(times, TimeLe());
    if i < j {
      assert TimeLe()(s[i], s[j]);
    }
  }

  lemma PercentileIsQuantile(rows: seq<Observation>, hundredths: nat)
    requires rows != [] && hundredths < 100
    ensures Quantile(rows, |rows| * hundredths / 100, Sort(Times(rows), TimeLe())[Percentile(|rows|, hundredths)])
  {
    PercentileMeans(|rows|, hundredths);
    RankOfElement(Times(rows), Percentile(|rows|, hundredths));
  }

  lemma PercentilesRise(rows: seq<Observation>, a: nat, b: nat)
    requires rows != [] && a <= b < 100
    ensures var times, n := Sort(Times(rows), TimeLe()), |rows|;
            times[Percentile(n, a)] <= times[Percentile(n, b)]
  {
    PercentileMeans(|rows|, a);
    PercentileMeans(|rows|, b);
    assert |rows| * a <= |rows| * b;
    SortedTimesRise(Times(rows), Percentile(|rows|, a), Percentile(|rows|, b));
  }

  /**
   The cuts are the quantiles at 50, 65, 80 and 90 percent of all observation times; there are
   none when two of the quantiles coincide.
   */
  lemma CutsAreQuantiles(rows: seq<Observation>) returns (a: int, b: int, c: int, d: int)
    requires |rows| >= 20
    ensures Quantile(rows, |rows| * 50 / 100, a) && Quantile(rows, |rows| * 65 / 100, b)
    ensures Quantile(rows, |rows| * 80 / 100, c) && Quantile(rows, |rows| * 90 / 100, d)
    ensures ChronologicalCuts(rows) == if a < b < c < d then [a, b, c, d] else []
  {
    var n, times := |rows|, Sort(Times(rows), TimeLe());
    a, b, c, d := times[Percentile(n, 50)], times[Percentile(n, 65)], times[Percentile(n, 80)], times[Percentile(n, 90)];
    PercentileIsQuantile(rows, 50);
    PercentileIsQuantile(rows, 65);
    PercentileIsQuantile(rows, 80);
    PercentileIsQuantile(rows, 90);
    PercentilesRise(rows, 50, 65);
    PercentilesRise(rows, 65, 80);
    PercentilesRise(rows, 80, 90);
  }

  lemma FewRowsHaveNoCuts(rows: seq<Observation>)
    requires |rows| < 20
    ensures ChronologicalCuts(rows) == []
  {
  }

  /** With increasing cuts, a time lies in a period above i exactly when it reaches cut i. */
  lemma {:induction false} PeriodMeans(time: int, cuts: seq<int>, i: nat)
    requires i < |cuts| && forall a, b :: 0 <= a < b < |cuts| ==> cuts[a] < cuts[b]
    ensures Period(time, cuts) > i <==> time >= cuts[i]
    decreases |cuts|
  {
    var n := |cuts| - 1;
    if i < n {
      PeriodMeans(time, cuts[..n], i);
    }
    if n > 0 && time >= cuts[n] {
      PeriodMeans(time, cuts[..n], n - 1);
    }
  }

  // ---------------------------------------------------------------- one group

  function PeriodOf(rows: seq<Observation>, cuts: seq<int>, i: nat): nat
    requires i < |rows|
  {
    Period(rows[i].observed, cuts)
  }

  predicate OnePeriod(rows: seq<Observation>, cuts: seq<int>, group: seq<nat>)
    requires Within(|rows|, group)
  {
    forall i, j :: i in group && j in group ==> PeriodOf(rows, cuts, i) == PeriodOf(rows, cuts, j)
  }

  function Labelled(rows: seq<Observation>): nat -> bool { (i: nat) => i < |rows| && rows[i].target.Some? }

  predicate OneLabel(rows: seq<Observation>, group: seq<nat>)
    requires Within(|rows|, group)
  {
    forall i, j :: i in group && j in group && rows[i].target.Some? && rows[j].target.Some? ==>
      rows[i].target == rows[j].target
  }

  predicate HasLabel(rows: seq<Observation>, group: seq<nat>)
    requires Within(|rows|, group)
  {
    exists i :: i in group && rows[i].target.Some?
  }

  function IdOf(rows: seq<Observation>): nat -> int { (i: nat) => if i < |rows| then rows[i].id else 0 }

  datatype Pick = Pick(fold: nat, rep: nat)

  datatype Case = CrossPeriod | Conflicting | Pending(fold: nat) | Chosen(pick: Pick, size: nat)

  function Inspect(rows: seq<Observation>, cuts: seq<int>, group: seq<nat>): Case
    requires Within(|rows|, group)
  {
    if !OnePeriod(rows, cuts, group) then CrossPeriod
    else if !OneLabel(rows, group) then Conflicting
    else
      var labelled := Keep(group, Labelled(rows));
      assert group[0] in group;
      var fold := PeriodOf(rows, cuts, group[0]);
      if labelled == [] then Pending(fold) else Chosen(Pick(fold, Least(labelled, IdOf(rows))), |group|)
  }

  // ---------------------------------------------------------------- meaning

  /** The component of i lies in one period and carries exactly one label. */
  ghost predicate Eligible(rows: seq<Observation>, all: seq<Row>, cuts: seq<int>, i: nat)
    requires |rows| == |all| && i < |rows|
  {
    && (forall j: nat {:trigger Connected(all, i, j)} :: j < |rows| && Connected(all, i, j) ==>
          PeriodOf(rows, cuts, j) == PeriodOf(rows, cuts, i))
    && (exists j: nat :: j < |rows| && Connected(all, i, j) && rows[j].target.Some?)
    && (forall j: nat, k: nat {:trigger Connected(all, i, j), Connected(all, i, k)} ::
          (j < |rows| && k < |rows| && Connected(all, i, j) && Connected(all, i, k)
           && rows[j].target.Some? && rows[k].target.Some?) ==> rows[j].target == rows[k].target)
  }

  /** The representative is labelled, sits in its fold's period and has the least labelled id. */
  ghost predicate GoodPick(rows: seq<Observation>, all: seq<Row>, cuts: seq<int>, p: Pick) {
    && |rows| == |all| && p.rep < |rows| && rows[p.rep].target.Some? && Eligible(rows, all, cuts, p.rep)
    && p.fold == PeriodOf(rows, cuts, p.rep)
    && forall j: nat {:trigger Connected(all, p.rep, j)} ::
         j < |rows| && Connected(all, p.rep, j) && rows[j].target.Some? ==> rows[p.rep].id <= rows[j].id
  }

  ghost predicate PickedFor(all: seq<Row>, picks: multiset<Pick>, i: nat) {
    exists p :: p in picks && Connected(all, p.rep, i)
  }

  /** Exactly the eligible components are selected, once each. */
  ghost predicate Exact(rows: seq<Observation>, all: seq<Row>, cuts: seq<int>, picks: multiset<Pick>) {
    && |rows| == |all|
    && (forall p :: p in picks ==> GoodPick(rows, all, cuts, p))
    && (forall p :: picks[p] <= 1)
    && (forall p, q :: p in picks && q in picks && Connected(all, p.rep, q.rep) ==> p == q)
    && (forall i: nat :: i < |rows| ==> (PickedFor(all, picks, i) <==> Eligible(rows, all, cuts, i)))
  }

  // ---------------------------------------------------------------- proofs

  /** A case seen as a selection verdict. */
  function AsVerdict(c: Case): Verdict<Pick> {
    if c.Chosen? then Kept(c.pick, 1, 1) else Aside(0)
  }

  ghost predicate Judged(rows: seq<Observation>, cuts: seq<int>, groups: seq<seq<nat>>, vs: seq<Verdict<Pick>>) {
    && |vs| == |groups|
    && (forall g :: 0 <= g < |groups| ==> Within(|rows|, groups[g]))
    && forall g {:trigger Inspect(rows, cuts, groups[g])} ::
         0 <= g < |vs| ==> vs[g] == AsVerdict(Inspect(rows, cuts, groups[g]))
  }

  lemma ComponentOf(all: seq<Row>, groups: seq<seq<nat>>, g: nat, x: nat)
    requires Components(all, groups) && InGroup(groups, g, x)
    ensures forall i: nat {:trigger Connected(all, x, i)} :: Connected(all, x, i) <==> InGroup(groups, g, i)
  {
    forall i: nat ensures Connected(all, x, i) <==> InGroup(groups, g, i) {
      MemberIsConnected(all, groups, g, x, i);
    }
  }

  /** Eligibility read off the listed group. */
  lemma EligibleByGroup(rows: seq<Observation>, all: seq<Row>, cuts: seq<int>, groups: seq<seq<nat>>, g: nat, i: nat)
    requires Components(all, groups) && |rows| == |all| && InGroup(groups, g, i) && Within(|rows|, groups[g])
    ensures Eligible(rows, all, cuts, i) <==>
              OnePeriod(rows, cuts, groups[g]) && OneLabel(rows, groups[g]) && HasLabel(rows, groups[g])
  {
    ComponentOf(all, groups, g, i);
    forall j: nat ensures j in groups[g] <==> Connected(all, i, j) {
      assert InGroup(groups, g, j) <==> j in groups[g];
    }
    if Eligible(rows, all, cuts, i) {
      assert forall j: nat :: j in groups[g] ==> Connected(all, i, j) && PeriodOf(rows, cuts, j) == PeriodOf(rows, cuts, i);
    }
  }

  lemma ChosenIsEligible(rows: seq<Observation>, cuts: seq<int>, group: seq<nat>)
    requires Within(|rows|, group)
    ensures Inspect(rows, cuts, group).Chosen? <==>
              OnePeriod(rows, cuts, group) && OneLabel(rows, group) && HasLabel(rows, group)
    ensures Inspect(rows, cuts, group).Chosen? ==>
              var p := Inspect(rows, cuts, group).pick;
              && p.rep in group && rows[p.rep].target.Some? && p.fold == PeriodOf(rows, cuts, p.rep)
              && forall j: nat :: j in group && rows[j].target.Some? ==> rows[p.rep].id <= rows[j].id
  {
    var labelled := Keep(group, Labelled(rows));
    assert labelled != [] ==> labelled[0] in labelled;
    if HasLabel(rows, group) {
      var i: nat :| i in group && rows[i].target.Some?;
      assert i in labelled;
    }
    if labelled != [] {
      var m := Least(labelled, IdOf(rows));
      assert m in labelled && group[0] in group;
      forall j: nat | j in group && rows[j].target.Some? ensures rows[m].id <= rows[j].id {
        assert j in labelled;
      }
    }
  }

  lemma PickOfGroup(rows: seq<Observation>, all: seq<Row>, cuts: seq<int>, groups: seq<seq<nat>>, g: nat)
    requires Components(all, groups) && |rows| == |all| && g < |groups| && Within(|rows|, groups[g])
    requires Inspect(rows, cuts, groups[g]).Chosen?
    ensures var p := Inspect(rows, cuts, groups[g]).pick; GoodPick(rows, all, cuts, p) && InGroup(groups, g, p.rep)
  {
    var p := Inspect(rows, cuts, groups[g]).pick;
    ChosenIsEligible(rows, cuts, groups[g]);
    assert InGroup(groups, g, p.rep);
    EligibleByGroup(rows, all, cuts, groups, g, p.rep);
    ComponentOf(all, groups, g, p.rep);
  }

  lemma OwnerIsGood(rows: seq<Observation>, all: seq<Row>, cuts: seq<int>, groups: seq<seq<nat>>, vs: seq<Verdict<Pick>>, a: nat)
    requires Components(all, groups) && |rows| == |all| && Judged(rows, cuts, groups, vs)
    requires a < |Accounted(vs, |vs|).selected|
    ensures |Owners(vs, |vs|)| == |Accounted(vs, |vs|).selected|
    ensures var p := Accounted(vs, |vs|).selected[a];
            GoodPick(rows, all, cuts, p) && InGroup(groups, Owners(vs, |vs|)[a], p.rep)
  {
    OwnersMatch(vs, |vs|);
    var g := Owners(vs, |vs|)[a];
    assert vs[g] == AsVerdict(Inspect(rows, cuts, groups[g]));
    PickOfGroup(rows, all, cuts, groups, g);
  }

  function Rep(): Pick -> nat { (p: Pick) => p.rep }

  lemma PicksRepresent(rows: seq<Observation>, all: seq<Row>, cuts: seq<int>, groups: seq<seq<nat>>, vs: seq<Verdict<Pick>>)
    requires Components(all, groups) && |rows| == |all| && Judged(rows, cuts, groups, vs)
    ensures Represents(groups, vs, Rep())
  {
    forall g: nat | g < |vs| && vs[g].Kept? ensures InGroup(groups, g, vs[g].best.rep) {
      assert vs[g] == AsVerdict(Inspect(rows, cuts, groups[g]));
      PickOfGroup(rows, all, cuts, groups, g);
    }
  }

  lemma PickedIsGood(rows: seq<Observation>, all: seq<Row>, cuts: seq<int>, groups: seq<seq<nat>>, vs: seq<Verdict<Pick>>, p: Pick)
    requires Components(all, groups) && |rows| == |all| && Judged(rows, cuts, groups, vs)
    requires p in multiset(Accounted(vs, |vs|).selected)
    ensures GoodPick(rows, all, cuts, p)
  {
    var a: nat :| a < |Accounted(vs, |vs|).selected| && Accounted(vs, |vs|).selected[a] == p;
    OwnerIsGood(rows, all, cuts, groups, vs, a);
  }

  lemma EligibleGetsPicked(rows: seq<Observation>, all: seq<Row>, cuts: seq<int>, groups: seq<seq<nat>>, vs: seq<Verdict<Pick>>,
                           g: nat, i: nat)
    requires Components(all, groups) && |rows| == |all| && Judged(rows, cuts, groups, vs)
    requires i < |rows| && InGroup(groups, g, i) && Eligible(rows, all, cuts, i)
    ensures PickedFor(all, multiset(Accounted(vs, |vs|).selected), i)
  {
    var selected := Accounted(vs, |vs|).selected;
    EligibleByGroup(rows, all, cuts, groups, g, i);
    ChosenIsEligible(rows, cuts, groups[g]);
    assert vs[g] == AsVerdict(Inspect(rows, cuts, groups[g]));
    var a := KeptPosition(vs, g);
    OwnerIsGood(rows, all, cuts, groups, vs, a);
    assert selected[a] in multiset(selected);
    assert Connected(all, selected[a].rep, i);
  }

  lemma PickedIsEligible(rows: seq<Observation>, all: seq<Row>, cuts: seq<int>, groups: seq<seq<nat>>, vs: seq<Verdict<Pick>>,
                         g: nat, i: nat)
    requires Components(all, groups) && |rows| == |all| && Judged(rows, cuts, groups, vs)
    requires i < |rows| && InGroup(groups, g, i) && PickedFor(all, multiset(Accounted(vs, |vs|).selected), i)
    ensures Eligible(rows, all, cuts, i)
  {
    var selected := Accounted(vs, |vs|).selected;
    var p: Pick :| p in multiset(selected) && Connected(all, p.rep, i);
    var a: nat :| a < |selected| && selected[a] == p;
    OwnerIsGood(rows, all, cuts, groups, vs, a);
    assert Owners(vs, |vs|)[a] == g;
    EligibleByGroup(rows, all, cuts, groups, g, p.rep);
    EligibleByGroup(rows, all, cuts, groups, g, i);
  }

  lemma EligibleIsPicked(rows: seq<Observation>, all: seq<Row>, cuts: seq<int>, groups: seq<seq<nat>>, vs: seq<Verdict<Pick>>, i: nat)
    requires Components(all, groups) && |rows| == |all| && Judged(rows, cuts, groups, vs) && i < |rows|
    ensures PickedFor(all, multiset(Accounted(vs, |vs|).selected), i) <==> Eligible(rows, all, cuts, i)
  {
    assert Listed(groups, i);
    var g: nat :| InGroup(groups, g, i);
    if Eligible(rows, all, cuts, i) {
      EligibleGetsPicked(rows, all, cuts, groups, vs, g, i);
    }
    if PickedFor(all, multiset(Accounted(vs, |vs|).selected), i) {
      PickedIsEligible(rows, all, cuts, groups, vs, g, i);
    }
  }

  lemma PicksAreExact(rows: seq<Observation>, all: seq<Row>, cuts: seq<int>, groups: seq<seq<nat>>, vs: seq<Verdict<Pick>>)
    requires Components(all, groups) && |rows| == |all| && Judged(rows, cuts, groups, vs)
    ensures Exact(rows, all, cuts, multiset(Accounted(vs, |vs|).selected))
  {
    var picks := multiset(Accounted(vs, |vs|).selected);
    PicksRepresent(rows, all, cuts, groups, vs);
    SelectionIsOnce(all, groups, vs, Rep());
    forall p | p in picks ensures GoodPick(rows, all, cuts, p) {
      PickedIsGood(rows, all, cuts, groups, vs, p);
    }
    forall p, q | p in picks && q in picks && Connected(all, p.rep, q.rep) ensures p == q {
      SelectionIsSeparate(all, groups, vs, Rep(), p, q);
    }
    forall i: nat | i < |rows| ensures PickedFor(all, picks, i) <==> Eligible(rows, all, cuts, i) {
      EligibleIsPicked(rows, all, cuts, groups, vs, i);
    }
  }

  // ---------------------------------------------------------------- algorithm

  /** The representatives of one fold, in selection order. */
  function FoldList(picks: seq<Pick>, fold: nat): seq<nat> {
    if picks == [] then []
    else
      FoldList(picks[..|picks| - 1], fold)
      + if picks[|picks| - 1].fold == fold then [picks[|picks| - 1].rep] else []
  }

  /** How many of the first k groups satisfy a test. */
  function CountGroups(groups: seq<seq<nat>>, k: nat, test: seq<nat> -> bool): nat
    requires k <= |groups|
  {
    if k == 0 then 0 else CountGroups(groups, k - 1, test) + if test(groups[k - 1]) then 1 else 0
  }

  function IsCross(rows: seq<Observation>, cuts: seq<int>): seq<nat> -> bool {
    (g: seq<nat>) => Within(|rows|, g) && !OnePeriod(rows, cuts, g)
  }

  function IsConflicting(rows: seq<Observation>, cuts: seq<int>): seq<nat> -> bool {
    (g: seq<nat>) => Within(|rows|, g) && OnePeriod(rows, cuts, g) && !OneLabel(rows, g)
  }

  function IsPending(rows: seq<Observation>, cuts: seq<int>): seq<nat> -> bool {
    (g: seq<nat>) => Within(|rows|, g) && OnePeriod(rows, cuts, g) && !HasLabel(rows, g)
  }

  function IsPendingIn(rows: seq<Observation>, cuts: seq<int>, fold: nat): seq<nat> -> bool {
    (g: seq<nat>) => IsPending(rows, cuts)(g) && Within(|rows|, g) && g[0] in g && PeriodOf(rows, cuts, g[0]) == fold
  }

  function IsChosen(rows: seq<Observation>, cuts: seq<int>): seq<nat> -> bool {
    (g: seq<nat>) => Within(|rows|, g) && OnePeriod(rows, cuts, g) && OneLabel(rows, g) && HasLabel(rows, g)
  }

  /** The members dropped beside the representatives of the first k groups. */
  function Dropped(groups: seq<seq<nat>>, k: nat, test: seq<nat> -> bool): int
    requires k <= |groups|
  {
    if k == 0 then 0 else Dropped(groups, k - 1, test) + if test(groups[k - 1]) then |groups[k - 1]| - 1 else 0
  }

  /** The case tells which counting test a group satisfies, with a fold in range. */
  ghost predicate Means(rows: seq<Observation>, cuts: seq<int>, group: seq<nat>, c: Case) {
    && (c.CrossPeriod? <==> IsCross(rows, cuts)(group))
    && (c.Conflicting? <==> IsConflicting(rows, cuts)(group))
    && (c.Pending? <==> IsPending(rows, cuts)(group))
    && (forall f :: c == Pending(f) <==> IsPendingIn(rows, cuts, f)(group))
    && (c.Pending? ==> c.fold < FOLDS)
    && (c.Chosen? <==> IsChosen(rows, cuts)(group))
    && (c.Chosen? ==> c.pick.fold < FOLDS && c.size == |group| > 0)
  }

  lemma CaseMeaning(rows: seq<Observation>, cuts: seq<int>, group: seq<nat>)
    requires Within(|rows|, group) && |cuts| == FOLDS - 1
    ensures Means(rows, cuts, group, Inspect(rows, cuts, group))
  {
    ChosenIsEligible(rows, cuts, group);
  }

  datatype Ledger = Ledger(folds: seq<seq<nat>>, cross: nat, conflicting: nat, unlabelled: nat,
                                 pending: seq<nat>, duplicates: nat)

  datatype Outcome = Failed | Insufficient(rows: nat) | Done(ledger: Ledger)

  function Empty(): Ledger {
    Ledger([[], [], [], [], []], 0, 0, 0, [0, 0, 0, 0, 0], 0)
  }

  /** One turn of the loop over components. */
  function Enter(c: Case, v: Ledger): Ledger {
    match c
    case CrossPeriod => v.(cross := v.cross + 1)
    case Conflicting => v.(conflicting := v.conflicting + 1)
    case Pending(f) =>
      v.(unlabelled := v.unlabelled + 1,
         pending := if f < |v.pending| then v.pending[f := v.pending[f] + 1] else v.pending)
    case Chosen(p, size) =>
      v.(folds := if p.fold < |v.folds| then v.folds[p.fold := v.folds[p.fold] + [p.rep]] else v.folds,
         duplicates := if size > 0 then v.duplicates + (size - 1) else v.duplicates)
  }

  /** The ledger lists the picks by fold and counts the other groups by kind. */
  ghost predicate Counts(rows: seq<Observation>, cuts: seq<int>, groups: seq<seq<nat>>, k: nat, v: Ledger, picks: seq<Pick>) {
    && k <= |groups| && |v.folds| == FOLDS && |v.pending| == FOLDS
    && (forall f :: 0 <= f < FOLDS ==> v.folds[f] == FoldList(picks, f))
    && v.cross == CountGroups(groups, k, IsCross(rows, cuts))
    && v.conflicting == CountGroups(groups, k, IsConflicting(rows, cuts))
    && v.unlabelled == CountGroups(groups, k, IsPending(rows, cuts))
    && (forall f :: 0 <= f < FOLDS ==> v.pending[f] == CountGroups(groups, k, IsPendingIn(rows, cuts, f)))
    && v.duplicates == Dropped(groups, k, IsChosen(rows, cuts))
    && v.cross + v.conflicting + v.unlabelled + |picks| == k
  }

  lemma FoldListAppend(picks: seq<Pick>, p: Pick, fold: nat)
    ensures FoldList(picks + [p], fold) == FoldList(picks, fold) + if p.fold == fold then [p.rep] else []
  {
    assert (picks + [p])[..|picks|] == picks;
  }

  lemma CountsStep(rows: seq<Observation>, cuts: seq<int>, groups: seq<seq<nat>>, k: nat, v: Ledger, picks: seq<Pick>, c: Case)
    requires Counts(rows, cuts, groups, k, v, picks) && k < |groups| && Means(rows, cuts, groups[k], c)
    ensures Counts(rows, cuts, groups, k + 1, Enter(c, v), if c.Chosen? then picks + [c.pick] else picks)
  {
    if c.Chosen? {
      forall f: nat | f < FOLDS ensures Enter(c, v).folds[f] == FoldList(picks + [c.pick], f) {
        FoldListAppend(picks, c.pick, f);
      }
    }
  }

  ghost function Verdicts(rows: seq<Observation>, cuts: seq<int>, groups: seq<seq<nat>>): (vs: seq<Verdict<Pick>>)
    requires forall g :: 0 <= g < |groups| ==> Within(|rows|, groups[g])
    ensures Judged(rows, cuts, groups, vs)
  {
    seq(|groups|, g requires 0 <= g < |groups| => AsVerdict(Inspect(rows, cuts, groups[g])))
  }

  /** The body of the loop of partition_inventory. */
  method EnterGroup(rows: seq<Observation>, cuts: seq<int>, groups: seq<seq<nat>>, ghost vs: seq<Verdict<Pick>>, k: nat,
                    v: Ledger) returns (v': Ledger)
    requires |cuts| == FOLDS - 1 && Judged(rows, cuts, groups, vs) && k < |groups|
    requires Counts(rows, cuts, groups, k, v, Accounted(vs, k).selected)
    ensures Counts(rows, cuts, groups, k + 1, v', Accounted(vs, k + 1).selected)
  {
    var c := Inspect(rows, cuts, groups[k]);
    CaseMeaning(rows, cuts, groups[k]);
    CountsStep(rows, cuts, groups, k, v, Accounted(vs, k).selected, c);
    v' := Enter(c, v);
  }

  /** The loop of partition_inventory over a component list. */
  method EnterGroups(rows: seq<Observation>, cuts: seq<int>, groups: seq<seq<nat>>, ghost vs: seq<Verdict<Pick>>)
    returns (v: Ledger)
    requires |cuts| == FOLDS - 1 && Judged(rows, cuts, groups, vs)
    ensures Counts(rows, cuts, groups, |groups|, v, Accounted(vs, |vs|).selected)
  {
    v := Empty();
    for k := 0 to |groups|
      invariant Counts(rows, cuts, groups, k, v, Accounted(vs, k).selected)
    {
      v := EnterGroup(rows, cuts, groups, vs, k, v);
    }
  }

  /**
   Partitions the rows at the given cuts. The picks list the selected representatives:
   exactly the eligible components, each once, listed by fold; the other components are
   counted by the reason that kept them out.
   */
  method PartitionInventory(rows: seq<Observation>, cuts: seq<int>)
    returns (r: Outcome, ghost picks: seq<Pick>, ghost groups: seq<seq<nat>>)
    ensures r.Insufficient? <==> |cuts| != FOLDS - 1
    ensures r.Failed? <==> |cuts| == FOLDS - 1
                           && ((exists i :: 0 <= i < |rows| && !Usable(Refused, rows[i].row))
                               || Comparisons(Provenance(rows), |rows|) > BUDGET)
    ensures r.Done? ==> Components(Provenance(rows), groups)
                        && Exact(rows, Provenance(rows), cuts, multiset(picks))
                        && Counts(rows, cuts, groups, |groups|, r.ledger, picks)
  {
    picks, groups := [], [];
    if |cuts| != FOLDS - 1 {
      return Insufficient(|rows|), picks, groups;
    }
    var all := Provenance(rows);
    var grouped := Group(all, Refused);
    if grouped.Err? {
      return Failed, picks, groups;
    }
    groups := grouped.value;
    forall g | 0 <= g < |groups| ensures Within(|rows|, groups[g]) {
      GroupIsWithin(all, groups, g);
    }
    ghost var vs := Verdicts(rows, cuts, groups);
    var v := EnterGroups(rows, cuts, grouped.value, vs);
    PicksAreExact(rows, all, cuts, groups, vs);
    picks := Accounted(vs, |vs|).selected;
    r := Done(v);
  }

  // ---------------------------------------------------------------- theorems

  /** Folds are strictly ordered in time, for every message behind their campaigns. */
  lemma FoldsAreTimeOrdered(rows: seq<Observation>, cuts: seq<int>, picks: multiset<Pick>, p: Pick, q: Pick, i: nat, j: nat)
    requires Exact(rows, Provenance(rows), cuts, picks) && p in picks && q in picks && p.fold < q.fold
    requires Connected(Provenance(rows), p.rep, i) && Connected(Provenance(rows), q.rep, j)
    ensures i < |rows| && j < |rows| && rows[i].observed < rows[j].observed
    ensures !Connected(Provenance(rows), i, j)
  {
    var all := Provenance(rows);
    assert GoodPick(rows, all, cuts, p) && GoodPick(rows, all, cuts, q);
    assert PeriodOf(rows, cuts, i) == p.fold && PeriodOf(rows, cuts, j) == q.fold;
    PeriodsAreOrdered(rows[i].observed, rows[j].observed, cuts);
    if Connected(all, i, j) {
      ConnectedTransitive(all, p.rep, i, j);
      assert false;
    }
  }

  /** Equal times and provenance; ids and labels may differ. */
  ghost predicate SameObservations(a: seq<Observation>, b: seq<Observation>) {
    |a| == |b| && forall i :: 0 <= i < |a| ==> a[i].observed == b[i].observed && a[i].row == b[i].row
  }

  /** Annotating, correcting or removing labels never moves a campaign to another fold. */
  lemma LabelsNeverMoveFolds(a: seq<Observation>, b: seq<Observation>, cuts: seq<int>,
                             ps: multiset<Pick>, qs: multiset<Pick>, p: Pick, q: Pick)
    requires SameObservations(a, b)
    requires Exact(a, Provenance(a), cuts, ps) && Exact(b, Provenance(b), cuts, qs) && p in ps && q in qs
    requires Connected(Provenance(a), p.rep, q.rep)
    ensures p.fold == q.fold && ChronologicalCuts(a) == ChronologicalCuts(b)
  {
    assert Provenance(a) == Provenance(b) && Times(a) == Times(b);
    assert GoodPick(a, Provenance(a), cuts, p) && GoodPick(b, Provenance(b), cuts, q);
    assert PeriodOf(a, cuts, q.rep) == PeriodOf(a, cuts, p.rep);
  }
}

/** Counting over component lists: every row is counted once, in exactly one group. */
module Inventory {
  import opened CampaignGraph
  import opened Orders

  /** The rows below n that satisfy a test. */
  ghost function Total(n: nat, test: nat -> bool): set<nat> {
    set i | i in Range(n) && test(i)
  }

  /** Those of them listed in the first k groups. */
  ghost function Covered(groups: seq<seq<nat>>, k: nat, n: nat, test: nat -> bool): set<nat> {
    set i | i in Range(n) && test(i) && CoveredBy(groups, k, i)
  }

  ghost predicate CoveredBy(groups: seq<seq<nat>>, k: nat, i: nat) {
    exists g: nat :: g < k && InGroup(groups, g, i)
  }

  function Range(n: nat): (r: set<nat>)
    ensures |r| == n && forall i: nat :: i in r <==> i < n
  {
    if n == 0 then {} else Range(n - 1) + {n - 1}
  }

  function Elements(s: seq<nat>): (r: set<nat>)
    ensures forall i: nat :: i in r <==> i in s
  {
    if s == [] then {} else
      assert s == s[..|s| - 1] + [s[|s| - 1]];
      Elements(s[..|s| - 1]) + {s[|s| - 1]}
  }

  lemma {:induction false} AscendingSize(s: seq<nat>)
    requires Ascending(s)
    ensures |Elements(s)| == |s|
  {
    if s != [] {
      AscendingSize(s[..|s| - 1]);
      assert s[|s| - 1] !in s[..|s| - 1];
    }
  }

  lemma CoveredMembers(groups: seq<seq<nat>>, k: nat, i: nat)
    ensures CoveredBy(groups, k + 1, i) <==> CoveredBy(groups, k, i) || InGroup(groups, k, i)
  {
    if CoveredBy(groups, k + 1, i) {
      var g: nat :| g < k + 1 && InGroup(groups, g, i);
    }
  }

  lemma CoveredApart(rows: seq<Row>, groups: seq<seq<nat>>, k: nat, i: nat)
    requires Components(rows, groups) && CoveredBy(groups, k, i)
    ensures !InGroup(groups, k, i)
  {
    var g: nat :| g < k && InGroup(groups, g, i);
  }

  /** One more group adds exactly its members that satisfy the test. */
  lemma CoveredStep(rows: seq<Row>, groups: seq<seq<nat>>, k: nat, test: nat -> bool)
    requires Components(rows, groups) && k < |groups|
    ensures |Covered(groups, k + 1, |rows|, test)| == |Covered(groups, k, |rows|, test)| + |Keep(groups[k], test)|
  {
    var current := Keep(groups[k], test);
    KeepAscending(groups[k], test);
    AscendingSize(current);
    var after, before, added :=
      Covered(groups, k + 1, |rows|, test), Covered(groups, k, |rows|, test), Elements(current);
    forall i: nat ensures (i in after <==> i in before || i in added) && !(i in before && i in added) {
      CoveredMembers(groups, k, i);
      if InGroup(groups, k, i) {
        assert Listed(groups, i);
      }
      if CoveredBy(groups, k, i) {
        CoveredApart(rows, groups, k, i);
      }
    }
    assert after == before + added && before !! added;
  }

  lemma CoveredAll(rows: seq<Row>, groups: seq<seq<nat>>, test: nat -> bool)
    requires Components(rows, groups)
    ensures Covered(groups, |groups|, |rows|, test) == Total(|rows|, test)
  {
    forall i: nat | i < |rows| ensures CoveredBy(groups, |groups|, i) {
      assert Listed(groups, i);
    }
  }

  lemma CoveredNone(groups: seq<seq<nat>>, n: nat, test: nat -> bool)
    ensures |Covered(groups, 0, n, test)| == 0
  {
    assert Covered(groups, 0, n, test) == {};
  }

  lemma TotalBelow(n: nat, m: nat, test: nat -> bool)
    requires m <= n && forall i: nat :: test(i) <==> i < m
    ensures |Total(n, test)| == m
  {
    assert Total(n, test) == Range(m);
  }

  lemma {:induction false} KeepAscending(s: seq<nat>, test: nat -> bool)
    requires Ascending(s)
    ensures Ascending(Keep(s, test))
  {
    if s != [] {
      var r, last := Keep(s[..|s| - 1], test), s[|s| - 1];
      KeepAscending(s[..|s| - 1], test);
      forall a | 0 <= a < |r| ensures r[a] < last {
        assert r[a] in r && r[a] in s[..|s| - 1];
      }
    }
  }

  /** Keeping everything changes nothing. */
  lemma {:induction false} KeepAll(s: seq<nat>, test: nat -> bool)
    requires forall i :: i in s ==> test(i)
    ensures Keep(s, test) == s
  {
    if s != [] {
      assert s == s[..|s| - 1] + [s[|s| - 1]];
      KeepAll(s[..|s| - 1], test);
    }
  }

  lemma KeepSome(s: seq<nat>, test: nat -> bool)
    ensures |Keep(s, test)| == |s| <==> forall i: nat :: i in s ==> test(i)
  {
    if forall i: nat :: i in s ==> test(i) {
      KeepAll(s, test);
    } else {
      var i: nat :| i in s && !test(i);
      KeepLess(s, test, i);
    }
  }

  lemma {:induction false} KeepLess(s: seq<nat>, test: nat -> bool, i: nat)
    requires i in s && !test(i)
    ensures |Keep(s, test)| < |s|
  {
    assert s == s[..|s| - 1] + [s[|s| - 1]];
    if test(s[|s| - 1]) {
      KeepLess(s[..|s| - 1], test, i);
    }
  }

  /** A test and its complement split a list. */
  lemma {:induction false} KeepSplit(s: seq<nat>, all: nat -> bool, yes: nat -> bool, no: nat -> bool)
    requires forall i: nat :: all(i) <==> yes(i) || no(i)
    requires forall i: nat :: !(yes(i) && no(i))
    ensures |Keep(s, all)| == |Keep(s, yes)| + |Keep(s, no)|
  {
    if s != [] {
      KeepSplit(s[..|s| - 1], all, yes, no);
    }
  }

  /** How many listed members of the first k groups satisfy the test. */
  function Sizes(groups: seq<seq<nat>>, k: nat, test: nat -> bool): nat
    requires k <= |groups|
  {
    if k == 0 then 0 else Sizes(groups, k - 1, test) + |Keep(groups[k - 1], test)|
  }

  /** Group k adds as many covered rows as it has members that satisfy the test. */
  ghost predicate Adds(groups: seq<seq<nat>>, k: nat, n: nat, test: nat -> bool)
    requires k < |groups|
  {
    |Covered(groups, k + 1, n, test)| == |Covered(groups, k, n, test)| + |Keep(groups[k], test)|
  }

  lemma {:induction false} SizesAreCovered(groups: seq<seq<nat>>, k: nat, n: nat, test: nat -> bool)
    requires k <= |groups| && forall j: nat :: j < k ==> Adds(groups, j, n, test)
    ensures Sizes(groups, k, test) == |Covered(groups, k, n, test)|
  {
    if k == 0 {
      CoveredNone(groups, n, test);
    } else {
      SizesAreCovered(groups, k - 1, n, test);
      assert Adds(groups, k - 1, n, test);
    }
  }

  /** Counting group by group counts every row once. */
  lemma SizesAreTotal(rows: seq<Row>, groups: seq<seq<nat>>, test: nat -> bool)
    requires Components(rows, groups)
    ensures Sizes(groups, |groups|, test) == |Total(|rows|, test)|
  {
    forall j: nat | j < |groups| ensures Adds(groups, j, |rows|, test) {
      CoveredStep(rows, groups, j, test);
    }
    SizesAreCovered(groups, |groups|, |rows|, test);
    CoveredAll(rows, groups, test);
  }
}

/** The bookkeeping shared by the routines that keep one representative per campaign. */
module Selection {
  import opened CampaignGraph
  import opened Inventory
  import opened Orders

  predicate Within(n: nat, group: seq<nat>) {
    group != [] && forall i: nat :: i in group ==> i < n
  }

  lemma GroupIsWithin(all: seq<Row>, groups: seq<seq<nat>>, g: nat)
    requires Components(all, groups) && g < |groups|
    ensures Within(|all|, groups[g])
  {
    forall i: nat | i in groups[g] ensures i < |all| {
      assert InGroup(groups, g, i) && Listed(groups, i);
    }
  }

  /** The group of a row is its component. */
  lemma MemberIsConnected(all: seq<Row>, groups: seq<seq<nat>>, g: nat, x: nat, i: nat)
    requires Components(all, groups) && InGroup(groups, g, x)
    ensures Connected(all, x, i) <==> InGroup(groups, g, i)
  {
    if Connected(all, x, i) {
      assert Listed(groups, i);
      var h: nat :| InGroup(groups, h, i);
    }
  }

  /** The first member with the least value. */
  function Least(s: seq<nat>, f: nat -> int): (m: nat)
    requires s != []
    ensures m in s && forall i: nat :: i in s ==> f(m) <= f(i)
  {
    if |s| == 1 then s[0] else
      var init, last := s[..|s| - 1], s[|s| - 1];
      assert s == init + [last];
      var m := Least(init, f);
      if f(last) < f(m) then last else m
  }

  /** Every member before it has a larger value. */
  lemma {:induction false} LeastIsFirst(s: seq<nat>, f: nat -> int) returns (k: nat)
    requires s != []
    ensures k < |s| && s[k] == Least(s, f) && forall j :: 0 <= j < k ==> f(s[j]) > f(s[k])
  {
    k := 0;
    if |s| > 1 {
      var init, last := s[..|s| - 1], s[|s| - 1];
      if f(last) < f(Least(init, f)) {
        k := |s| - 1;
        forall j | 0 <= j < k ensures f(s[j]) > f(s[k]) {
          assert init[j] in init;
        }
      } else {
        k := LeastIsFirst(init, f);
      }
    }
  }

  /** What the loop decides about one group, with the sizes it counts. */
  datatype Verdict<+T> = Rejected | Aside(size: nat) | Kept(best: T, known: nat, members: nat)

  /** aside counts the messages set aside, duplicates those dropped beside their representative. */
  datatype Report<+T> = Report(selected: seq<T>, aside: nat, duplicates: nat)

  /** The body of the loop for an accepted group. */
  function Account<T>(v: Verdict<T>, report: Report<T>): Report<T> {
    match v
    case Rejected => report
    case Aside(size) => report.(aside := report.aside + size)
    case Kept(best, known, members) =>
      Report(report.selected + [best],
             if members >= known then report.aside + (members - known) else report.aside,
             if known > 0 then report.duplicates + (known - 1) else report.duplicates)
  }

  /** The report after the first k groups. */
  function Accounted<T>(vs: seq<Verdict<T>>, k: nat): Report<T>
    requires k <= |vs|
  {
    if k == 0 then Report([], 0, 0) else Account(vs[k - 1], Accounted(vs, k - 1))
  }

  predicate Accepted<T>(vs: seq<Verdict<T>>, k: nat) {
    k <= |vs| && forall g :: 0 <= g < k ==> !vs[g].Rejected?
  }

  /** The groups that the selected rows come from. */
  ghost function Owners<T>(vs: seq<Verdict<T>>, k: nat): seq<nat>
    requires k <= |vs|
  {
    if k == 0 then []
    else if vs[k - 1].Kept? then Owners(vs, k - 1) + [k - 1]
    else Owners(vs, k - 1)
  }

  /** owner[a] is the kept group that selected[a] represents. */
  ghost predicate Matches<T>(vs: seq<Verdict<T>>, k: nat, selected: seq<T>, owner: seq<nat>) {
    && k <= |vs| && |owner| == |selected| && Ascending(owner)
    && forall a :: 0 <= a < |owner| ==> owner[a] < k && vs[owner[a]].Kept? && vs[owner[a]].best == selected[a]
  }

  /** The first k verdicts keep one representative each, in order. */
  lemma {:induction false} OwnersMatch<T>(vs: seq<Verdict<T>>, k: nat)
    requires k <= |vs|
    ensures Matches(vs, k, Accounted(vs, k).selected, Owners(vs, k))
  {
    if k > 0 {
      OwnersMatch(vs, k - 1);
    }
  }

  lemma {:induction false} KeptIsOwner<T>(vs: seq<Verdict<T>>, k: nat, g: nat)
    requires g < k <= |vs| && vs[g].Kept?
    ensures g in Owners(vs, k)
  {
    if g < k - 1 {
      KeptIsOwner(vs, k - 1, g);
    } else {
      assert Owners(vs, k)[|Owners(vs, k)| - 1] == g;
    }
  }

  /** Every kept group has its position in the selection. */
  lemma KeptPosition<T>(vs: seq<Verdict<T>>, g: nat) returns (a: nat)
    requires g < |vs| && vs[g].Kept?
    ensures a < |Accounted(vs, |vs|).selected| == |Owners(vs, |vs|)|
    ensures Owners(vs, |vs|)[a] == g && Accounted(vs, |vs|).selected[a] == vs[g].best
  {
    OwnersMatch(vs, |vs|);
    KeptIsOwner(vs, |vs|, g);
    a :| a < |Owners(vs, |vs|)| && Owners(vs, |vs|)[a] == g;
  }

  /** Every kept group is represented by one of its members. */
  ghost predicate Represents<T>(groups: seq<seq<nat>>, vs: seq<Verdict<T>>, rep: T -> nat) {
    |vs| == |groups| && forall g: nat :: g < |vs| && vs[g].Kept? ==> InGroup(groups, g, rep(vs[g].best))
  }

  /** Equal or connected representatives are one selection. */
  lemma SelectionIsApart<T>(all: seq<Row>, groups: seq<seq<nat>>, vs: seq<Verdict<T>>, rep: T -> nat, a: nat, b: nat)
    requires Components(all, groups) && Represents(groups, vs, rep)
    requires a < |Accounted(vs, |vs|).selected| && b < |Accounted(vs, |vs|).selected|
    requires var s := Accounted(vs, |vs|).selected; s[a] == s[b] || Connected(all, rep(s[a]), rep(s[b]))
    ensures a == b
  {
    OwnersMatch(vs, |vs|);
    var x, y := rep(Accounted(vs, |vs|).selected[a]), rep(Accounted(vs, |vs|).selected[b]);
    var g, h := Owners(vs, |vs|)[a], Owners(vs, |vs|)[b];
    assert InGroup(groups, g, x) && InGroup(groups, h, y);
    assert Listed(groups, x);
    ConnectedReflexive(all, x);
    assert g == h;
  }

  /** Nothing is selected twice. */
  lemma SelectionIsOnce<T(!new)>(all: seq<Row>, groups: seq<seq<nat>>, vs: seq<Verdict<T>>, rep: T -> nat)
    requires Components(all, groups) && Represents(groups, vs, rep)
    ensures forall x :: multiset(Accounted(vs, |vs|).selected)[x] <= 1
  {
    var selected := Accounted(vs, |vs|).selected;
    forall a: nat, b: nat | a < b < |selected| ensures selected[a] != selected[b] {
      if selected[a] == selected[b] {
        SelectionIsApart(all, groups, vs, rep, a, b);
      }
    }
    DistinctMultiset(selected);
  }

  /** No two selections belong to one component. */
  lemma SelectionIsSeparate<T>(all: seq<Row>, groups: seq<seq<nat>>, vs: seq<Verdict<T>>, rep: T -> nat, x: T, y: T)
    requires Components(all, groups) && Represents(groups, vs, rep)
    requires x in multiset(Accounted(vs, |vs|).selected) && y in multiset(Accounted(vs, |vs|).selected)
    requires Connected(all, rep(x), rep(y))
    ensures x == y
  {
    var selected := Accounted(vs, |vs|).selected;
    var a: nat :| a < |selected| && selected[a] == x;
    var b: nat :| b < |selected| && selected[b] == y;
    SelectionIsApart(all, groups, vs, rep, a, b);
  }

  /** The sizes recorded in a verdict are those of the group. */
  ghost predicate Sized<T>(v: Verdict<T>, group: seq<nat>, all: nat -> bool, aside: nat -> bool) {
    match v
    case Rejected => false
    case Aside(size) => size == |Keep(group, all)| == |Keep(group, aside)|
    case Kept(_, known, members) =>
      0 < known <= members && members == |Keep(group, all)| && members - known == |Keep(group, aside)|
  }

  /** The counters account for every counted member of the first k groups. */
  lemma {:induction false} CountersMatch<T>(groups: seq<seq<nat>>, vs: seq<Verdict<T>>, k: nat,
                                            all: nat -> bool, aside: nat -> bool)
    requires k <= |vs| == |groups|
    requires forall g :: 0 <= g < |vs| ==> Sized(vs[g], groups[g], all, aside)
    ensures var report := Accounted(vs, k);
            && report.aside == Sizes(groups, k, aside)
            && |report.selected| + report.aside + report.duplicates == Sizes(groups, k, all)
  {
    if k > 0 {
      CountersMatch(groups, vs, k - 1, all, aside);
      assert Sized(vs[k - 1], groups[k - 1], all, aside);
    }
  }
}

/**
 Feedback campaigns: one representative per near-duplicate component, carrying the
 time interval of the whole component, and the chronological split built on it.
 */
module Feedback {
  import opened CampaignGraph
  import opened Campaigns
  import opened Inventory
  import opened Selection
  import opened Orders

  /** Times are seconds; ids are fixed-length hex and compare as numbers. */
  datatype Sample = Sample(id: nat, spam: bool, observed: int, labelled: int, row: Row)

  /** A retained representative with the interval of its whole component. */
  datatype Campaign = Campaign(rep: nat, first: int, last: int, labelled: int)

  function Provenance(rows: seq<Sample>): seq<Row> { Image(rows, (s: Sample) => s.row) }

  predicate SameLabel(rows: seq<Sample>, group: seq<nat>)
    requires Within(|rows|, group)
  {
    forall i, j :: i in group && j in group ==> rows[i].spam == rows[j].spam
  }

  function IdOf(rows: seq<Sample>): nat -> int { (i: nat) => if i < |rows| then rows[i].id else 0 }

  function SeenAt(rows: seq<Sample>): nat -> int { (i: nat) => if i < |rows| then rows[i].observed else 0 }

  function SeenBack(rows: seq<Sample>): nat -> int { (i: nat) => if i < |rows| then -rows[i].observed else 0 }

  function LabelBack(rows: seq<Sample>): nat -> int { (i: nat) => if i < |rows| then -rows[i].labelled else 0 }

  /** Minimum observation, maximum observation and maximum labelling time of the members. */
  function Summary(rows: seq<Sample>, group: seq<nat>): (c: Campaign)
    requires Within(|rows|, group)
  {
    Campaign(Least(group, IdOf(rows)),
             SeenAt(rows)(Least(group, SeenAt(rows))),
             -SeenBack(rows)(Least(group, SeenBack(rows))),
             -LabelBack(rows)(Least(group, LabelBack(rows))))
  }

  // ---------------------------------------------------------------- meaning

  /** c describes the component of its representative. */
  ghost predicate Describes(rows: seq<Sample>, all: seq<Row>, c: Campaign) {
    && c.rep < |rows| == |all|
    && (forall i: nat {:trigger Connected(all, c.rep, i)} :: i < |rows| && Connected(all, c.rep, i) ==>
          && rows[i].spam == rows[c.rep].spam
          && rows[c.rep].id <= rows[i].id
          && c.first <= rows[i].observed <= c.last
          && rows[i].labelled <= c.labelled)
    && (exists i: nat :: i < |rows| && Connected(all, c.rep, i) && rows[i].observed == c.first)
    && (exists i: nat :: i < |rows| && Connected(all, c.rep, i) && rows[i].observed == c.last)
    && (exists i: nat :: i < |rows| && Connected(all, c.rep, i) && rows[i].labelled == c.labelled)
  }

  /** The component of i holds both labels. */
  ghost predicate Mixed(rows: seq<Sample>, all: seq<Row>, i: nat) {
    exists j: nat, k: nat :: j < |rows| && k < |rows| && Connected(all, i, j) && Connected(all, i, k)
                             && rows[j].spam != rows[k].spam
  }

  ghost predicate RepresentedBy(all: seq<Row>, selected: multiset<Campaign>, i: nat) {
    exists c :: c in selected && Connected(all, c.rep, i)
  }

  /** Each uniform component appears once and each mixed one not at all. */
  ghost predicate Selected(rows: seq<Sample>, all: seq<Row>, selected: multiset<Campaign>) {
    && (forall c :: c in selected ==> Describes(rows, all, c))
    && (forall c :: selected[c] <= 1)
    && (forall c, d :: c in selected && d in selected && Connected(all, c.rep, d.rep) ==> c == d)
    && (forall i: nat :: i < |rows| ==> (RepresentedBy(all, selected, i) <==> !Mixed(rows, all, i)))
  }

  // ---------------------------------------------------------------- groups

  function Inspect(rows: seq<Sample>, group: seq<nat>): Verdict<Campaign>
    requires Within(|rows|, group)
  {
    if SameLabel(rows, group) then Kept(Summary(rows, group), |group|, |group|) else Aside(|group|)
  }

  /** The verdicts of all groups of a component list. */
  ghost predicate Judged(rows: seq<Sample>, groups: seq<seq<nat>>, vs: seq<Verdict<Campaign>>) {
    && |vs| == |groups|
    && (forall g :: 0 <= g < |groups| ==> Within(|rows|, groups[g]))
    && forall g {:trigger Inspect(rows, groups[g])} :: 0 <= g < |vs| ==> vs[g] == Inspect(rows, groups[g])
  }

  /** The summary bounds every member, and three members attain its times. */
  lemma SummaryBounds(rows: seq<Sample>, group: seq<nat>) returns (first: nat, last: nat, seen: nat)
    requires Within(|rows|, group) && SameLabel(rows, group)
    ensures var c := Summary(rows, group);
            && c.rep in group && first in group && last in group && seen in group
            && rows[first].observed == c.first && rows[last].observed == c.last && rows[seen].labelled == c.labelled
            && forall i: nat :: i in group ==>
                 && rows[i].spam == rows[c.rep].spam && rows[c.rep].id <= rows[i].id
                 && c.first <= rows[i].observed <= c.last && rows[i].labelled <= c.labelled
  {
    var c := Summary(rows, group);
    first, last, seen := Least(group, SeenAt(rows)), Least(group, SeenBack(rows)), Least(group, LabelBack(rows));
    forall i: nat | i in group
      ensures && rows[i].spam == rows[c.rep].spam && rows[c.rep].id <= rows[i].id
              && c.first <= rows[i].observed <= c.last && rows[i].labelled <= c.labelled
    {
      assert IdOf(rows)(c.rep) <= IdOf(rows)(i) && SeenAt(rows)(first) <= SeenAt(rows)(i);
      assert SeenBack(rows)(last) <= SeenBack(rows)(i) && LabelBack(rows)(seen) <= LabelBack(rows)(i);
    }
  }

  lemma SummaryDescribes(rows: seq<Sample>, all: seq<Row>, groups: seq<seq<nat>>, g: nat)
    requires Components(all, groups) && |rows| == |all| && g < |groups| && Within(|rows|, groups[g])
    requires SameLabel(rows, groups[g])
    ensures Describes(rows, all, Summary(rows, groups[g])) && InGroup(groups, g, Summary(rows, groups[g]).rep)
  {
    var c := Summary(rows, groups[g]);
    var first, last, seen := SummaryBounds(rows, groups[g]);
    assert InGroup(groups, g, c.rep);
    forall i: nat ensures Connected(all, c.rep, i) <==> InGroup(groups, g, i) {
      MemberIsConnected(all, groups, g, c.rep, i);
    }
    assert Connected(all, c.rep, first) && Connected(all, c.rep, last) && Connected(all, c.rep, seen);
  }

  lemma MixedIsUnlike(rows: seq<Sample>, all: seq<Row>, groups: seq<seq<nat>>, g: nat, i: nat)
    requires Components(all, groups) && |rows| == |all| && InGroup(groups, g, i) && Within(|rows|, groups[g])
    ensures Mixed(rows, all, i) <==> !SameLabel(rows, groups[g])
  {
    forall j: nat ensures Connected(all, i, j) <==> InGroup(groups, g, j) {
      MemberIsConnected(all, groups, g, i, j);
    }
    if !SameLabel(rows, groups[g]) {
      var j: nat, k: nat :| j in groups[g] && k in groups[g] && rows[j].spam != rows[k].spam;
      assert InGroup(groups, g, j) && InGroup(groups, g, k);
      assert Connected(all, i, j) && Connected(all, i, k);
    }
  }

  lemma OwnerDescribes(rows: seq<Sample>, all: seq<Row>, groups: seq<seq<nat>>, vs: seq<Verdict<Campaign>>, a: nat)
    requires Components(all, groups) && |rows| == |all| && Judged(rows, groups, vs)
    requires a < |Accounted(vs, |vs|).selected|
    ensures |Owners(vs, |vs|)| == |Accounted(vs, |vs|).selected|
    ensures var c, g := Accounted(vs, |vs|).selected[a], Owners(vs, |vs|)[a];
            Describes(rows, all, c) && InGroup(groups, g, c.rep) && SameLabel(rows, groups[g])
  {
    OwnersMatch(vs, |vs|);
    var g := Owners(vs, |vs|)[a];
    assert vs[g] == Inspect(rows, groups[g]);
    SummaryDescribes(rows, all, groups, g);
  }

  function Rep(): Campaign -> nat { (c: Campaign) => c.rep }

  lemma CampaignsRepresent(rows: seq<Sample>, all: seq<Row>, groups: seq<seq<nat>>, vs: seq<Verdict<Campaign>>)
    requires Components(all, groups) && |rows| == |all| && Judged(rows, groups, vs)
    ensures Represents(groups, vs, Rep())
  {
    forall g: nat | g < |vs| && vs[g].Kept? ensures InGroup(groups, g, vs[g].best.rep) {
      assert vs[g] == Inspect(rows, groups[g]);
      SummaryDescribes(rows, all, groups, g);
    }
  }

  lemma SelectedDescribes(rows: seq<Sample>, all: seq<Row>, groups: seq<seq<nat>>, vs: seq<Verdict<Campaign>>, c: Campaign)
    requires Components(all, groups) && |rows| == |all| && Judged(rows, groups, vs)
    requires c in multiset(Accounted(vs, |vs|).selected)
    ensures Describes(rows, all, c)
  {
    var a: nat :| a < |Accounted(vs, |vs|).selected| && Accounted(vs, |vs|).selected[a] == c;
    OwnerDescribes(rows, all, groups, vs, a);
  }

  lemma SelectionIsExact(rows: seq<Sample>, all: seq<Row>, groups: seq<seq<nat>>, vs: seq<Verdict<Campaign>>)
    requires Components(all, groups) && |rows| == |all| && Judged(rows, groups, vs)
    ensures Selected(rows, all, multiset(Accounted(vs, |vs|).selected))
  {
    var selected := multiset(Accounted(vs, |vs|).selected);
    CampaignsRepresent(rows, all, groups, vs);
    SelectionIsOnce(all, groups, vs, Rep());
    forall c | c in selected ensures Describes(rows, all, c) {
      SelectedDescribes(rows, all, groups, vs, c);
    }
    forall c, d | c in selected && d in selected && Connected(all, c.rep, d.rep) ensures c == d {
      SelectionIsSeparate(all, groups, vs, Rep(), c, d);
    }
    forall i: nat | i < |rows| ensures RepresentedBy(all, selected, i) <==> !Mixed(rows, all, i) {
      RepresentedIffUniform(rows, all, groups, vs, i);
    }
  }

  lemma RepresentedIffUniform(rows: seq<Sample>, all: seq<Row>, groups: seq<seq<nat>>, vs: seq<Verdict<Campaign>>, i: nat)
    requires Components(all, groups) && |rows| == |all| && Judged(rows, groups, vs) && i < |rows|
    ensures RepresentedBy(all, multiset(Accounted(vs, |vs|).selected), i) <==> !Mixed(rows, all, i)
  {
    assert Listed(groups, i);
    var g: nat :| InGroup(groups, g, i);
    MixedIsUnlike(rows, all, groups, g, i);
    if RepresentedBy(all, multiset(Accounted(vs, |vs|).selected), i) {
      RepresentedIsUniform(rows, all, groups, vs, g, i);
    }
    if SameLabel(rows, groups[g]) {
      UniformIsRepresented(rows, all, groups, vs, g, i);
    }
  }

  lemma RepresentedIsUniform(rows: seq<Sample>, all: seq<Row>, groups: seq<seq<nat>>, vs: seq<Verdict<Campaign>>, g: nat, i: nat)
    requires Components(all, groups) && |rows| == |all| && Judged(rows, groups, vs) && InGroup(groups, g, i)
    requires RepresentedBy(all, multiset(Accounted(vs, |vs|).selected), i)
    ensures SameLabel(rows, groups[g])
  {
    var selected := Accounted(vs, |vs|).selected;
    var c: Campaign :| c in multiset(selected) && Connected(all, c.rep, i);
    var a: nat :| a < |selected| && selected[a] == c;
    OwnerDescribes(rows, all, groups, vs, a);
    assert Owners(vs, |vs|)[a] == g;
  }

  lemma UniformIsRepresented(rows: seq<Sample>, all: seq<Row>, groups: seq<seq<nat>>, vs: seq<Verdict<Campaign>>, g: nat, i: nat)
    requires Components(all, groups) && |rows| == |all| && Judged(rows, groups, vs) && InGroup(groups, g, i)
    requires SameLabel(rows, groups[g])
    ensures RepresentedBy(all, multiset(Accounted(vs, |vs|).selected), i)
  {
    var selected := Accounted(vs, |vs|).selected;
    assert vs[g] == Inspect(rows, groups[g]);
    var a := KeptPosition(vs, g);
    OwnerDescribes(rows, all, groups, vs, a);
    assert selected[a] in multiset(selected);
    assert Connected(all, selected[a].rep, i);
  }

  function Everyone(): nat -> bool { (i: nat) => true }

  /** The members of the mixed groups among the listed ones. */
  function Conflicted(rows: seq<Sample>, groups: seq<seq<nat>>): nat -> bool {
    (i: nat) => exists g :: 0 <= g < |groups| && i in groups[g] && Within(|rows|, groups[g]) && !SameLabel(rows, groups[g])
  }

  lemma ConflictedMembers(rows: seq<Sample>, all: seq<Row>, groups: seq<seq<nat>>, g: nat, i: nat)
    requires Components(all, groups) && |rows| == |all| && InGroup(groups, g, i) && Within(|rows|, groups[g])
    ensures Conflicted(rows, groups)(i) <==> !SameLabel(rows, groups[g])
  {
    if Conflicted(rows, groups)(i) {
      var h :| 0 <= h < |groups| && i in groups[h] && Within(|rows|, groups[h]) && !SameLabel(rows, groups[h]);
      assert InGroup(groups, h, i);
    }
  }

  lemma VerdictSizes(rows: seq<Sample>, all: seq<Row>, groups: seq<seq<nat>>, g: nat)
    requires Components(all, groups) && |rows| == |all| && g < |groups| && Within(|rows|, groups[g])
    ensures Sized(Inspect(rows, groups[g]), groups[g], Everyone(), Conflicted(rows, groups))
  {
    KeepAll(groups[g], Everyone());
    forall i: nat | i in groups[g] ensures Conflicted(rows, groups)(i) <==> !SameLabel(rows, groups[g]) {
      assert InGroup(groups, g, i);
      ConflictedMembers(rows, all, groups, g, i);
    }
    if SameLabel(rows, groups[g]) {
      EmptyTogether(Keep(groups[g], Conflicted(rows, groups)), []);
    } else {
      KeepAll(groups[g], Conflicted(rows, groups));
    }
  }

  function IdLe(rows: seq<Sample>): (Campaign, Campaign) -> bool {
    (a: Campaign, b: Campaign) => IdOf(rows)(a.rep) <= IdOf(rows)(b.rep)
  }

  ghost predicate IdsRise(rows: seq<Sample>, s: seq<Campaign>) {
    forall a, b :: 0 <= a < b < |s| && s[a].rep < |rows| && s[b].rep < |rows| ==> rows[s[a].rep].id <= rows[s[b].rep].id
  }

  /** What grouping promises; aside is the source's conflicting_messages counter. */
  ghost predicate Grouped(rows: seq<Sample>, all: seq<Row>, report: Report<Campaign>) {
    && Selected(rows, all, multiset(report.selected))
    && IdsRise(rows, report.selected)
    && report.aside == |MixedMessages(rows, all)|
    && |rows| == |report.selected| + report.duplicates + report.aside
  }

  lemma SortedById(rows: seq<Sample>, s: seq<Campaign>)
    requires Sorted(s, IdLe(rows))
    ensures IdsRise(rows, s)
  {
    forall a, b | 0 <= a < b < |s| && s[a].rep < |rows| && s[b].rep < |rows| ensures rows[s[a].rep].id <= rows[s[b].rep].id {
      assert IdLe(rows)(s[a], s[b]);
      assert IdOf(rows)(s[a].rep) == rows[s[a].rep].id && IdOf(rows)(s[b].rep) == rows[s[b].rep].id;
    }
  }

  lemma FinishedReport(rows: seq<Sample>, all: seq<Row>, groups: seq<seq<nat>>, vs: seq<Verdict<Campaign>>)
    requires Components(all, groups) && |rows| == |all| && Judged(rows, groups, vs)
    ensures var report := Accounted(vs, |vs|);
            Grouped(rows, all, report.(selected := Sort(report.selected, IdLe(rows))))
  {
    var report := Accounted(vs, |vs|);
    SelectionIsExact(rows, all, groups, vs);
    SortMultiset(report.selected, IdLe(rows));
    SortSorted(report.selected, IdLe(rows));
    SortedById(rows, Sort(report.selected, IdLe(rows)));
    forall g | 0 <= g < |vs| ensures Sized(vs[g], groups[g], Everyone(), Conflicted(rows, groups)) {
      VerdictSizes(rows, all, groups, g);
    }
    CountersMatch(groups, vs, |vs|, Everyone(), Conflicted(rows, groups));
    SizesAreTotal(all, groups, Everyone());
    SizesAreTotal(all, groups, Conflicted(rows, groups));
    assert Total(|rows|, Everyone()) == Range(|rows|);
    MixedTotal(rows, all, groups);
  }

  /** The messages of mixed components. */
  ghost function MixedMessages(rows: seq<Sample>, all: seq<Row>): set<nat> {
    set i | i in Range(|rows|) && Mixed(rows, all, i)
  }

  lemma MixedTotal(rows: seq<Sample>, all: seq<Row>, groups: seq<seq<nat>>)
    requires Components(all, groups) && |rows| == |all|
    requires forall g :: 0 <= g < |groups| ==> Within(|rows|, groups[g])
    ensures Total(|rows|, Conflicted(rows, groups)) == MixedMessages(rows, all)
  {
    forall i: nat | i < |rows| ensures Conflicted(rows, groups)(i) <==> Mixed(rows, all, i) {
      assert Listed(groups, i);
      var g: nat :| InGroup(groups, g, i);
      ConflictedMembers(rows, all, groups, g, i);
      MixedIsUnlike(rows, all, groups, g, i);
    }
  }

  /** The loop over components. */
  method SelectGroups(rows: seq<Sample>, groups: seq<seq<nat>>) returns (report: Report<Campaign>, ghost vs: seq<Verdict<Campaign>>)
    requires forall g :: 0 <= g < |groups| ==> Within(|rows|, groups[g])
    ensures Judged(rows, groups, vs) && report == Accounted(vs, |vs|)
  {
    vs := seq(|groups|, g requires 0 <= g < |groups| => Inspect(rows, groups[g]));
    report := Report([], 0, 0);
    for k := 0 to |groups|
      invariant report == Accounted(vs, k)
    {
      var verdict := Inspect(rows, groups[k]);
      assert verdict == vs[k];
      report := Account(verdict, report);
    }
  }

  method GroupRows(rows: seq<Sample>) returns (r: Result<Report<Campaign>>)
    ensures var all := Provenance(rows);
            r.Ok? <==> && (forall i :: 0 <= i < |all| ==> Usable(Refused, all[i]))
                       && Comparisons(all, |all|) <= BUDGET
    ensures r.Ok? ==> Grouped(rows, Provenance(rows), r.value)
  {
    var all := Provenance(rows);
    var groups := Group(all, Refused);
    if groups.Err? {
      return Err;
    }
    forall g | 0 <= g < |groups.value| ensures Within(|rows|, groups.value[g]) {
      GroupIsWithin(all, groups.value, g);
    }
    var report, vs := SelectGroups(rows, groups.value);
    FinishedReport(rows, all, groups.value, vs);
    r := Ok(report.(selected := Sort(report.selected, IdLe(rows))));
  }

  // ---------------------------------------------------------------- time split

  predicate Trains(c: Campaign, cut: int) { c.last < cut && c.labelled < cut }

  predicate Tests(c: Campaign, cut: int) { c.first >= cut }

  /**
   No temporal leakage: every message behind a training campaign was observed and labelled
   before the cut, every message behind a test campaign was observed at or after it, and
   no message behind one is connected to a message behind the other.
   */
  lemma NoTemporalLeakage(rows: seq<Sample>, report: Report<Campaign>, cut: int, c: Campaign, d: Campaign, i: nat, j: nat)
    requires Grouped(rows, Provenance(rows), report) && c in report.selected && d in report.selected
    requires Trains(c, cut) && Connected(Provenance(rows), c.rep, i)
    requires Tests(d, cut) && Connected(Provenance(rows), d.rep, j)
    ensures i < |rows| && rows[i].observed < cut && rows[i].labelled < cut
    ensures j < |rows| && rows[j].observed >= cut
    ensures !Connected(Provenance(rows), i, j)
  {
    var all := Provenance(rows);
    assert c in multiset(report.selected) && d in multiset(report.selected);
    assert Describes(rows, all, c) && Describes(rows, all, d);
    if Connected(all, i, j) {
      ConnectedTransitive(all, c.rep, i, j);
      assert false;
    }
  }

  /** A campaign trains exactly when all its messages are observed and labelled before the cut, and tests when none is. */
  lemma SidesAreExact(rows: seq<Sample>, report: Report<Campaign>, cut: int, c: Campaign)
    requires Grouped(rows, Provenance(rows), report) && c in report.selected
    ensures Trains(c, cut) <==>
              forall i: nat {:trigger Connected(Provenance(rows), c.rep, i)} ::
                i < |rows| && Connected(Provenance(rows), c.rep, i) ==> rows[i].observed < cut && rows[i].labelled < cut
    ensures Tests(c, cut) <==>
              forall i: nat {:trigger Connected(Provenance(rows), c.rep, i)} ::
                i < |rows| && Connected(Provenance(rows), c.rep, i) ==> rows[i].observed >= cut
  {
    assert c in multiset(report.selected);
    assert Describes(rows, Provenance(rows), c);
  }

  function FirstLe(): (int, int) -> bool { (a: int, b: int) => a <= b }

  function Firsts(selected: seq<Campaign>): (s: seq<int>)
    ensures |s| == |selected|
  {
    seq(|selected|, a requires 0 <= a < |selected| => selected[a].first)
  }

  /** The first observation at a position of their sorted list. */
  function Cut(selected: seq<Campaign>, k: nat): int
    requires k < |selected|
  {
    Sort(Firsts(selected), FirstLe())[k]
  }

  /**
   No campaign both trains and tests, and the cut always leaves something to test on, wherever
   in the list seven tenths of its length is rounded to.
   */
  lemma SplitIsDisjointAndTestable(rows: seq<Sample>, report: Report<Campaign>, k: nat)
    requires Grouped(rows, Provenance(rows), report) && k < |report.selected|
    ensures var cut := Cut(report.selected, k);
            && (forall c :: c in report.selected ==> !(Trains(c, cut) && Tests(c, cut)))
            && (exists c :: c in report.selected && Tests(c, cut))
  {
    var selected, cut := report.selected, Cut(report.selected, k);
    var times := Firsts(selected);
    SortMultiset(times, FirstLe());
    SameElements(times, Sort(times, FirstLe()));
    assert cut in times;
    var a :| 0 <= a < |times| && times[a] == cut;
    assert selected[a] in selected && Tests(selected[a], cut);
    forall c | c in selected ensures !(Trains(c, cut) && Tests(c, cut)) {
      assert c in multiset(selected) && Describes(rows, Provenance(rows), c);
      ConnectedReflexive(Provenance(rows), c.rep);
      assert c.first <= rows[c.rep].observed <= c.last;
    }
  }
}

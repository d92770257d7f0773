/**
 Selection of fusion rows: one representative per campaign, with refusal of any
 campaign that reaches base history, crosses frozen splits or mixes labels.
 */
module Audit {
  import opened CampaignGraph
  import opened Campaigns
  import opened Inventory
  import opened Selection
  import opened Orders

  /** Ids are fixed-length lower-case hex, so their string order is numeric order. */
  datatype Message = Message(id: nat, split: string, certain: bool, spam: bool, row: Row)

  function Provenance(rows: seq<Message>): seq<Row> { Image(rows, (m: Message) => m.row) }

  function Mine(rows: seq<Message>): nat -> bool { (i: nat) => i < |rows| }

  function Certain(rows: seq<Message>): nat -> bool { (i: nat) => i < |rows| && rows[i].certain }

  function Unsure(rows: seq<Message>): nat -> bool { (i: nat) => i < |rows| && !rows[i].certain }

  predicate SameSplit(rows: seq<Message>, s: seq<nat>)
    requires forall i: nat :: i in s ==> i < |rows|
  {
    forall i, j :: i in s && j in s ==> rows[i].split == rows[j].split
  }

  predicate SameLabel(rows: seq<Message>, s: seq<nat>)
    requires forall i: nat :: i in s ==> i < |rows|
  {
    forall i, j :: i in s && j in s ==> rows[i].spam == rows[j].spam
  }

  function IdOf(rows: seq<Message>): nat -> int { (i: nat) => if i < |rows| then rows[i].id else 0 }

  /** A group of history rows only counts nothing; refusal covers the three requirements. */
  function Inspect(rows: seq<Message>, group: seq<nat>): Verdict<nat> {
    var current := Keep(group, Mine(rows));
    if current == [] then Aside(0)
    else if |current| != |group| || !SameSplit(rows, current) then Rejected
    else
      var known := Keep(group, Certain(rows));
      if known == [] then Aside(|current|)
      else if !SameLabel(rows, known) then Rejected
      else Kept(Least(known, IdOf(rows)), |known|, |current|)
  }

  // ---------------------------------------------------------------- meaning

  /** No campaign reaches history, crosses splits, or mixes certain labels. */
  ghost predicate Separable(rows: seq<Message>, all: seq<Row>) {
    && (forall i: nat, j: nat {:trigger Connected(all, i, j)} ::
          i < |rows| <= j < |all| ==> !Connected(all, i, j))
    && (forall i: nat, j: nat {:trigger Connected(all, i, j)} ::
          i < |rows| && j < |rows| && Connected(all, i, j) ==> rows[i].split == rows[j].split)
    && (forall i: nat, j: nat {:trigger Connected(all, i, j)} ::
          Certain(rows)(i) && Certain(rows)(j) && Connected(all, i, j) ==> rows[i].spam == rows[j].spam)
  }

  /** Exactly one certain representative per campaign that has one, of least id. */
  ghost predicate OnePerCampaign(rows: seq<Message>, all: seq<Row>, selected: multiset<nat>) {
    && (forall x :: x in selected ==> Certain(rows)(x))
    && (forall x :: selected[x] <= 1)
    && (forall x, y :: x in selected && y in selected && Connected(all, x, y) ==> x == y)
    && (forall i: nat :: Certain(rows)(i) ==> Represented(rows, all, selected, i))
  }

  ghost predicate Represented(rows: seq<Message>, all: seq<Row>, selected: multiset<nat>, i: nat) {
    exists x: nat :: x in selected && Connected(all, x, i) && x < |rows| && i < |rows| && rows[x].id <= rows[i].id
  }

  // ---------------------------------------------------------------- proofs

  lemma GroupedIsConnected(all: seq<Row>, groups: seq<seq<nat>>, g: nat, a: nat, b: nat)
    requires Components(all, groups) && g < |groups| && a in groups[g] && b in groups[g]
    ensures Connected(all, a, b) && a < |all| && b < |all|
  {
    assert InGroup(groups, g, a) && InGroup(groups, g, b);
    assert Listed(groups, a) && Listed(groups, b);
  }

  /** What is wrong with a refused group shows in two of its members. */
  lemma RefusedPair(rows: seq<Message>, group: seq<nat>) returns (a: nat, b: nat)
    requires Inspect(rows, group) == Rejected
    ensures a in group && b in group && a < |rows|
    ensures || b >= |rows| || rows[a].split != rows[b].split
            || (Certain(rows)(a) && Certain(rows)(b) && rows[a].spam != rows[b].spam)
  {
    var current := Keep(group, Mine(rows));
    a, b := current[0], current[0];
    assert current[0] in current;
    KeepSome(group, Mine(rows));
    if |current| != |group| {
      b :| b in group && !Mine(rows)(b);
    } else if !SameSplit(rows, current) {
      a, b :| a in current && b in current && rows[a].split != rows[b].split;
    } else {
      var known := Keep(group, Certain(rows));
      a, b :| a in known && b in known && rows[a].spam != rows[b].spam;
    }
  }

  lemma RefusedMeansInseparable(rows: seq<Message>, all: seq<Row>, groups: seq<seq<nat>>, g: nat)
    requires Components(all, groups) && |rows| <= |all| && g < |groups|
    requires Inspect(rows, groups[g]) == Rejected
    ensures !Separable(rows, all)
  {
    var a, b := RefusedPair(rows, groups[g]);
    GroupedIsConnected(all, groups, g, a, b);
  }

  lemma AcceptedGroup(rows: seq<Message>, group: seq<nat>, i: nat, j: nat)
    requires Inspect(rows, group) != Rejected && i in group && j in group && i < |rows|
    ensures j < |rows| && rows[i].split == rows[j].split
    ensures rows[i].certain && rows[j].certain ==> rows[i].spam == rows[j].spam
  {
    var current := Keep(group, Mine(rows));
    assert i in current;
    KeepSome(group, Mine(rows));
    assert j in current;
    var known := Keep(group, Certain(rows));
    if rows[i].certain && rows[j].certain {
      assert i in known && j in known;
    }
  }

  lemma AcceptedMeansSeparable(rows: seq<Message>, all: seq<Row>, groups: seq<seq<nat>>)
    requires Components(all, groups) && |rows| <= |all|
    requires forall g :: 0 <= g < |groups| ==> Inspect(rows, groups[g]) != Rejected
    ensures Separable(rows, all)
  {
    forall i: nat, j: nat | i < |rows| && j < |all| && Connected(all, i, j)
      ensures j < |rows| && rows[i].split == rows[j].split
      ensures rows[i].certain && rows[j].certain ==> rows[i].spam == rows[j].spam
    {
      assert Listed(groups, i) && Listed(groups, j);
      var g: nat :| InGroup(groups, g, i);
      var h: nat :| InGroup(groups, h, j);
      assert g == h;
      AcceptedGroup(rows, groups[g], i, j);
    }
  }

  /** The verdicts of all groups. */
  ghost predicate Judged(rows: seq<Message>, groups: seq<seq<nat>>, vs: seq<Verdict<nat>>) {
    |vs| == |groups| && forall g {:trigger Inspect(rows, groups[g])} ::
      0 <= g < |vs| ==> vs[g] == Inspect(rows, groups[g])
  }

  ghost function Verdicts(rows: seq<Message>, groups: seq<seq<nat>>): (vs: seq<Verdict<nat>>)
    ensures Judged(rows, groups, vs)
  {
    seq(|groups|, g requires 0 <= g < |groups| => Inspect(rows, groups[g]))
  }

  lemma VerdictSizes(rows: seq<Message>, group: seq<nat>)
    requires Inspect(rows, group) != Rejected
    ensures Sized(Inspect(rows, group), group, Mine(rows), Unsure(rows))
  {
    KeepSplit(group, Mine(rows), Certain(rows), Unsure(rows));
  }

  lemma KeptIsCertain(rows: seq<Message>, group: seq<nat>)
    requires Inspect(rows, group).Kept?
    ensures var b := Inspect(rows, group).best; b in group && Certain(rows)(b)
  {
    var known := Keep(group, Certain(rows));
    assert Least(known, IdOf(rows)) in known;
  }

  lemma SelectedIsCertain(rows: seq<Message>, groups: seq<seq<nat>>, vs: seq<Verdict<nat>>, x: nat)
    requires Judged(rows, groups, vs) && x in multiset(Accounted(vs, |vs|).selected)
    ensures Certain(rows)(x)
  {
    var a: nat :| a < |Accounted(vs, |vs|).selected| && Accounted(vs, |vs|).selected[a] == x;
    OwnersMatch(vs, |vs|);
    KeptIsCertain(rows, groups[Owners(vs, |vs|)[a]]);
  }

  lemma SelectionCovers(rows: seq<Message>, all: seq<Row>, groups: seq<seq<nat>>, vs: seq<Verdict<nat>>, i: nat)
    requires Components(all, groups) && |rows| <= |all| && Judged(rows, groups, vs) && Accepted(vs, |vs|)
    requires Certain(rows)(i)
    ensures Represented(rows, all, multiset(Accounted(vs, |vs|).selected), i)
  {
    var selected := Accounted(vs, |vs|).selected;
    assert Listed(groups, i);
    var g: nat :| InGroup(groups, g, i);
    assert vs[g] == Inspect(rows, groups[g]);
    var a := KeptPosition(vs, g);
    assert InGroup(groups, g, selected[a]);
    assert selected[a] in multiset(selected);
    assert Connected(all, selected[a], i);
  }

  /** A row stands for itself. */
  function Itself(): nat -> nat { (i: nat) => i }

  lemma RowsRepresent(rows: seq<Message>, groups: seq<seq<nat>>, vs: seq<Verdict<nat>>)
    requires Judged(rows, groups, vs)
    ensures Represents(groups, vs, Itself())
  {
    forall g: nat | g < |vs| && vs[g].Kept? ensures InGroup(groups, g, vs[g].best) {
      KeptIsCertain(rows, groups[g]);
    }
  }

  lemma SelectionRepresents(rows: seq<Message>, all: seq<Row>, groups: seq<seq<nat>>, vs: seq<Verdict<nat>>)
    requires Components(all, groups) && |rows| <= |all| && Judged(rows, groups, vs) && Accepted(vs, |vs|)
    ensures OnePerCampaign(rows, all, multiset(Accounted(vs, |vs|).selected))
  {
    var selected := multiset(Accounted(vs, |vs|).selected);
    RowsRepresent(rows, groups, vs);
    SelectionIsOnce(all, groups, vs, Itself());
    forall x | x in selected ensures Certain(rows)(x) {
      SelectedIsCertain(rows, groups, vs, x);
    }
    forall x, y | x in selected && y in selected && Connected(all, x, y) ensures x == y {
      SelectionIsSeparate(all, groups, vs, Itself(), x, y);
    }
    forall i: nat | Certain(rows)(i) ensures Represented(rows, all, selected, i) {
      SelectionCovers(rows, all, groups, vs, i);
    }
  }

  function ById(rows: seq<Message>): (nat, nat) -> bool {
    (a: nat, b: nat) => IdOf(rows)(a) <= IdOf(rows)(b)
  }

  ghost predicate IdsRise(rows: seq<Message>, s: seq<nat>) {
    forall a, b :: 0 <= a < b < |s| && s[a] < |rows| && s[b] < |rows| ==> rows[s[a]].id <= rows[s[b]].id
  }

  /** What a successful audit promises; aside is the source's uncertain counter. */
  ghost predicate Audited(rows: seq<Message>, all: seq<Row>, report: Report<nat>) {
    && OnePerCampaign(rows, all, multiset(report.selected))
    && IdsRise(rows, report.selected)
    && report.aside == |Total(|all|, Unsure(rows))|
    && |rows| == |report.selected| + report.aside + report.duplicates
  }

  lemma SortedById(rows: seq<Message>, s: seq<nat>)
    requires Sorted(s, ById(rows))
    ensures IdsRise(rows, s)
  {
    forall a, b | 0 <= a < b < |s| && s[a] < |rows| && s[b] < |rows| ensures rows[s[a]].id <= rows[s[b]].id {
      assert ById(rows)(s[a], s[b]);
      assert IdOf(rows)(s[a]) == rows[s[a]].id && IdOf(rows)(s[b]) == rows[s[b]].id;
    }
  }

  lemma AcceptedReport(rows: seq<Message>, all: seq<Row>, groups: seq<seq<nat>>, vs: seq<Verdict<nat>>)
    requires Components(all, groups) && |rows| <= |all| && Judged(rows, groups, vs) && Accepted(vs, |vs|)
    ensures var report := Accounted(vs, |vs|);
            Audited(rows, all, report.(selected := Sort(report.selected, ById(rows))))
  {
    SelectionRepresents(rows, all, groups, vs);
    SortMultiset(Accounted(vs, |vs|).selected, ById(rows));
    SortSorted(Accounted(vs, |vs|).selected, ById(rows));
    SortedById(rows, Sort(Accounted(vs, |vs|).selected, ById(rows)));
    forall g | 0 <= g < |vs| ensures Sized(vs[g], groups[g], Mine(rows), Unsure(rows)) {
      VerdictSizes(rows, groups[g]);
    }
    CountersMatch(groups, vs, |vs|, Mine(rows), Unsure(rows));
    SizesAreTotal(all, groups, Mine(rows));
    SizesAreTotal(all, groups, Unsure(rows));
    TotalBelow(|all|, |rows|, Mine(rows));
  }

  /** Accepting every group is the same as being separable. */
  lemma AcceptanceIsSeparability(rows: seq<Message>, all: seq<Row>, groups: seq<seq<nat>>, vs: seq<Verdict<nat>>)
    requires Components(all, groups) && |rows| <= |all| && Judged(rows, groups, vs)
    ensures Separable(rows, all) <==> Accepted(vs, |vs|)
  {
    if Accepted(vs, |vs|) {
      AcceptedMeansSeparable(rows, all, groups);
    } else {
      var g: nat :| g < |vs| && vs[g] == Rejected;
      RefusedMeansInseparable(rows, all, groups, g);
    }
  }

  /** The loop over groups; stops at the first refused one. */
  method SelectGroups(rows: seq<Message>, groups: seq<seq<nat>>) returns (r: Result<Report<nat>>, ghost vs: seq<Verdict<nat>>)
    ensures Judged(rows, groups, vs)
    ensures r.Ok? <==> Accepted(vs, |vs|)
    ensures r.Ok? ==> r.value == Accounted(vs, |vs|)
  {
    vs := Verdicts(rows, groups);
    r := AccountAll(rows, groups, vs);
  }

  method AccountAll(rows: seq<Message>, groups: seq<seq<nat>>, ghost vs: seq<Verdict<nat>>) returns (r: Result<Report<nat>>)
    requires Judged(rows, groups, vs)
    ensures r.Ok? <==> Accepted(vs, |vs|)
    ensures r.Ok? ==> r.value == Accounted(vs, |vs|)
  {
    var report: Report<nat> := Report([], 0, 0);
    for k := 0 to |groups|
      invariant Accepted(vs, k) && report == Accounted(vs, k)
    {
      var verdict := Inspect(rows, groups[k]);
      if verdict.Rejected? {
        return Err;
      }
      report := Account(verdict, report);
    }
    r := Ok(report);
  }

  /** One row per campaign, or a refusal; nothing is lost in the counters. */
  method AuditGroups(rows: seq<Message>, history: seq<Row>) returns (r: Result<Report<nat>>)
    ensures var all := Provenance(rows) + history;
            r.Ok? <==> && (forall i :: 0 <= i < |all| ==> Usable(Refused, all[i]))
                       && Comparisons(all, |all|) <= BUDGET
                       && Separable(rows, all)
    ensures r.Ok? ==> Audited(rows, Provenance(rows) + history, r.value)
  {
    var all := Provenance(rows) + history;
    var groups := Group(all, Refused);
    if groups.Err? {
      return Err;
    }
    var report, vs := SelectGroups(rows, groups.value);
    AcceptanceIsSeparability(rows, all, groups.value, vs);
    if report.Err? {
      return Err;
    }
    AcceptedReport(rows, all, groups.value, vs);
    r := Ok(report.value.(selected := Sort(report.value.selected, ById(rows))));
  }
}

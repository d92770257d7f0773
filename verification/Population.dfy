/**
 Population metrics with missing predictions: the conservative numbers bound every way of
 filling the gaps, for messages and for campaigns.
 */
module Population {
  import opened Options
  import opened Orders

  /** The known truth and the recorded prediction of one message, either may be missing. */
  datatype Cell = Cell(spam: Option<bool>, prediction: Option<bool>)

  datatype Pair = Pair(spam: bool, flagged: bool)

  datatype Confusion = Confusion(tp: nat, fp: nat, fn: nat, tn: nat)

  // ---------------------------------------------------------------- confusion counts

  function Cased(spam: bool, flagged: bool): Pair -> bool { (p: Pair) => p == Pair(spam, flagged) }

  function Labelled(spam: bool): Pair -> bool { (p: Pair) => p.spam == spam }

  lemma {:induction false} CasesSplit(pairs: seq<Pair>, spam: bool)
    ensures Count(pairs, Labelled(spam)) == Count(pairs, Cased(spam, true)) + Count(pairs, Cased(spam, false))
  {
    if pairs != [] {
      CasesSplit(pairs[..|pairs| - 1], spam);
    }
  }

  /** Hits and alarms are counted, misses and passes are the remainders. */
  function Confuse(pairs: seq<Pair>): (c: Confusion)
    ensures c.tp == Count(pairs, Cased(true, true)) && c.fp == Count(pairs, Cased(false, true))
    ensures c.fn == Count(pairs, Cased(true, false)) && c.tn == Count(pairs, Cased(false, false))
  {
    var tp, fp := Count(pairs, Cased(true, true)), Count(pairs, Cased(false, true));
    CasesSplit(pairs, true);
    CasesSplit(pairs, false);
    Confusion(tp, fp, Count(pairs, Labelled(true)) - tp, Count(pairs, Labelled(false)) - fp)
  }

  /** a is at least as pessimistic as b, pair by pair. */
  ghost predicate Pessimistic(a: seq<Pair>, b: seq<Pair>) {
    |a| == |b| && forall i :: 0 <= i < |a| ==> Worse(a[i], b[i])
  }

  predicate Worse(p: Pair, q: Pair) {
    p.spam == q.spam && if p.spam then p.flagged ==> q.flagged else q.flagged ==> p.flagged
  }

  /** No better in any of the four counts. */
  predicate Bounds(c: Confusion, d: Confusion) {
    && c.tp <= d.tp && c.fp >= d.fp && c.fn >= d.fn && c.tn <= d.tn
    && c.tp + c.fn == d.tp + d.fn && c.fp + c.tn == d.fp + d.tn
  }

  lemma {:induction false} PessimismBounds(a: seq<Pair>, b: seq<Pair>)
    requires Pessimistic(a, b)
    ensures Bounds(Confuse(a), Confuse(b))
  {
    if a != [] {
      var n := |a| - 1;
      PessimismBounds(a[..n], b[..n]);
      assert Worse(a[n], b[n]);
      assert a == a[..n] + [a[n]] && b == b[..n] + [b[n]];
    }
  }

  /** Fewer hits and more alarms also mean no better precision, as a comparison of products. */
  lemma BoundsPrecision(c: Confusion, d: Confusion)
    requires Bounds(c, d)
    ensures c.tp * (d.tp + d.fp) <= d.tp * (c.tp + c.fp)
  {
    assert c.tp * d.fp <= d.tp * c.fp by {
      Products(c.tp, d.tp, d.fp, c.fp);
    }
    assert c.tp * (d.tp + d.fp) == c.tp * d.tp + c.tp * d.fp;
    assert d.tp * (c.tp + c.fp) == d.tp * c.tp + d.tp * c.fp;
  }

  lemma Products(a: nat, b: nat, x: nat, y: nat)
    requires a <= b && x <= y
    ensures a * x <= b * y
  {
    assert b * y - a * x == b * (y - x) + (b - a) * x;
  }

  // ---------------------------------------------------------------- messages

  function Known(): Cell -> bool { (c: Cell) => c.spam.Some? }

  /** A missing prediction counts against the truth. */
  function Verdict(c: Cell, spam: bool): bool {
    if c.prediction.Some? then c.prediction.value else !spam
  }

  function Judge(): Cell -> Pair {
    (c: Cell) => if c.spam.Some? then Pair(c.spam.value, Verdict(c, c.spam.value)) else Pair(false, false)
  }

  function Conservative(cells: seq<Cell>): seq<Pair> { Image(Keep(cells, Known()), Judge()) }

  function Assessed(): Cell -> bool { (c: Cell) => c.spam.Some? && c.prediction.Some? }

  function Conditional(cells: seq<Cell>): seq<Pair> { Image(Keep(cells, Assessed()), Judge()) }

  // ---------------------------------------------------------------- campaigns

  datatype Truth = Unresolved | Mixed | Settled(unwanted: bool)

  ghost predicate InRange(cells: seq<Cell>, group: seq<nat>) {
    forall k :: 0 <= k < |group| ==> group[k] < |cells|
  }

  predicate Uniform(cells: seq<Cell>, group: seq<nat>, spam: bool)
    requires InRange(cells, group)
  {
    group != [] && forall k :: 0 <= k < |group| ==> cells[group[k]].spam == Some(spam)
  }

  function TruthOf(cells: seq<Cell>, group: seq<nat>): Truth
    requires InRange(cells, group)
  {
    if exists k :: 0 <= k < |group| && cells[group[k]].spam == None then Unresolved
    else if Uniform(cells, group, true) then Settled(true)
    else if Uniform(cells, group, false) then Settled(false)
    else Mixed
  }

  /** Every copy of an unwanted campaign must be caught; any alarm spoils a legitimate one. */
  function Stable(cells: seq<Cell>, group: seq<nat>, unwanted: bool): bool
    requires InRange(cells, group)
  {
    if unwanted then forall k :: 0 <= k < |group| ==> Verdict(cells[group[k]], true)
    else exists k :: 0 <= k < |group| && Verdict(cells[group[k]], false)
  }

  ghost predicate AllInRange(cells: seq<Cell>, groups: seq<seq<nat>>) {
    forall g :: 0 <= g < |groups| ==> InRange(cells, groups[g])
  }

  function CampaignPairs(cells: seq<Cell>, groups: seq<seq<nat>>): seq<Pair>
    requires AllInRange(cells, groups)
  {
    if groups == [] then []
    else
      var n := |groups| - 1;
      var t, rest := TruthOf(cells, groups[n]), CampaignPairs(cells, groups[..n]);
      if t.Settled? then rest + [Pair(t.unwanted, Stable(cells, groups[n], t.unwanted))] else rest
  }

  function CampaignsWith(cells: seq<Cell>, groups: seq<seq<nat>>, t: Truth): nat
    requires AllInRange(cells, groups)
  {
    if groups == [] then 0
    else
      var n := |groups| - 1;
      CampaignsWith(cells, groups[..n], t) + if TruthOf(cells, groups[n]) == t then 1 else 0
  }

  // ---------------------------------------------------------------- the counts on the cells themselves

  function Seen(spam: bool, prediction: bool): Cell -> bool { (c: Cell) => c == Cell(Some(spam), Some(prediction)) }

  /** The truth is known, and the prediction is not the right one. */
  function Wrong(spam: bool): Cell -> bool { (c: Cell) => c.spam == Some(spam) && c.prediction != Some(spam) }

  /** Only a recorded right prediction counts as a hit or a pass; anything else is an error. */
  predicate MessageCounts(cells: seq<Cell>, c: Confusion) {
    && c.tp == Count(cells, Seen(true, true)) && c.fn == Count(cells, Wrong(true))
    && c.fp == Count(cells, Wrong(false)) && c.tn == Count(cells, Seen(false, false))
  }

  predicate AssessedCounts(cells: seq<Cell>, c: Confusion) {
    && c.tp == Count(cells, Seen(true, true)) && c.fn == Count(cells, Seen(true, false))
    && c.fp == Count(cells, Seen(false, true)) && c.tn == Count(cells, Seen(false, false))
  }

  lemma MessagesCounted(cells: seq<Cell>)
    ensures MessageCounts(cells, Confuse(Conservative(cells))) && AssessedCounts(cells, Confuse(Conditional(cells)))
  {
    CountImage(cells, Judge(), Known(), Cased(true, true), Seen(true, true));
    CountImage(cells, Judge(), Known(), Cased(true, false), Wrong(true));
    CountImage(cells, Judge(), Known(), Cased(false, true), Wrong(false));
    CountImage(cells, Judge(), Known(), Cased(false, false), Seen(false, false));
    CountImage(cells, Judge(), Assessed(), Cased(true, true), Seen(true, true));
    CountImage(cells, Judge(), Assessed(), Cased(true, false), Seen(true, false));
    CountImage(cells, Judge(), Assessed(), Cased(false, true), Seen(false, true));
    CountImage(cells, Judge(), Assessed(), Cased(false, false), Seen(false, false));
  }

  /** Every message of a nonempty group has the truth. */
  predicate AllAre(cells: seq<Cell>, g: seq<nat>, spam: bool) {
    g != [] && forall k :: 0 <= k < |g| ==> g[k] < |cells| && cells[g[k]].spam == Some(spam)
  }

  /** Every message of the group is predicted right. */
  predicate AllRight(cells: seq<Cell>, g: seq<nat>, spam: bool) {
    forall k :: 0 <= k < |g| ==> g[k] < |cells| && cells[g[k]].prediction == Some(spam)
  }

  predicate SomeUnknown(cells: seq<Cell>, g: seq<nat>) {
    exists k :: 0 <= k < |g| && g[k] < |cells| && cells[g[k]].spam.None?
  }

  function Right(cells: seq<Cell>, spam: bool): seq<nat> -> bool {
    (g: seq<nat>) => AllAre(cells, g, spam) && AllRight(cells, g, spam)
  }

  function Spoiled(cells: seq<Cell>, spam: bool): seq<nat> -> bool {
    (g: seq<nat>) => AllAre(cells, g, spam) && !AllRight(cells, g, spam)
  }

  function Undecided(cells: seq<Cell>): seq<nat> -> bool { (g: seq<nat>) => SomeUnknown(cells, g) }

  function Blended(cells: seq<Cell>): seq<nat> -> bool {
    (g: seq<nat>) => !SomeUnknown(cells, g) && !AllAre(cells, g, true) && !AllAre(cells, g, false)
  }

  /**
   A campaign of one truth is right only if all its messages are recorded right: an unwanted one
   is caught, a legitimate one passed, and one wrong or missing prediction spoils it.
   */
  predicate CampaignCounts(cells: seq<Cell>, groups: seq<seq<nat>>, c: Confusion, unresolved: nat, mixed: nat) {
    && c.tp == Count(groups, Right(cells, true)) && c.fn == Count(groups, Spoiled(cells, true))
    && c.fp == Count(groups, Spoiled(cells, false)) && c.tn == Count(groups, Right(cells, false))
    && unresolved == Count(groups, Undecided(cells)) && mixed == Count(groups, Blended(cells))
  }

  lemma VerdictMeans(c: Cell, spam: bool)
    ensures Verdict(c, spam) == spam <==> c.prediction == Some(spam)
  {
    if c.prediction.Some? {
      assert c.prediction == (if c.prediction.value then Some(true) else Some(false));
    }
  }

  /** A group of one truth is stable as it should be exactly when all its predictions are right. */
  lemma StableMeans(cells: seq<Cell>, g: seq<nat>, spam: bool)
    requires InRange(cells, g)
    ensures Stable(cells, g, spam) == spam <==> AllRight(cells, g, spam)
  {
    forall k | 0 <= k < |g| ensures Verdict(cells[g[k]], spam) == spam <==> cells[g[k]].prediction == Some(spam) {
      VerdictMeans(cells[g[k]], spam);
    }
  }

  lemma TruthMeans(cells: seq<Cell>, g: seq<nat>)
    requires InRange(cells, g)
    ensures TruthOf(cells, g) == Unresolved <==> SomeUnknown(cells, g)
    ensures TruthOf(cells, g) == Settled(true) <==> AllAre(cells, g, true)
    ensures TruthOf(cells, g) == Settled(false) <==> AllAre(cells, g, false)
    ensures TruthOf(cells, g) == Mixed <==> Blended(cells)(g)
  {
    assert AllAre(cells, g, true) <==> Uniform(cells, g, true);
    assert AllAre(cells, g, false) <==> Uniform(cells, g, false);
    if g != [] {
      assert AllAre(cells, g, true) ==> cells[g[0]].spam == Some(true);
      assert AllAre(cells, g, false) ==> cells[g[0]].spam == Some(false);
    }
  }

  /** What one group adds to each count. */
  lemma GroupCounted(cells: seq<Cell>, groups: seq<seq<nat>>, n: nat)
    requires AllInRange(cells, groups) && |groups| == n + 1
    ensures AllInRange(cells, groups[..n])
    ensures var c, d := Confuse(CampaignPairs(cells, groups[..n])), Confuse(CampaignPairs(cells, groups));
            && d.tp == c.tp + (if Right(cells, true)(groups[n]) then 1 else 0)
            && d.fn == c.fn + (if Spoiled(cells, true)(groups[n]) then 1 else 0)
            && d.fp == c.fp + (if Spoiled(cells, false)(groups[n]) then 1 else 0)
            && d.tn == c.tn + (if Right(cells, false)(groups[n]) then 1 else 0)
  {
    var g := groups[n];
    var t := TruthOf(cells, g);
    TruthMeans(cells, g);
    if t.Settled? {
      StableMeans(cells, g, t.unwanted);
      PairCounted(CampaignPairs(cells, groups[..n]), Pair(t.unwanted, Stable(cells, g, t.unwanted)));
      assert t == Settled(true) || t == Settled(false);
    }
  }

  lemma {:induction false} PairsCounted(cells: seq<Cell>, groups: seq<seq<nat>>)
    requires AllInRange(cells, groups)
    ensures var c := Confuse(CampaignPairs(cells, groups));
            && c.tp == Count(groups, Right(cells, true)) && c.fn == Count(groups, Spoiled(cells, true))
            && c.fp == Count(groups, Spoiled(cells, false)) && c.tn == Count(groups, Right(cells, false))
  {
    if groups != [] {
      PairsCounted(cells, groups[..|groups| - 1]);
      GroupCounted(cells, groups, |groups| - 1);
    }
  }

  lemma {:induction false} TruthsCounted(cells: seq<Cell>, groups: seq<seq<nat>>)
    requires AllInRange(cells, groups)
    ensures CampaignsWith(cells, groups, Unresolved) == Count(groups, Undecided(cells))
    ensures CampaignsWith(cells, groups, Mixed) == Count(groups, Blended(cells))
  {
    if groups != [] {
      TruthsCounted(cells, groups[..|groups| - 1]);
      TruthMeans(cells, groups[|groups| - 1]);
    }
  }

  lemma CampaignsCounted(cells: seq<Cell>, groups: seq<seq<nat>>)
    requires AllInRange(cells, groups)
    ensures CampaignCounts(cells, groups, Confuse(CampaignPairs(cells, groups)),
                           CampaignsWith(cells, groups, Unresolved), CampaignsWith(cells, groups, Mixed))
  {
    PairsCounted(cells, groups);
    TruthsCounted(cells, groups);
  }

  /** One more pair adds to exactly one of the four counts. */
  lemma PairCounted(pairs: seq<Pair>, p: Pair)
    ensures var c, d := Confuse(pairs), Confuse(pairs + [p]);
            && d.tp == c.tp + (if p == Pair(true, true) then 1 else 0)
            && d.fp == c.fp + (if p == Pair(false, true) then 1 else 0)
            && d.fn == c.fn + (if p == Pair(true, false) then 1 else 0)
            && d.tn == c.tn + (if p == Pair(false, false) then 1 else 0)
  {
    CountSnoc(pairs, p, Cased(true, true));
    CountSnoc(pairs, p, Cased(false, true));
    CountSnoc(pairs, p, Cased(true, false));
    CountSnoc(pairs, p, Cased(false, false));
  }

  // ---------------------------------------------------------------- report

  datatype Report = Report(population: nat, labelled: nat, unknownTruth: nat, assessed: nat, unassessable: nat,
                           unassessableWithTruth: nat, unassessableLegit: nat, unassessableUnwanted: nat,
                           conditional: Confusion, conservative: Confusion,
                           campaigns: nat, unresolved: nat, mixed: nat, stability: Confusion)

  function Missing(): Cell -> bool { (c: Cell) => c.prediction.None? }

  function Recorded(): Cell -> bool { (c: Cell) => c.prediction != None }

  function MissingKnown(): Cell -> bool { (c: Cell) => c.spam.Some? && c.prediction.None? }

  function MissingWith(spam: bool): Cell -> bool { (c: Cell) => c.spam == Some(spam) && c.prediction.None? }

  method Campaign(cells: seq<Cell>, group: seq<nat>) returns (t: Truth, flagged: bool)
    requires InRange(cells, group)
    ensures t == TruthOf(cells, group)
    ensures t.Settled? ==> flagged == Stable(cells, group, t.unwanted)
  {
    var labels := set k | 0 <= k < |group| :: cells[group[k]].spam;
    flagged := false;
    if None in labels {
      return Unresolved, false;
    }
    if labels == {Some(true)} {
      assert group != [];
      assert forall k :: 0 <= k < |group| ==> cells[group[k]].spam in labels;
      t := Settled(true);
    } else if labels == {Some(false)} {
      assert group != [];
      assert forall k :: 0 <= k < |group| ==> cells[group[k]].spam in labels;
      t := Settled(false);
    } else {
      NotUniform(cells, group, labels, true);
      NotUniform(cells, group, labels, false);
      return Mixed, false;
    }
    var values := seq(|group|, k requires 0 <= k < |group| && group[k] < |cells| =>
      if cells[group[k]].prediction.Some? then cells[group[k]].prediction.value else !t.unwanted);
    flagged := if t.unwanted then false !in values else true in values;
    FlaggedIsStable(cells, group, t.unwanted, values);
  }

  lemma FlaggedIsStable(cells: seq<Cell>, group: seq<nat>, unwanted: bool, values: seq<bool>)
    requires InRange(cells, group) && |values| == |group|
    requires forall k :: 0 <= k < |group| ==> values[k] == Verdict(cells[group[k]], unwanted)
    ensures Stable(cells, group, unwanted) == if unwanted then false !in values else true in values
  {
    assert forall k :: 0 <= k < |values| ==> values[k] in values;
  }

  lemma NotUniform(cells: seq<Cell>, group: seq<nat>, labels: set<Option<bool>>, spam: bool)
    requires InRange(cells, group) && labels == set k | 0 <= k < |group| :: cells[group[k]].spam
    ensures Uniform(cells, group, spam) ==> labels == {Some(spam)}
  {
    if Uniform(cells, group, spam) {
      assert cells[group[0]].spam in labels;
    }
  }

  lemma CampaignStep(cells: seq<Cell>, groups: seq<seq<nat>>, i: nat)
    requires AllInRange(cells, groups) && i < |groups|
    ensures AllInRange(cells, groups[..i]) && AllInRange(cells, groups[..i + 1])
    ensures var t := TruthOf(cells, groups[i]);
            && CampaignPairs(cells, groups[..i + 1])
               == CampaignPairs(cells, groups[..i])
                  + (if t.Settled? then [Pair(t.unwanted, Stable(cells, groups[i], t.unwanted))] else [])
            && (forall u :: CampaignsWith(cells, groups[..i + 1], u)
                            == CampaignsWith(cells, groups[..i], u) + if t == u then 1 else 0)
  {
    assert groups[..i + 1][..i] == groups[..i] && groups[..i + 1][i] == groups[i];
  }

  /** Messages by comprehension, campaigns by a loop over the groups. */
  method OutcomeMetrics(cells: seq<Cell>, groups: seq<seq<nat>>) returns (r: Report)
    requires AllInRange(cells, groups)
    ensures r.conservative == Confuse(Conservative(cells)) && r.conditional == Confuse(Conditional(cells))
    ensures r.stability == Confuse(CampaignPairs(cells, groups))
    ensures MessageCounts(cells, r.conservative) && AssessedCounts(cells, r.conditional)
    ensures CampaignCounts(cells, groups, r.stability, r.unresolved, r.mixed)
    ensures r.campaigns == r.unresolved + r.mixed + r.stability.tp + r.stability.fp + r.stability.fn + r.stability.tn
    ensures r.campaigns == |groups| && r.unresolved == CampaignsWith(cells, groups, Unresolved)
    ensures r.mixed == CampaignsWith(cells, groups, Mixed)
    ensures r.population == r.labelled + r.unknownTruth && r.labelled == r.assessed + r.unassessableWithTruth
    ensures r.unassessableWithTruth == r.unassessableLegit + r.unassessableUnwanted
    ensures r.unassessableWithTruth <= r.unassessable
    ensures r.population == |cells| && r.labelled == Count(cells, Known()) && r.assessed == Count(cells, Assessed())
    ensures r.unassessable == Count(cells, Missing()) == |cells| - Count(cells, Recorded())
    ensures r.unassessableLegit == Count(cells, MissingWith(false))
    ensures r.unassessableUnwanted == Count(cells, MissingWith(true))
  {
    var pairs, unresolved, mixed := [], 0, 0;
    assert groups[..0] == [];
    for i := 0 to |groups|
      invariant AllInRange(cells, groups[..i]) && pairs == CampaignPairs(cells, groups[..i])
      invariant unresolved == CampaignsWith(cells, groups[..i], Unresolved)
      invariant mixed == CampaignsWith(cells, groups[..i], Mixed)
      invariant i == unresolved + mixed + |pairs|
    {
      CampaignStep(cells, groups, i);
      var t, flagged := Campaign(cells, groups[i]);
      match t
      case Unresolved => unresolved := unresolved + 1;
      case Mixed => mixed := mixed + 1;
      case Settled(unwanted) => pairs := pairs + [Pair(unwanted, flagged)];
    }
    assert groups[..|groups|] == groups;
    CoverageCounts(cells);
    CasesCover(pairs);
    MessagesCounted(cells);
    CampaignsCounted(cells, groups);
    var labelled := Count(cells, Known());
    r := Report(|cells|, labelled, |cells| - labelled, Count(cells, Assessed()), Count(cells, Missing()),
                Count(cells, MissingKnown()), Count(cells, MissingWith(false)), Count(cells, MissingWith(true)),
                Confuse(Conditional(cells)), Confuse(Conservative(cells)),
                |groups|, unresolved, mixed, Confuse(pairs));
  }

  lemma {:induction false} CasesCover(pairs: seq<Pair>)
    ensures var c := Confuse(pairs); c.tp + c.fp + c.fn + c.tn == |pairs|
  {
    if pairs != [] {
      CasesCover(pairs[..|pairs| - 1]);
    }
  }

  /** The coverage counters partition the population. */
  lemma {:induction false} CoverageCounts(cells: seq<Cell>)
    ensures Count(cells, Known()) <= |cells|
    ensures Count(cells, Known()) == Count(cells, Assessed()) + Count(cells, MissingKnown())
    ensures Count(cells, MissingKnown()) == Count(cells, MissingWith(false)) + Count(cells, MissingWith(true))
    ensures Count(cells, MissingKnown()) <= Count(cells, Missing())
    ensures Count(cells, Missing()) + Count(cells, Recorded()) == |cells|
  {
    if cells != [] {
      CoverageCounts(cells[..|cells| - 1]);
      var last := cells[|cells| - 1];
      if last.spam.Some? {
        assert last.spam == (if last.spam.value then Some(true) else Some(false));
      }
    }
  }

  // ---------------------------------------------------------------- completions

  /** full fills every missing prediction of cells, in any way. */
  ghost predicate Completes(full: seq<Cell>, cells: seq<Cell>) {
    && |full| == |cells|
    && forall i :: 0 <= i < |cells| ==> Fills(full[i], cells[i])
  }

  predicate Fills(f: Cell, c: Cell) {
    f.spam == c.spam && f.prediction.Some? && (c.prediction.Some? ==> f.prediction == c.prediction)
  }

  lemma {:induction false} MessagesPessimistic(cells: seq<Cell>, full: seq<Cell>)
    requires Completes(full, cells)
    ensures Pessimistic(Conservative(cells), Conservative(full))
  {
    if cells != [] {
      var n := |cells| - 1;
      MessagesPessimistic(cells[..n], full[..n]);
      assert Fills(full[n], cells[n]);
      ConservativeStep(cells);
      ConservativeStep(full);
    }
  }

  lemma ConservativeStep(cells: seq<Cell>)
    requires cells != []
    ensures var n := |cells| - 1;
            Conservative(cells) == Conservative(cells[..n]) + if cells[n].spam.Some? then [Judge()(cells[n])] else []
  {
  }

  lemma {:induction false} CampaignsPessimistic(cells: seq<Cell>, full: seq<Cell>, groups: seq<seq<nat>>)
    requires Completes(full, cells) && AllInRange(cells, groups)
    ensures AllInRange(full, groups) && Pessimistic(CampaignPairs(cells, groups), CampaignPairs(full, groups))
  {
    assert AllInRange(full, groups);
    if groups != [] {
      var n := |groups| - 1;
      CampaignsPessimistic(cells, full, groups[..n]);
    }
  }

  /** The conservative counts are no better than those of any completion, per message and per campaign. */
  lemma ConservativeBoundsEveryCompletion(cells: seq<Cell>, full: seq<Cell>, groups: seq<seq<nat>>)
    requires Completes(full, cells) && AllInRange(cells, groups)
    ensures AllInRange(full, groups)
    ensures Bounds(Confuse(Conservative(cells)), Confuse(Conservative(full)))
    ensures Bounds(Confuse(CampaignPairs(cells, groups)), Confuse(CampaignPairs(full, groups)))
  {
    MessagesPessimistic(cells, full);
    CampaignsPessimistic(cells, full, groups);
    PessimismBounds(Conservative(cells), Conservative(full));
    PessimismBounds(CampaignPairs(cells, groups), CampaignPairs(full, groups));
  }

  /** Fills every gap against the truth. */
  function Worst(cells: seq<Cell>): (full: seq<Cell>)
    ensures |full| == |cells|
  {
    seq(|cells|, i requires 0 <= i < |cells| =>
      cells[i].(prediction := Some(Verdict(cells[i], cells[i].spam == Some(true)))))
  }

  lemma {:induction false} WorstMessages(cells: seq<Cell>)
    ensures Conservative(Worst(cells)) == Conservative(cells)
  {
    if cells != [] {
      var n := |cells| - 1;
      WorstMessages(cells[..n]);
      assert Worst(cells)[..n] == Worst(cells[..n]);
      ConservativeStep(cells);
      ConservativeStep(Worst(cells));
    }
  }

  lemma {:induction false} WorstCampaigns(cells: seq<Cell>, groups: seq<seq<nat>>)
    requires AllInRange(cells, groups)
    ensures AllInRange(Worst(cells), groups) && CampaignPairs(Worst(cells), groups) == CampaignPairs(cells, groups)
  {
    assert AllInRange(Worst(cells), groups);
    if groups != [] {
      var n := |groups| - 1;
      var g := groups[n];
      WorstCampaigns(cells, groups[..n]);
      var t := TruthOf(cells, g);
      if t.Settled? {
        assert forall k :: 0 <= k < |g| ==> cells[g[k]].spam == Some(t.unwanted);
        assert forall k :: 0 <= k < |g| ==> Verdict(Worst(cells)[g[k]], t.unwanted) == Verdict(cells[g[k]], t.unwanted);
      }
    }
  }

  /** One completion attains all the conservative counts at once. */
  lemma ConservativeIsAttained(cells: seq<Cell>, groups: seq<seq<nat>>)
    requires AllInRange(cells, groups)
    ensures Completes(Worst(cells), cells) && AllInRange(Worst(cells), groups)
    ensures Confuse(Conservative(Worst(cells))) == Confuse(Conservative(cells))
    ensures Confuse(CampaignPairs(Worst(cells), groups)) == Confuse(CampaignPairs(cells, groups))
  {
    WorstMessages(cells);
    WorstCampaigns(cells, groups);
  }

  /** One more pair adds to exactly one of the four counts. */
  function Plus(c: Confusion, p: Pair): Confusion {
    match p
    case Pair(true, true) => c.(tp := c.tp + 1)
    case Pair(false, true) => c.(fp := c.fp + 1)
    case Pair(true, false) => c.(fn := c.fn + 1)
    case Pair(false, false) => c.(tn := c.tn + 1)
  }

  lemma ConservativeConfusion(cells: seq<Cell>, n: nat)
    requires |cells| == n + 1
    ensures Confuse(Conservative(cells))
            == if cells[n].spam.Some? then Plus(Confuse(Conservative(cells[..n])), Judge()(cells[n]))
               else Confuse(Conservative(cells[..n]))
  {
    ConservativeStep(cells);
    assert Conservative(cells[..n]) + [] == Conservative(cells[..n]);
  }

  lemma ConditionalConfusion(cells: seq<Cell>, n: nat)
    requires |cells| == n + 1
    ensures Confuse(Conditional(cells))
            == if Assessed()(cells[n]) then Plus(Confuse(Conditional(cells[..n])), Judge()(cells[n]))
               else Confuse(Conditional(cells[..n]))
  {
    assert Conditional(cells) == Conditional(cells[..n]) + if Assessed()(cells[n]) then [Judge()(cells[n])] else [];
    assert Conditional(cells[..n]) + [] == Conditional(cells[..n]);
  }

  /** all exceeds seen by so many alarms and misses and by nothing else. */
  predicate Exceeds(all: Confusion, seen: Confusion, alarms: nat, misses: nat) {
    all == seen.(fp := seen.fp + alarms, fn := seen.fn + misses)
  }

  lemma ExceedsStep(all: Confusion, seen: Confusion, alarms: nat, misses: nat, c: Cell)
    requires Exceeds(all, seen, alarms, misses)
    ensures Exceeds(if c.spam.Some? then Plus(all, Judge()(c)) else all,
                    if Assessed()(c) then Plus(seen, Judge()(c)) else seen,
                    alarms + (if MissingWith(false)(c) then 1 else 0), misses + (if MissingWith(true)(c) then 1 else 0))
  {
  }

  /** A missing prediction adds a miss or an alarm to the assessed counts and nothing else. */
  lemma {:induction false} ConservativeAddsErrors(cells: seq<Cell>)
    ensures Exceeds(Confuse(Conservative(cells)), Confuse(Conditional(cells)),
                    Count(cells, MissingWith(false)), Count(cells, MissingWith(true)))
  {
    if cells != [] {
      var n := |cells| - 1;
      ConservativeAddsErrors(cells[..n]);
      ConservativeConfusion(cells, n);
      ConditionalConfusion(cells, n);
      ExceedsStep(Confuse(Conservative(cells[..n])), Confuse(Conditional(cells[..n])),
                  Count(cells[..n], MissingWith(false)), Count(cells[..n], MissingWith(true)), cells[n]);
    }
  }
}

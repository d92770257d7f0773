/**
 The declarative meaning of a campaign: connected components of "same declared
 key, or SimHash distance at most three", with no reference to any index.
 */
module CampaignGraph {
  import opened SimHash
  import opened UnionFind

  /** A provenance field: missing, present but not canonical hex, or usable. */
  datatype Field<+T> = Absent | Malformed | Hex(value: T)

  /** keys lists the exact-match fields in a fixed order (fingerprint, campaign, ...). */
  datatype Row = Row(keys: seq<Field<string>>, simhash: Field<Hash>)

  /** Absent or malformed keys never match anything. */
  predicate SameKey(a: Row, b: Row) {
    exists f :: 0 <= f < |a.keys| && f < |b.keys| && a.keys[f].Hex? && a.keys[f] == b.keys[f]
  }

  predicate Near(a: Row, b: Row) {
    a.simhash.Hex? && b.simhash.Hex? && Distance(a.simhash.value, b.simhash.value) <= RADIUS
  }

  predicate Linked(a: Row, b: Row) {
    SameKey(a, b) || Near(a, b)
  }

  ghost predicate Walk(rows: seq<Row>, s: seq<nat>) {
    && s != []
    && (forall k :: 0 <= k < |s| ==> s[k] < |rows|)
    && (forall k :: 0 < k < |s| ==> Linked(rows[s[k - 1]], rows[s[k]]))
  }

  /** The transitive closure of Linked, reflexive on valid indices. */
  ghost predicate Connected(rows: seq<Row>, i: nat, j: nat) {
    exists s :: Walk(rows, s) && s[0] == i && s[|s| - 1] == j
  }

  lemma LinkedSymmetric(a: Row, b: Row)
    ensures Linked(a, b) == Linked(b, a)
  {
    if a.simhash.Hex? && b.simhash.Hex? {
      DistanceSymmetric(a.simhash.value, b.simhash.value);
    }
  }

  lemma ConnectedReflexive(rows: seq<Row>, i: nat)
    requires i < |rows|
    ensures Connected(rows, i, i)
  {
    assert Walk(rows, [i]);
  }

  lemma ConnectedByLink(rows: seq<Row>, i: nat, j: nat)
    requires i < |rows| && j < |rows| && Linked(rows[i], rows[j])
    ensures Connected(rows, i, j)
  {
    assert Walk(rows, [i, j]);
  }

  lemma ConnectedSymmetric(rows: seq<Row>, i: nat, j: nat)
    requires Connected(rows, i, j)
    ensures Connected(rows, j, i)
  {
    var s :| Walk(rows, s) && s[0] == i && s[|s| - 1] == j;
    var t := seq(|s|, k requires 0 <= k < |s| => s[|s| - 1 - k]);
    forall k | 0 < k < |t| ensures Linked(rows[t[k - 1]], rows[t[k]]) {
      LinkedSymmetric(rows[s[|s| - 1 - k]], rows[s[|s| - k]]);
    }
    assert Walk(rows, t);
  }

  lemma ConnectedTransitive(rows: seq<Row>, i: nat, j: nat, k: nat)
    requires Connected(rows, i, j) && Connected(rows, j, k)
    ensures Connected(rows, i, k)
  {
    var s :| Walk(rows, s) && s[0] == i && s[|s| - 1] == j;
    var t :| Walk(rows, t) && t[0] == j && t[|t| - 1] == k;
    var u := s + t[1..];
    forall m | 0 < m < |u| ensures Linked(rows[u[m - 1]], rows[u[m]]) {
      if m == |s| {
        assert u[m - 1] == t[0] && u[m] == t[1];
      } else if m > |s| {
        assert u[m] == t[m - |s| + 1] && u[m - 1] == t[m - |s|];
      }
    }
    assert Walk(rows, u);
    assert u[|u| - 1] == k;
  }

  /** Only connected rows carry one label. */
  ghost predicate Sound(rows: seq<Row>, l: seq<nat>) {
    |l| == |rows| && forall i, j {:trigger Connected(rows, i, j)} ::
      0 <= i < |l| && 0 <= j < |l| && l[i] == l[j] ==> Connected(rows, i, j)
  }

  /** Directly linked rows carry one label. */
  ghost predicate Closed(rows: seq<Row>, l: seq<nat>) {
    |l| == |rows| && forall i, j {:trigger Linked(rows[i], rows[j])} ::
      0 <= i < |l| && 0 <= j < |l| && Linked(rows[i], rows[j]) ==> l[i] == l[j]
  }

  lemma MergeKeepsSound(rows: seq<Row>, l: seq<nat>, i: nat, j: nat)
    requires Sound(rows, l) && Canonical(l) && i < |l| && j < |l| && Linked(rows[i], rows[j])
    ensures Sound(rows, Merged(l, i, j))
  {
    var m := Merged(l, i, j);
    MergedIsJoin(l, i, j);
    ConnectedByLink(rows, i, j);
    ConnectedSymmetric(rows, i, j);
    forall a, b | 0 <= a < |m| && 0 <= b < |m| && m[a] == m[b] ensures Connected(rows, a, b) {
      if l[a] != l[b] {
        if l[a] == l[i] {
          ConnectedTransitive(rows, a, i, j);
          ConnectedTransitive(rows, a, j, b);
        } else {
          ConnectedTransitive(rows, a, j, i);
          ConnectedTransitive(rows, a, i, b);
        }
      }
    }
  }

  lemma {:induction false} ClosedFollowsWalks(rows: seq<Row>, l: seq<nat>, s: seq<nat>)
    requires Closed(rows, l) && Walk(rows, s)
    ensures l[s[0]] == l[s[|s| - 1]]
  {
    if |s| > 1 {
      assert Linked(rows[s[0]], rows[s[1]]);
      var t := s[1..];
      forall k | 0 < k < |t| ensures Linked(rows[t[k - 1]], rows[t[k]]) {
        assert t[k - 1] == s[k] && t[k] == s[k + 1];
      }
      ClosedFollowsWalks(rows, l, t);
    }
  }

  /** Sound and closed labels are exactly the components. */
  lemma LabelsAreComponents(rows: seq<Row>, l: seq<nat>, i: nat, j: nat)
    requires Sound(rows, l) && Closed(rows, l) && i < |rows| && j < |rows|
    ensures l[i] == l[j] <==> Connected(rows, i, j)
  {
    if Connected(rows, i, j) {
      var s :| Walk(rows, s) && s[0] == i && s[|s| - 1] == j;
      ClosedFollowsWalks(rows, l, s);
    }
  }

  predicate Ascending(s: seq<nat>) {
    forall a, b :: 0 <= a < b < |s| ==> s[a] < s[b]
  }

  predicate InGroup(groups: seq<seq<nat>>, g: nat, i: nat) {
    g < |groups| && i in groups[g]
  }

  ghost predicate Listed(groups: seq<seq<nat>>, i: nat) {
    exists g: nat :: InGroup(groups, g, i)
  }

  /** Every row is listed, and two listed rows share a list exactly when they are connected. */
  ghost predicate Partition(rows: seq<Row>, groups: seq<seq<nat>>) {
    && (forall g :: 0 <= g < |groups| ==> groups[g] != [])
    && (forall i: nat :: i < |rows| <==> Listed(groups, i))
    && (forall g: nat, h: nat, i: nat, j: nat :: InGroup(groups, g, i) && InGroup(groups, h, j) ==>
          (g == h <==> Connected(rows, i, j)))
  }

  /** The component list in the order the source returns it: by first member, members ascending. */
  ghost predicate Components(rows: seq<Row>, groups: seq<seq<nat>>) {
    && Partition(rows, groups)
    && (forall g :: 0 <= g < |groups| ==> Ascending(groups[g]))
    && (forall g, h :: 0 <= g < h < |groups| ==> groups[g][0] < groups[h][0])
  }

  lemma EmptyTogether(s: seq<nat>, t: seq<nat>)
    requires forall x :: x in s <==> x in t
    ensures s == [] <==> t == []
  {
    if s != [] { assert s[0] in s; }
    if t != [] { assert t[0] in t; }
  }

  lemma {:induction false} AscendingUnique(s: seq<nat>, t: seq<nat>)
    requires Ascending(s) && Ascending(t)
    requires forall x :: x in s <==> x in t
    ensures s == t
  {
    EmptyTogether(s, t);
    if s != [] {
      var a, b := s[|s| - 1], t[|t| - 1];
      assert a in t && b in s;
      var s', t' := s[..|s| - 1], t[..|t| - 1];
      assert s == s' + [a] && t == t' + [b];
      assert a == b;
      forall x ensures x in s' <==> x in t' {
        if x in s' { assert x in s && x != a; assert x in t; }
        if x in t' { assert x in t && x != b; assert x in s; }
      }
      AscendingUnique(s', t');
    }
  }

  /** The first members of the lists, in order. */
  function Leaders(groups: seq<seq<nat>>): (s: seq<nat>)
    requires forall g :: 0 <= g < |groups| ==> groups[g] != []
    ensures |s| == |groups|
  {
    seq(|groups|, g requires 0 <= g < |groups| => groups[g][0])
  }

  lemma LeaderIsLeast(rows: seq<Row>, groups: seq<seq<nat>>, g: nat, j: nat)
    requires Components(rows, groups) && g < |groups| && Connected(rows, groups[g][0], j)
    ensures InGroup(groups, g, j) && groups[g][0] <= j
  {
    assert InGroup(groups, g, groups[g][0]);
    assert Listed(groups, j);
    var h: nat :| InGroup(groups, h, j);
  }

  /** The leader of x's list in one component list leads a list of any other. */
  lemma LeadersTransfer(rows: seq<Row>, a: seq<seq<nat>>, b: seq<seq<nat>>, x: nat)
    requires Components(rows, a) && Components(rows, b) && x in Leaders(a)
    ensures x in Leaders(b)
  {
    var g :| 0 <= g < |a| && Leaders(a)[g] == x;
    assert InGroup(a, g, x);
    assert Listed(a, x) && Listed(b, x);
    var h: nat :| InGroup(b, h, x);
    var y := b[h][0];
    assert InGroup(b, h, y);
    assert Connected(rows, x, y) && Connected(rows, y, x);
    LeaderIsLeast(rows, a, g, y);
    LeaderIsLeast(rows, b, h, x);
    assert Leaders(b)[h] == x;
  }

  /** Lists with one leader have the same members. */
  lemma MembersTransfer(rows: seq<Row>, a: seq<seq<nat>>, b: seq<seq<nat>>, g: nat, y: nat)
    requires Components(rows, a) && Components(rows, b)
    requires g < |a| && g < |b| && a[g][0] == b[g][0] && y in a[g]
    ensures y in b[g]
  {
    assert InGroup(a, g, y) && InGroup(a, g, a[g][0]);
    assert Connected(rows, b[g][0], y);
    LeaderIsLeast(rows, b, g, y);
  }

  /** The specification leaves no freedom: two component lists of one input are equal. */
  lemma ComponentsUnique(rows: seq<Row>, a: seq<seq<nat>>, b: seq<seq<nat>>)
    requires Components(rows, a) && Components(rows, b)
    ensures a == b
  {
    forall x ensures x in Leaders(a) <==> x in Leaders(b) {
      if x in Leaders(a) { LeadersTransfer(rows, a, b, x); }
      if x in Leaders(b) { LeadersTransfer(rows, b, a, x); }
    }
    AscendingUnique(Leaders(a), Leaders(b));
    forall g | 0 <= g < |a| ensures a[g] == b[g] {
      assert Leaders(a)[g] == Leaders(b)[g];
      forall y ensures y in a[g] <==> y in b[g] {
        if y in a[g] { MembersTransfer(rows, a, b, g, y); }
        if y in b[g] { MembersTransfer(rows, b, a, g, y); }
      }
      AscendingUnique(a[g], b[g]);
    }
  }
}

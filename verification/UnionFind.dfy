/**
 The parent forest shared by every campaign-grouping routine of the research
 tools: a list of parent indices, path halving on lookup, and unions that hang
 the larger root below the smaller one.
 */
module UnionFind {

  /** Every link points at or below its own index, so chasing links terminates. */
  predicate Descending(p: seq<nat>) {
    forall i :: 0 <= i < |p| ==> p[i] <= i
  }

  /** The end of the parent chain from i. */
  function Root(p: seq<nat>, i: nat): (r: nat)
    requires Descending(p) && i < |p|
    ensures r <= i && p[r] == r
    decreases i
  {
    if p[i] == i then i else Root(p, p[i])
  }

  /** The class label of every index: the abstract value of a forest. */
  function Labels(p: seq<nat>): (l: seq<nat>)
    requires Descending(p)
    ensures Canonical(l) && |l| == |p|
  {
    var l := seq(|p|, i requires 0 <= i < |p| => Root(p, i));
    assert forall i :: 0 <= i < |p| ==> l[i] == Root(p, i) && l[l[i]] == l[i];
    l
  }

  /** Each label is the least index carrying it. */
  predicate Canonical(l: seq<nat>) {
    forall i :: 0 <= i < |l| ==> l[i] <= i && l[l[i]] == l[i]
  }

  /** The labelling after joining the classes of i and j. */
  function Merged(l: seq<nat>, i: nat, j: nat): (m: seq<nat>)
    requires i < |l| && j < |l|
    ensures |m| == |l|
  {
    var lo, hi := Min(l[i], l[j]), Max(l[i], l[j]);
    seq(|l|, k requires 0 <= k < |l| => if l[k] == hi then lo else l[k])
  }

  function Min(a: nat, b: nat): nat { if a <= b then a else b }

  function Max(a: nat, b: nat): nat { if a <= b then b else a }

  /** No class of l is split by m. */
  predicate Coarser(l: seq<nat>, m: seq<nat>) {
    |l| == |m| && forall i, j :: 0 <= i < |l| && 0 <= j < |l| && l[i] == l[j] ==> m[i] == m[j]
  }

  /** In a canonical labelling the label of a class is its least member. */
  lemma LabelIsLeast(l: seq<nat>, i: nat)
    requires Canonical(l) && i < |l|
    ensures l[i] < |l| && l[l[i]] == l[i]
    ensures forall j :: 0 <= j < |l| && l[j] == l[i] ==> l[i] <= j
  {
    forall j | 0 <= j < |l| && l[j] == l[i] ensures l[i] <= j {
      assert l[j] <= j;
    }
  }

  /** Replacing a link by the grandparent changes no root. */
  lemma {:induction false} HalvingKeepsRoot(p: seq<nat>, i: nat, k: nat)
    requires Descending(p) && i < |p| && k < |p|
    ensures Descending(p[i := p[p[i]]]) && Root(p[i := p[p[i]]], k) == Root(p, k)
    decreases k
  {
    var q := p[i := p[p[i]]];
    assert forall n :: 0 <= n < |q| ==> q[n] <= p[n] <= n;
    if q[k] != k {
      HalvingKeepsRoot(p, i, q[k]);
    }
  }

  /** One halving step is invisible in the labels. */
  lemma HalvingKeepsLabels(p: seq<nat>, i: nat)
    requires Descending(p) && i < |p|
    ensures Descending(p[i := p[p[i]]]) && Labels(p[i := p[p[i]]]) == Labels(p)
  {
    var q := p[i := p[p[i]]];
    assert forall n :: 0 <= n < |q| ==> q[n] <= p[n] <= n;
    forall k: nat | k < |p| ensures Labels(q)[k] == Labels(p)[k] {
      HalvingKeepsRoot(p, i, k);
    }
  }

  /** Hanging root hi below root lo relabels exactly the class of hi. */
  lemma {:induction false} LinkMovesRoot(p: seq<nat>, lo: nat, hi: nat, k: nat)
    requires Descending(p) && lo <= hi < |p| && k < |p| && p[lo] == lo && p[hi] == hi
    ensures Descending(p[hi := lo])
    ensures Root(p[hi := lo], k) == if Root(p, k) == hi then lo else Root(p, k)
    decreases k
  {
    var q := p[hi := lo];
    assert forall n :: 0 <= n < |q| ==> q[n] <= p[n] <= n;
    if k != hi && p[k] != k {
      LinkMovesRoot(p, lo, hi, p[k]);
    }
  }

  /** Linking two roots is a merge of their classes. */
  lemma LinkMergesLabels(p: seq<nat>, i: nat, j: nat)
    requires Descending(p) && i < |p| && j < |p|
    ensures var lo, hi := Min(Root(p, i), Root(p, j)), Max(Root(p, i), Root(p, j));
            && Descending(p[hi := lo])
            && Labels(p[hi := lo]) == Merged(Labels(p), i, j)
  {
    var lo, hi := Min(Root(p, i), Root(p, j)), Max(Root(p, i), Root(p, j));
    LinkMovesRoot(p, lo, hi, hi);
    var q := p[hi := lo];
    forall k: nat | k < |p| ensures Labels(q)[k] == Merged(Labels(p), i, j)[k] {
      LinkMovesRoot(p, lo, hi, k);
    }
  }

  /** A merge joins the two classes, splits none, and joins nothing else. */
  lemma MergedIsJoin(l: seq<nat>, i: nat, j: nat)
    requires Canonical(l) && i < |l| && j < |l|
    ensures var m := Merged(l, i, j);
            && Canonical(m) && Coarser(l, m) && m[i] == m[j]
            && forall a, b :: 0 <= a < |l| && 0 <= b < |l| && m[a] == m[b] ==>
                 || l[a] == l[b]
                 || (l[a] == l[i] && l[b] == l[j])
                 || (l[a] == l[j] && l[b] == l[i])
  {
  }

  /** A mutable forest over the indices of one list of rows. */
  class Forest {
    const parents: array<nat>

    ghost predicate Valid()
      reads this, parents
    {
      Descending(parents[..])
    }

    ghost function Classes(): (l: seq<nat>)
      requires Valid()
      reads this, parents
    {
      Labels(parents[..])
    }

    /** Every row starts as its own campaign. */
    constructor (n: nat)
      ensures Valid() && fresh(parents) && parents.Length == n
      ensures Classes() == seq(n, i requires 0 <= i < n => i)
    {
      parents := new nat[n](i => i);
      new;
      assert forall i :: 0 <= i < n ==> parents[..][i] == i;
    }

    /** Path halving: answers the least member of i's class and changes no class. */
    method Find(i: nat) returns (r: nat)
      requires Valid() && i < parents.Length
      modifies parents
      ensures Valid() && Classes() == old(Classes())
      ensures r == Classes()[i]
    {
      r := i;
      while r != parents[r]
        invariant r < parents.Length && Valid()
        invariant Classes() == old(Classes()) && Classes()[r] == Classes()[i]
        decreases r
      {
        ghost var p := parents[..];
        HalvingKeepsLabels(p, r);
        parents[r] := parents[parents[r]];
        assert parents[..] == p[r := p[p[r]]];
        r := parents[r];
      }
    }

    /** Joins the classes of i and j under the smaller of their labels. */
    method Union(i: nat, j: nat)
      requires Valid() && i < parents.Length && j < parents.Length
      modifies parents
      ensures Valid() && Classes() == Merged(old(Classes()), i, j)
    {
      var a := Find(i);
      var b := Find(j);
      ghost var p := parents[..];
      LinkMergesLabels(p, i, j);
      parents[Max(a, b)] := Min(a, b);
      assert parents[..] == p[Max(a, b) := Min(a, b)];
    }
  }
}

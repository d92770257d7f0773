/**
 The grouping algorithm of the research tools: exact-key maps, a band index over
 SimHashes, and a union-find forest. It returns exactly the component list of
 CampaignGraph, or fails on unusable provenance or an exhausted comparison budget.
 */
module Campaigns {
  import opened SimHash
  import opened UnionFind
  import opened CampaignGraph

  const BUDGET: nat := 5_000_000
  const HISTORY_LIMIT: nat := 200_000

  datatype Result<+T> = Ok(value: T) | Err

  /** Whether missing provenance is an error (training) or simply adds no edge (population). */
  datatype Missing = Refused | Tolerated

  predicate UsableField<T>(missing: Missing, f: Field<T>) {
    f.Hex? || (missing.Tolerated? && f.Absent?)
  }

  predicate Usable(missing: Missing, row: Row) {
    && UsableField(missing, row.simhash)
    && forall f :: 0 <= f < |row.keys| ==> UsableField(missing, row.keys[f])
  }

  type Key = (nat, string)

  predicate HasKey(row: Row, k: Key) {
    k.0 < |row.keys| && row.keys[k.0] == Hex(k.1)
  }

  // ---------------------------------------------------------------- indexes

  /** The entries of rows before n, and of row n before field m, are in the key map. */
  ghost predicate KeysIndexed(rows: seq<Row>, l: seq<nat>, exact: map<Key, nat>, n: nat, m: nat) {
    && |l| == |rows|
    && (forall k :: k in exact ==> exact[k] < |rows| && HasKey(rows[exact[k]], k))
    && (forall i: nat, k: Key :: i < |rows| && HasKey(rows[i], k) && (i < n || (i == n && k.0 < m)) ==>
          k in exact && l[exact[k]] == l[i])
  }

  function SeenHashes(rows: seq<Row>, n: nat): set<Hash>
    requires n <= |rows|
  {
    set j | 0 <= j < n && rows[j].simhash.Hex? :: rows[j].simhash.value
  }

  /** The hash map knows each hash before n, and near hashes already share a class. */
  ghost predicate HashesIndexed(rows: seq<Row>, l: seq<nat>, hashes: map<Hash, nat>, n: nat) {
    && |l| == |rows| && n <= |rows|
    && hashes.Keys == SeenHashes(rows, n)
    && (forall h :: h in hashes ==> hashes[h] < n && rows[hashes[h]].simhash == Hex(h))
    && (forall i: nat :: i < n && rows[i].simhash.Hex? ==> l[hashes[rows[i].simhash.value]] == l[i])
    && (forall g, h :: g in hashes && h in hashes && Distance(g, h) <= RADIUS ==> l[hashes[g]] == l[hashes[h]])
  }

  /** No row before n stops the loop. */
  ghost predicate Passed(missing: Missing, rows: seq<Row>, n: nat)
    requires n <= |rows|
  {
    n == 0 || (Passed(missing, rows, n - 1) && Usable(missing, rows[n - 1]) && Comparisons(rows, n) <= BUDGET)
  }

  lemma {:induction false} PassedBefore(missing: Missing, rows: seq<Row>, m: nat, n: nat)
    requires m <= n <= |rows|
    ensures Passed(missing, rows, n) ==> Passed(missing, rows, m)
    decreases n
  {
    if m < n {
      PassedBefore(missing, rows, m, n - 1);
    }
  }

  /** The loop runs through exactly when every row is usable and the whole list fits the budget. */
  lemma {:induction false} PassedMeans(missing: Missing, rows: seq<Row>, n: nat)
    requires n <= |rows|
    ensures Passed(missing, rows, n)
            <==> (forall k :: 0 <= k < n ==> Usable(missing, rows[k])) && Comparisons(rows, n) <= BUDGET
  {
    if n > 0 {
      PassedMeans(missing, rows, n - 1);
      ComparisonsGrow(rows, n - 1, n);
    }
  }

  datatype Slot = Slot(band: nat, bits: seq<bool>)

  type Buckets = map<Slot, seq<Hash>>

  predicate Belongs(h: Hash, k: Slot) {
    k.band < BANDS && Band(h, k.band) == k.bits
  }

  predicate Filed(buckets: Buckets, h: Hash, k: Slot) {
    k in buckets && h in buckets[k]
  }

  /** The buckets hold exactly the known hashes, once per band. */
  ghost predicate Bucketed(hashes: set<Hash>, buckets: Buckets) {
    && (forall h: Hash, b: nat :: h in hashes && b < BANDS ==> Filed(buckets, h, Slot(b, Band(h, b))))
    && (forall h: Hash, k: Slot :: Filed(buckets, h, k) ==> h in hashes && Belongs(h, k))
  }

  /** The known hashes are filed in full, and h in its bands below n. */
  ghost predicate PartlyBucketed(known: set<Hash>, h: Hash, n: nat, buckets: Buckets) {
    && (forall g: Hash, b: nat :: b < BANDS && (g in known || (g == h && b < n)) ==>
          Filed(buckets, g, Slot(b, Band(g, b))))
    && (forall g: Hash, k: Slot :: Filed(buckets, g, k) ==> (g in known || g == h) && Belongs(g, k))
  }

  lemma BucketStep(known: set<Hash>, h: Hash, n: nat, buckets: Buckets)
    requires PartlyBucketed(known, h, n, buckets) && n < BANDS
    ensures var k := Slot(n, Band(h, n));
            PartlyBucketed(known, h, n + 1, buckets[k := (if k in buckets then buckets[k] else []) + [h]])
  {
    var k := Slot(n, Band(h, n));
    var more := buckets[k := (if k in buckets then buckets[k] else []) + [h]];
    forall g: Hash, q: Slot ensures Filed(more, g, q) <==> Filed(buckets, g, q) || (g == h && q == k) {
    }
  }

  predicate SharesBelow(a: Hash, b: Hash, n: nat) {
    exists c: nat :: c < n && c < BANDS && Band(a, c) == Band(b, c)
  }

  /** The earlier distinct hashes that row i is compared with. */
  ghost function Candidates(rows: seq<Row>, i: nat): set<Hash>
    requires i < |rows|
  {
    if rows[i].simhash.Hex? && rows[i].simhash.value !in SeenHashes(rows, i)
    then set h | h in SeenHashes(rows, i) && SharesBand(rows[i].simhash.value, h)
    else {}
  }

  ghost function Comparisons(rows: seq<Row>, n: nat): nat
    requires n <= |rows|
  {
    if n == 0 then 0 else Comparisons(rows, n - 1) + |Candidates(rows, n - 1)|
  }

  lemma {:induction false} ComparisonsGrow(rows: seq<Row>, m: nat, n: nat)
    requires m <= n <= |rows|
    ensures Comparisons(rows, m) <= Comparisons(rows, n)
  {
    if m < n {
      ComparisonsGrow(rows, m, n - 1);
    }
  }

  /** Recording key k for row i, after joining i with the previous holder. */
  lemma KeyStep(rows: seq<Row>, l: seq<nat>, exact: map<Key, nat>, i: nat, f: nat, k: Key)
    requires KeysIndexed(rows, l, exact, i, f) && i < |rows| && k.0 == f && HasKey(rows[i], k) && Canonical(l)
    ensures var l' := if k in exact then Merged(l, i, exact[k]) else l;
            KeysIndexed(rows, l', exact[k := i], i, f + 1)
  {
    var l' := if k in exact then Merged(l, i, exact[k]) else l;
    if k in exact {
      MergedIsJoin(l, i, exact[k]);
    }
    forall j: nat, q: Key | j < |rows| && HasKey(rows[j], q) && (j < i || (j == i && q.0 < f + 1))
      ensures q in exact[k := i] && l'[exact[k := i][q]] == l'[j]
    {
      if j == i && q.0 == f {
        assert q == k;
      } else {
        assert l[exact[q]] == l[j];
      }
    }
  }

  lemma KeysSkip(rows: seq<Row>, l: seq<nat>, exact: map<Key, nat>, i: nat, f: nat)
    requires KeysIndexed(rows, l, exact, i, f) && i < |rows| && f < |rows[i].keys| && !rows[i].keys[f].Hex?
    ensures KeysIndexed(rows, l, exact, i, f + 1)
  {
  }

  lemma KeysNextRow(rows: seq<Row>, l: seq<nat>, exact: map<Key, nat>, i: nat)
    requires i < |rows| && KeysIndexed(rows, l, exact, i, |rows[i].keys|)
    ensures KeysIndexed(rows, l, exact, i + 1, 0)
  {
  }

  lemma KeysCoarsen(rows: seq<Row>, l: seq<nat>, m: seq<nat>, exact: map<Key, nat>, n: nat, f: nat)
    requires KeysIndexed(rows, l, exact, n, f) && Coarser(l, m)
    ensures KeysIndexed(rows, m, exact, n, f)
  {
  }

  lemma HashesCoarsen(rows: seq<Row>, l: seq<nat>, m: seq<nat>, hashes: map<Hash, nat>, n: nat)
    requires HashesIndexed(rows, l, hashes, n) && Coarser(l, m)
    ensures HashesIndexed(rows, m, hashes, n)
  {
    forall i: nat | i < n && rows[i].simhash.Hex?
      ensures m[hashes[rows[i].simhash.value]] == m[i]
    {
      assert rows[i].simhash.value in SeenHashes(rows, n);
    }
  }

  /** A known hash g near h has its holder in row i's class. */
  predicate Met(l: seq<nat>, hashes: map<Hash, nat>, i: nat, h: Hash, g: Hash) {
    g in hashes && hashes[g] < |l| && i < |l| && (Distance(h, g) <= RADIUS ==> l[hashes[g]] == l[i])
  }

  lemma MetCoarsens(l: seq<nat>, m: seq<nat>, hashes: map<Hash, nat>, i: nat, h: Hash, g: Hash)
    requires Coarser(l, m) && Met(l, hashes, i, h, g)
    ensures Met(m, hashes, i, h, g)
  {
  }

  lemma CoarserChain(a: seq<nat>, b: seq<nat>, c: seq<nat>)
    requires Coarser(a, b) && Coarser(b, c)
    ensures Coarser(a, c)
  {
  }

  /** Some order of the elements of a set. */
  method Enumerate(s: set<Hash>) returns (order: seq<Hash>)
    ensures |order| == |s| && forall h :: h in order <==> h in s
  {
    order := [];
    var todo := s;
    while todo != {}
      invariant todo <= s && |order| + |todo| == |s|
      invariant forall h :: h in s <==> h in order || h in todo
      decreases |todo|
    {
      var h :| h in todo;
      order, todo := order + [h], todo - {h};
    }
  }

  lemma HolderInRange(rows: seq<Row>, l: seq<nat>, hashes: map<Hash, nat>, i: nat)
    requires HashesIndexed(rows, l, hashes, i)
    ensures forall h :: h in hashes ==> hashes[h] < |rows| && rows[hashes[h]].simhash == Hex(h)
  {
  }

  lemma SeenNext(rows: seq<Row>, n: nat)
    requires n < |rows|
    ensures SeenHashes(rows, n + 1) ==
            SeenHashes(rows, n) + if rows[n].simhash.Hex? then {rows[n].simhash.value} else {}
  {
  }

  /** A row without hash leaves the hash map as it is. */
  lemma HashAbsent(rows: seq<Row>, l: seq<nat>, hashes: map<Hash, nat>, i: nat)
    requires HashesIndexed(rows, l, hashes, i) && i < |rows| && !rows[i].simhash.Hex?
    ensures HashesIndexed(rows, l, hashes, i + 1)
  {
    SeenNext(rows, i);
  }

  /** A repeated hash only needs joining with its first holder. */
  lemma HashRepeated(rows: seq<Row>, l: seq<nat>, hashes: map<Hash, nat>, i: nat)
    requires HashesIndexed(rows, l, hashes, i) && i < |rows|
    requires rows[i].simhash.Hex? && rows[i].simhash.value in hashes
    requires l[hashes[rows[i].simhash.value]] == l[i]
    ensures HashesIndexed(rows, l, hashes, i + 1)
  {
    SeenNext(rows, i);
  }

  /** A new hash may be recorded once every near known hash shares the row's class. */
  lemma HashRecorded(rows: seq<Row>, l: seq<nat>, hashes: map<Hash, nat>, i: nat, h: Hash)
    requires HashesIndexed(rows, l, hashes, i) && i < |rows|
    requires rows[i].simhash == Hex(h) && h !in hashes
    requires forall g :: g in hashes && Distance(h, g) <= RADIUS ==> Met(l, hashes, i, h, g)
    ensures HashesIndexed(rows, l, hashes[h := i], i + 1)
  {
    SeenNext(rows, i);
    var more := hashes[h := i];
    assert more.Keys == hashes.Keys + {h};
    forall a, b | a in more && b in more && Distance(a, b) <= RADIUS ensures l[more[a]] == l[more[b]] {
      DistanceSymmetric(a, b);
    }
    forall j: nat | j < i + 1 && rows[j].simhash.Hex? ensures l[more[rows[j].simhash.value]] == l[j] {
      if j < i {
        assert rows[j].simhash.value in SeenHashes(rows, i);
      }
    }
  }

  /** Complete indexes put every linked pair in one class: the band index misses nothing. */
  lemma IndexesClose(rows: seq<Row>, l: seq<nat>, exact: map<Key, nat>, hashes: map<Hash, nat>)
    requires KeysIndexed(rows, l, exact, |rows|, 0) && HashesIndexed(rows, l, hashes, |rows|)
    ensures Closed(rows, l)
  {
    forall i, j | 0 <= i < |l| && 0 <= j < |l| && Linked(rows[i], rows[j]) ensures l[i] == l[j] {
      if SameKey(rows[i], rows[j]) {
        var f :| 0 <= f < |rows[i].keys| && f < |rows[j].keys| && rows[i].keys[f].Hex? && rows[i].keys[f] == rows[j].keys[f];
        var k := (f, rows[i].keys[f].value);
        assert HasKey(rows[i], k) && HasKey(rows[j], k);
      } else {
        var g, h := rows[i].simhash.value, rows[j].simhash.value;
        assert g in SeenHashes(rows, |rows|) && h in SeenHashes(rows, |rows|);
        assert l[hashes[g]] == l[i] && l[hashes[h]] == l[j];
      }
    }
  }

  // ---------------------------------------------------------------- algorithm

  class Grouper {
    const rows: seq<Row>
    const forest: Forest
    var exact: map<Key, nat>
    var hashes: map<Hash, nat>
    var buckets: Buckets
    var comparisons: nat

    /** Only connected rows have been joined. */
    ghost predicate Joined()
      reads this, forest, forest.parents
    {
      forest.Valid() && forest.parents.Length == |rows| && Sound(rows, forest.Classes())
    }

    ghost predicate Valid()
      reads this, forest, forest.parents
    {
      && Joined()
      && Bucketed(hashes.Keys, buckets)
      && comparisons <= BUDGET
    }

    /** Rows before n are indexed in full, and row n up to field m. */
    ghost predicate Indexed(n: nat, m: nat)
      reads this, forest, forest.parents
      requires Valid()
    {
      && KeysIndexed(rows, forest.Classes(), exact, n, m)
      && HashesIndexed(rows, forest.Classes(), hashes, n)
      && comparisons == Comparisons(rows, n)
    }

    constructor (rows: seq<Row>)
      ensures this.rows == rows && fresh(forest) && fresh(forest.parents)
      ensures Valid() && Indexed(0, 0)
    {
      var f := new Forest(|rows|);
      this.rows, forest := rows, f;
      exact, hashes, buckets, comparisons := map[], map[], map[], 0;
      new;
      forall i, j | 0 <= i < |rows| && 0 <= j < |rows| && f.Classes()[i] == f.Classes()[j]
        ensures Connected(rows, i, j)
      {
        ConnectedReflexive(rows, i);
      }
    }

    /** Joins two linked rows; nothing else in the indexes changes meaning. */
    method Join(i: nat, j: nat)
      requires Joined() && i < |rows| && j < |rows| && Linked(rows[i], rows[j])
      modifies forest.parents
      ensures Joined() && forest.Classes() == Merged(old(forest.Classes()), i, j)
      ensures Coarser(old(forest.Classes()), forest.Classes()) && forest.Classes()[i] == forest.Classes()[j]
    {
      MergeKeepsSound(rows, forest.Classes(), i, j);
      MergedIsJoin(forest.Classes(), i, j);
      forest.Union(i, j);
    }

    method AddKey(i: nat, f: nat)
      requires Valid() && i < |rows| && f < |rows[i].keys| && Indexed(i, f)
      modifies this`exact, forest.parents
      ensures Valid() && Indexed(i, f + 1)
    {
      ghost var l := forest.Classes();
      if rows[i].keys[f].Hex? {
        var k := (f, rows[i].keys[f].value);
        assert HasKey(rows[i], k);
        KeyStep(rows, l, exact, i, f, k);
        if k in exact {
          assert HasKey(rows[exact[k]], k);
          Join(i, exact[k]);
          HashesCoarsen(rows, l, forest.Classes(), hashes, i);
        }
        exact := exact[k := i];
      } else {
        KeysSkip(rows, l, exact, i, f);
      }
    }

    /** The buckets of h's four bands: the known hashes that share a band with h. */
    method Neighbors(h: Hash) returns (found: set<Hash>)
      requires Bucketed(hashes.Keys, buckets)
      ensures found == set g | g in hashes && SharesBand(h, g)
    {
      found := {};
      for b := 0 to BANDS
        invariant forall g :: g in found <==> g in hashes && SharesBelow(h, g, b)
      {
        var k := Slot(b, Band(h, b));
        ghost var before := found;
        if k in buckets {
          found := found + set g | g in buckets[k];
        }
        forall g ensures g in found <==> g in hashes && SharesBelow(h, g, b + 1) {
          assert g in found <==> g in before || Filed(buckets, g, k);
          if g in hashes {
            assert Filed(buckets, g, Slot(b, Band(g, b)));
          }
        }
      }
    }

    /** Records h in the bucket of each of its bands. */
    method Fill(h: Hash, i: nat)
      requires Bucketed(hashes.Keys, buckets) && h !in hashes
      modifies this`hashes, this`buckets
      ensures Bucketed(hashes.Keys, buckets) && hashes == old(hashes)[h := i]
    {
      ghost var known := hashes.Keys;
      var more, recorded := buckets, hashes[h := i];
      for b := 0 to BANDS
        invariant PartlyBucketed(known, h, b, more)
      {
        var k := Slot(b, Band(h, b));
        BucketStep(known, h, b, more);
        more := more[k := (if k in more then more[k] else []) + [h]];
      }
      hashes, buckets := recorded, more;
      assert hashes.Keys == known + {h};
    }

    /** One comparison: joins row i with the holder of g when the hashes are near. */
    method Meet(i: nat, h: Hash, g: Hash, ghost others: seq<Hash>)
      requires Joined() && i < |rows| && rows[i].simhash == Hex(h)
      requires g in hashes && hashes[g] < |rows| && rows[hashes[g]].simhash == Hex(g)
      requires forall m :: 0 <= m < |others| ==> Met(forest.Classes(), hashes, i, h, others[m])
      modifies forest.parents
      ensures Joined() && Coarser(old(forest.Classes()), forest.Classes())
      ensures Met(forest.Classes(), hashes, i, h, g)
      ensures forall m :: 0 <= m < |others| ==> Met(forest.Classes(), hashes, i, h, others[m])
    {
      ghost var l := forest.Classes();
      if Distance(h, g) <= RADIUS {
        Join(i, hashes[g]);
      }
      forall m | 0 <= m < |others| ensures Met(forest.Classes(), hashes, i, h, others[m]) {
        MetCoarsens(l, forest.Classes(), hashes, i, h, others[m]);
      }
    }

    /** Compares row i with the listed hashes in turn, within the budget. */
    method CompareAll(i: nat, h: Hash, order: seq<Hash>) returns (ok: bool)
      requires Joined() && i < |rows| && rows[i].simhash == Hex(h) && comparisons <= BUDGET
      requires forall k :: 0 <= k < |order| ==>
        order[k] in hashes && hashes[order[k]] < |rows| && rows[hashes[order[k]]].simhash == Hex(order[k])
      modifies this`comparisons, forest.parents
      ensures Joined() && Coarser(old(forest.Classes()), forest.Classes()) && comparisons <= BUDGET
      ensures ok <==> old(comparisons) + |order| <= BUDGET
      ensures ok ==> comparisons == old(comparisons) + |order|
      ensures ok ==> forall k :: 0 <= k < |order| ==> Met(forest.Classes(), hashes, i, h, order[k])
    {
      for k := 0 to |order|
        invariant Joined() && comparisons == old(comparisons) + k <= BUDGET
        invariant Coarser(old(forest.Classes()), forest.Classes())
        invariant forall m :: 0 <= m < k ==> Met(forest.Classes(), hashes, i, h, order[m])
      {
        if comparisons + 1 > BUDGET {
          return false;
        }
        comparisons := comparisons + 1;
        ghost var l := forest.Classes();
        ghost var others := order[..k];
        Meet(i, h, order[k], others);
        CoarserChain(old(forest.Classes()), l, forest.Classes());
        forall m | 0 <= m < k + 1 ensures Met(forest.Classes(), hashes, i, h, order[m]) {
          assert m < k ==> others[m] == order[m];
        }
      }
      return true;
    }

    /** Compares row i with every bucket mate and joins the near ones. */
    method Compare(i: nat, h: Hash) returns (ok: bool)
      requires Joined() && Bucketed(hashes.Keys, buckets)
      requires i < |rows| && rows[i].simhash == Hex(h) && h !in hashes
      requires HashesIndexed(rows, forest.Classes(), hashes, i)
      requires comparisons == Comparisons(rows, i) <= BUDGET
      modifies this`comparisons, forest.parents
      ensures Joined() && Coarser(old(forest.Classes()), forest.Classes()) && comparisons <= BUDGET
      ensures ok <==> Comparisons(rows, i + 1) <= BUDGET
      ensures ok ==> comparisons == Comparisons(rows, i + 1)
      ensures ok ==> forall g :: g in hashes && Distance(h, g) <= RADIUS ==>
                       Met(forest.Classes(), hashes, i, h, g)
    {
      var found := Neighbors(h);
      assert found == Candidates(rows, i);
      HolderInRange(rows, forest.Classes(), hashes, i);
      var order := Enumerate(found);
      assert forall k :: 0 <= k < |order| ==> order[k] in found;
      ok := CompareAll(i, h, order);
      if ok {
        forall g | g in hashes && Distance(h, g) <= RADIUS ensures Met(forest.Classes(), hashes, i, h, g) {
          NearHashesShareABand(h, g);
          assert g in order;
        }
      }
    }

    /** The hash is known: the row joins its first holder. */
    method Repeat(i: nat, h: Hash)
      requires Joined() && i < |rows| && rows[i].simhash == Hex(h) && h in hashes
      requires KeysIndexed(rows, forest.Classes(), exact, i + 1, 0)
      requires HashesIndexed(rows, forest.Classes(), hashes, i)
      modifies forest.parents
      ensures Joined()
      ensures KeysIndexed(rows, forest.Classes(), exact, i + 1, 0)
      ensures HashesIndexed(rows, forest.Classes(), hashes, i + 1)
    {
      ghost var l := forest.Classes();
      DistanceOfEqual(h);
      Join(i, hashes[h]);
      KeysCoarsen(rows, l, forest.Classes(), exact, i + 1, 0);
      HashesCoarsen(rows, l, forest.Classes(), hashes, i);
      HashRepeated(rows, forest.Classes(), hashes, i);
    }

    /** The hash is new: the row is compared with its bucket mates and recorded. */
    method Introduce(i: nat, h: Hash) returns (ok: bool)
      requires Joined() && Bucketed(hashes.Keys, buckets)
      requires i < |rows| && rows[i].simhash == Hex(h) && h !in hashes
      requires KeysIndexed(rows, forest.Classes(), exact, i + 1, 0)
      requires HashesIndexed(rows, forest.Classes(), hashes, i)
      requires comparisons == Comparisons(rows, i) <= BUDGET
      modifies this`comparisons, this`hashes, this`buckets, forest.parents
      ensures Joined() && Bucketed(hashes.Keys, buckets) && comparisons <= BUDGET
      ensures ok <==> Comparisons(rows, i + 1) <= BUDGET
      ensures ok ==> comparisons == Comparisons(rows, i + 1)
      ensures ok ==> KeysIndexed(rows, forest.Classes(), exact, i + 1, 0)
      ensures ok ==> HashesIndexed(rows, forest.Classes(), hashes, i + 1)
    {
      ghost var l := forest.Classes();
      ok := Compare(i, h);
      if ok {
        KeysCoarsen(rows, l, forest.Classes(), exact, i + 1, 0);
        HashesCoarsen(rows, l, forest.Classes(), hashes, i);
        HashRecorded(rows, forest.Classes(), hashes, i, h);
        Fill(h, i);
      }
    }

    method AddHash(i: nat) returns (ok: bool)
      requires Valid() && i < |rows| && Indexed(i, |rows[i].keys|)
      modifies this, forest.parents
      ensures Valid()
      ensures ok <==> Comparisons(rows, i + 1) <= BUDGET
      ensures ok ==> Indexed(i + 1, 0)
    {
      KeysNextRow(rows, forest.Classes(), exact, i);
      if !rows[i].simhash.Hex? {
        HashAbsent(rows, forest.Classes(), hashes, i);
        ok := true;
      } else if rows[i].simhash.value in hashes {
        Repeat(i, rows[i].simhash.value);
        ok := true;
      } else {
        ok := Introduce(i, rows[i].simhash.value);
      }
    }

    /** Indexes one row: its keys in order, then its SimHash. */
    method AddRow(i: nat) returns (ok: bool)
      requires Valid() && i < |rows| && Indexed(i, 0)
      modifies this, forest.parents
      ensures Valid()
      ensures ok <==> Comparisons(rows, i + 1) <= BUDGET
      ensures ok ==> Indexed(i + 1, 0)
    {
      for f := 0 to |rows[i].keys|
        invariant Valid() && Indexed(i, f)
      {
        AddKey(i, f);
      }
      ok := AddHash(i);
    }

    /** Lists each class under its label, in order of first appearance. */
    method Listings() returns (order: seq<nat>, members: map<nat, seq<nat>>)
      requires Joined()
      modifies forest.parents
      ensures Listing(old(forest.Classes()), |rows|, order, members)
    {
      ghost var l := forest.Classes();
      order, members := [], map[];
      for i := 0 to |rows|
        invariant forest.Valid() && forest.Classes() == l
        invariant Listing(l, i, order, members)
      {
        var r := forest.Find(i);
        order, members := Place(l, i, r, order, members);
      }
    }

    method Collect() returns (groups: seq<seq<nat>>)
      requires Joined() && Closed(rows, forest.Classes())
      modifies forest.parents
      ensures Components(rows, groups)
    {
      ghost var l := forest.Classes();
      var order, members := Listings();
      assert forall g :: 0 <= g < |order| ==> order[g] in order;
      groups := seq(|order|, g requires 0 <= g < |order| && order[g] in members => members[order[g]]);
      ListingIsComponents(rows, l, order, members, groups);
    }

    /** Checks one row and indexes it. */
    method AddChecked(i: nat, missing: Missing) returns (ok: bool)
      requires Valid() && i < |rows| && Indexed(i, 0) && Passed(missing, rows, i)
      modifies this, forest.parents
      ensures Valid() && (ok ==> Indexed(i + 1, 0))
      ensures ok <==> Passed(missing, rows, i + 1)
    {
      if !Usable(missing, rows[i]) {
        return false;
      }
      ok := AddRow(i);
    }

    /** Indexes all rows; fails at the first unusable row or when the budget runs out. */
    method AddAll(missing: Missing) returns (ok: bool)
      requires Valid() && Indexed(0, 0)
      modifies this, forest.parents
      ensures ok <==> Passed(missing, rows, |rows|)
      ensures ok ==> Valid() && Indexed(|rows|, 0)
    {
      for i := 0 to |rows|
        invariant Valid() && Indexed(i, 0) && Passed(missing, rows, i)
      {
        ok := AddChecked(i, missing);
        if !ok {
          PassedBefore(missing, rows, i + 1, |rows|);
          return;
        }
      }
      ok := true;
    }

    method Finish() returns (groups: seq<seq<nat>>)
      requires Valid() && Indexed(|rows|, 0)
      modifies forest.parents
      ensures Components(rows, groups)
    {
      IndexesClose(rows, forest.Classes(), exact, hashes);
      groups := Collect();
    }
  }

  /** Files row i under its label r, opening a new list when there is none. */
  method Place(ghost l: seq<nat>, i: nat, r: nat, order: seq<nat>, members: map<nat, seq<nat>>)
    returns (order': seq<nat>, members': map<nat, seq<nat>>)
    requires Listing(l, i, order, members) && i < |l| && r == l[i]
    ensures Listing(l, i + 1, order', members')
  {
    if r in members {
      ListingAppend(l, i, order, members);
      return order, members[r := members[r] + [i]];
    } else {
      ListingOpen(l, i, order, members);
      return order + [r], members[r := [i]];
    }
  }

  lemma DistanceOfEqual(h: Hash)
    ensures Distance(h, h) == 0
  {
  }

  /** s lists the rows before n that carry label r. */
  ghost predicate Block(l: seq<nat>, n: nat, r: nat, s: seq<nat>) {
    && n <= |l| && Ascending(s) && s != [] && s[0] == r
    && forall i: nat :: i in s <==> i < n && l[i] == r
  }

  /** The rows before n, listed by label. */
  ghost predicate Listing(l: seq<nat>, n: nat, order: seq<nat>, members: map<nat, seq<nat>>) {
    && Canonical(l) && n <= |l|
    && Ascending(order)
    && (forall r: nat :: r in order <==> r < n && l[r] == r)
    && (forall r: nat :: r in members <==> r < n && l[r] == r)
    && (forall r: nat :: r in members ==> Block(l, n, r, members[r]))
  }

  lemma BlockStep(l: seq<nat>, n: nat, r: nat, s: seq<nat>)
    requires Block(l, n, r, s) && n < |l|
    ensures Block(l, n + 1, r, if l[n] == r then s + [n] else s)
  {
    var t := if l[n] == r then s + [n] else s;
    forall a, b | 0 <= a < b < |t| ensures t[a] < t[b] {
      if b == |s| {
        assert s[a] in s;
      }
    }
    forall i: nat ensures i in t <==> i < n + 1 && l[i] == r {
      assert i in t <==> i in s || (i == n && l[n] == r);
    }
  }

  lemma BlockStart(l: seq<nat>, n: nat)
    requires Canonical(l) && n < |l| && l[n] == n
    ensures Block(l, n + 1, n, [n])
  {
  }

  lemma ListingAppend(l: seq<nat>, n: nat, order: seq<nat>, members: map<nat, seq<nat>>)
    requires Listing(l, n, order, members) && n < |l| && l[n] in members
    ensures Listing(l, n + 1, order, members[l[n] := members[l[n]] + [n]])
  {
    var more := members[l[n] := members[l[n]] + [n]];
    forall q: nat | q in more ensures Block(l, n + 1, q, more[q]) {
      BlockStep(l, n, q, members[q]);
    }
    assert l[n] < n;
  }

  lemma ListingOpen(l: seq<nat>, n: nat, order: seq<nat>, members: map<nat, seq<nat>>)
    requires Listing(l, n, order, members) && n < |l| && l[n] !in members
    ensures Listing(l, n + 1, order + [l[n]], members[l[n] := [n]])
  {
    assert l[l[n]] == l[n] && l[n] == n;
    var more, longer := members[n := [n]], order + [n];
    BlockStart(l, n);
    forall q: nat | q in more ensures Block(l, n + 1, q, more[q]) {
      if q != n {
        BlockStep(l, n, q, members[q]);
      }
    }
    forall a, b | 0 <= a < b < |longer| ensures longer[a] < longer[b] {
      if b == |order| {
        assert order[a] in order;
      }
    }
    forall r: nat ensures r in longer <==> r < n + 1 && l[r] == r {
      assert r in longer <==> r in order || r == n;
    }
  }

  /** A complete listing of sound and closed labels is the component list. */
  lemma ListingIsComponents(rows: seq<Row>, l: seq<nat>, order: seq<nat>, members: map<nat, seq<nat>>,
                            groups: seq<seq<nat>>)
    requires Sound(rows, l) && Closed(rows, l) && Listing(l, |rows|, order, members)
    requires |groups| == |order|
    requires forall g :: 0 <= g < |order| ==> order[g] in members && groups[g] == members[order[g]]
    ensures Components(rows, groups)
  {
    forall g | 0 <= g < |groups| ensures Block(l, |rows|, order[g], groups[g]) {
    }
    forall i: nat ensures i < |rows| <==> Listed(groups, i) {
      if i < |rows| {
        assert l[l[i]] == l[i];
        assert l[i] in order;
        var g: nat :| g < |order| && order[g] == l[i];
        assert InGroup(groups, g, i);
      }
    }
    forall g: nat, h: nat, i: nat, j: nat | InGroup(groups, g, i) && InGroup(groups, h, j)
      ensures g == h <==> Connected(rows, i, j)
    {
      assert l[i] == order[g] && l[j] == order[h];
      LabelsAreComponents(rows, l, i, j);
    }
  }

  /** The shared loop of components, group_rows and groups. */
  method Group(rows: seq<Row>, missing: Missing) returns (r: Result<seq<seq<nat>>>)
    ensures r.Err? <==> (exists i :: 0 <= i < |rows| && !Usable(missing, rows[i]))
                        || Comparisons(rows, |rows|) > 5_000_000
    ensures r.Ok? ==> Components(rows, r.value)
  {
    var g := new Grouper(rows);
    PassedMeans(missing, rows, |rows|);
    var ok := g.AddAll(missing);
    if !ok {
      return Err;
    }
    var groups := g.Finish();
    r := Ok(groups);
  }

  /** The population variant: bounded history, missing keys and hashes add no edge. */
  method PopulationGroups(rows: seq<Row>) returns (r: Result<seq<seq<nat>>>)
    ensures r.Err? <==> |rows| > 200_000
                        || (exists i :: 0 <= i < |rows| && !Usable(Tolerated, rows[i]))
                        || Comparisons(rows, |rows|) > 5_000_000
    ensures r.Ok? ==> Components(rows, r.value)
  {
    if |rows| > HISTORY_LIMIT {
      return Err;
    }
    r := Group(rows, Tolerated);
  }

  /** A row with nothing but absent fields is a campaign of its own. */
  lemma AbsentProvenanceAddsNoEdge(rows: seq<Row>, i: nat, j: nat)
    requires i < |rows| && rows[i].simhash.Absent?
    requires forall f :: 0 <= f < |rows[i].keys| ==> rows[i].keys[f].Absent?
    ensures Connected(rows, i, j) <==> i == j
  {
    ConnectedReflexive(rows, i);
    if Connected(rows, i, j) {
      var s :| Walk(rows, s) && s[0] == i && s[|s| - 1] == j;
      if |s| > 1 {
        FirstStep(rows, s);
        assert false;
      }
    }
  }

  lemma FirstStep(rows: seq<Row>, s: seq<nat>)
    requires Walk(rows, s) && |s| > 1
    ensures Linked(rows[s[0]], rows[s[1]])
  {
    assert Linked(rows[s[1 - 1]], rows[s[1]]);
  }

  /** Training refuses a row unless every field is there; the population only refuses malformed fields. */
  lemma UsableMeans(row: Row)
    ensures Usable(Refused, row) <==> row.simhash.Hex? && forall k :: k in row.keys ==> k.Hex?
    ensures Usable(Tolerated, row) <==> !row.simhash.Malformed? && forall k :: k in row.keys ==> !k.Malformed?
    ensures Usable(Refused, row) ==> Usable(Tolerated, row)
  {
    assert forall f :: 0 <= f < |row.keys| ==> row.keys[f] in row.keys;
  }
}

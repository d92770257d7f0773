/** Explanation rows: filtering laws, and what the policy predicates may read from them. */
module DecisionRows {
  import opened Decision
  import Orders

  const DERIVED: set<ReasonId> :=
    {MalwarePriority, AdvisoryDisagreement, ContextReview, ObservedThreat, ScoreResolved, ConfirmationMissing}

  /** The rows that no step of this policy writes. */
  function Underlying(rows: seq<Signal>): seq<Signal> { Without(rows, DERIVED) }

  lemma {:induction false} WithoutConcat(a: seq<Signal>, b: seq<Signal>, ids: set<ReasonId>)
    ensures Without(a + b, ids) == Without(a, ids) + Without(b, ids)
  {
    if b == [] {
      assert a + b == a;
    } else {
      var init := b[..|b| - 1];
      assert (a + b)[..|a + b| - 1] == a + init;
      WithoutConcat(a, init, ids);
    }
  }

  lemma {:induction false} WithoutTwice(rows: seq<Signal>, i: set<ReasonId>, j: set<ReasonId>)
    ensures Without(Without(rows, i), j) == Without(rows, i + j)
  {
    if rows != [] {
      var init, last := rows[..|rows| - 1], rows[|rows| - 1];
      WithoutTwice(init, i, j);
      if last.id !in i {
        WithoutConcat(Without(init, i), [last], j);
      }
    }
  }

  lemma {:induction false} AnyWithout(rows: seq<Signal>, ids: set<ReasonId>, test: ReasonId -> bool)
    requires forall id :: id in ids ==> !test(id)
    ensures Any(Without(rows, ids), test) == Any(rows, test)
  {
    if rows != [] {
      var init, last := rows[..|rows| - 1], rows[|rows| - 1];
      AnyWithout(init, ids, test);
      assert rows == init + [last];
      AnyConcat(init, [last], test);
      AnyConcat(Without(init, ids), [last], test);
      assert Any([last], test) == test(last.id) by {
        assert [last][0] == last;
      }
    }
  }

  lemma AnyConcat(a: seq<Signal>, b: seq<Signal>, test: ReasonId -> bool)
    ensures Any(a + b, test) <==> Any(a, test) || Any(b, test)
  {
    if Any(a, test) {
      var k :| 0 <= k < |a| && test(a[k].id);
      assert (a + b)[k] == a[k];
    }
    if Any(b, test) {
      var k :| 0 <= k < |b| && test(b[k].id);
      assert (a + b)[|a| + k] == b[k];
    }
  }

  lemma HasConcat(a: seq<Signal>, b: seq<Signal>, id: ReasonId)
    ensures Has(a + b, id) <==> Has(a, id) || Has(b, id)
  {
    if Has(a, id) {
      var k :| 0 <= k < |a| && a[k].id == id;
      assert (a + b)[k] == a[k];
    }
    if Has(b, id) {
      var k :| 0 <= k < |b| && b[k].id == id;
      assert (a + b)[|a| + k] == b[k];
    }
  }

  lemma {:induction false} HasWithout(rows: seq<Signal>, ids: set<ReasonId>, id: ReasonId)
    ensures Has(Without(rows, ids), id) <==> Has(rows, id) && id !in ids
  {
    if rows != [] {
      var init, last := rows[..|rows| - 1], rows[|rows| - 1];
      HasWithout(init, ids, id);
      assert rows == init + [last];
      HasConcat(init, [last], id);
      HasConcat(Without(init, ids), [last], id);
      HasOne(last, id);
    }
  }

  lemma HasOne(row: Signal, id: ReasonId)
    ensures Has([row], id) <==> row.id == id
  {
    assert [row][0] == row;
  }

  lemma HasRuling(id: ReasonId, detail: Detail, present: bool, other: ReasonId)
    ensures Has(Ruling(id, detail, present), other) <==> present && id == other
  {
    HasOne(Row(id, detail), other);
  }

  lemma {:induction false} WithoutAbsent(rows: seq<Signal>, ids: set<ReasonId>)
    requires forall id :: id in ids ==> !Has(rows, id)
    ensures Without(rows, ids) == rows
  {
    if rows != [] {
      var init, last := rows[..|rows| - 1], rows[|rows| - 1];
      assert rows == init + [last];
      forall id | id in ids ensures !Has(init, id) {
        HasConcat(init, [last], id);
      }
      HasConcat(init, [last], last.id);
      HasOne(last, last.id);
      WithoutAbsent(init, ids);
    }
  }

  /** Filtering derived ids never changes the underlying rows. */
  lemma UnderlyingWithout(rows: seq<Signal>, ids: set<ReasonId>)
    requires ids <= DERIVED
    ensures Underlying(Without(rows, ids)) == Underlying(rows)
  {
    WithoutTwice(rows, ids, DERIVED);
    assert ids + DERIVED == DERIVED;
  }

  lemma UnderlyingAppend(rows: seq<Signal>, more: seq<Signal>)
    requires Without(more, DERIVED) == []
    ensures Underlying(rows + more) == Underlying(rows)
  {
    WithoutConcat(rows, more, DERIVED);
  }

  /** The gap predicates read only the underlying rows and the immutable part of a scan. */
  lemma GapsReadUnderlyingRows(s: Scan, t: Scan)
    requires s.facts == t.facts && s.complete == t.complete && s.featuresComplete == t.featuresComplete
    requires Underlying(s.reasons) == Underlying(t.reasons)
    ensures ReadableWithDnsGap(s) == ReadableWithDnsGap(t)
    ensures ObservedThreatDespiteGap(s) == ObservedThreatDespiteGap(t)
    ensures AuthenticatedBenignConflict(s) == AuthenticatedBenignConflict(t)
  {
    var f := s.facts;
    AnyUnderlying(s.reasons, t.reasons, (id: ReasonId) => id.SmtpPolicyUnavailable?);
    AnyUnderlying(s.reasons, t.reasons, (id: ReasonId) => Incomplete(id) && !id.SmtpPolicyUnavailable?);
    AnyUnderlying(s.reasons, t.reasons, (id: ReasonId) => AllowedGap(f, id));
    AnyUnderlying(s.reasons, t.reasons, (id: ReasonId) => Incomplete(id) && !AllowedGap(f, id));
  }

  lemma AnyUnderlying(a: seq<Signal>, b: seq<Signal>, test: ReasonId -> bool)
    requires Underlying(a) == Underlying(b) && forall id :: Derived(id) ==> !test(id)
    ensures Any(a, test) == Any(b, test)
  {
    AnyWithout(a, DERIVED, test);
    AnyWithout(b, DERIVED, test);
  }

  function Named(id: ReasonId): Signal -> bool { (row: Signal) => row.id == id }

  /** The number of rows with one id. */
  function Count(rows: seq<Signal>, id: ReasonId): nat { Orders.Count(rows, Named(id)) }

  lemma CountConcat(a: seq<Signal>, b: seq<Signal>, id: ReasonId)
    ensures Count(a + b, id) == Count(a, id) + Count(b, id)
  {
    Orders.CountConcat(a, b, Named(id));
  }

  lemma CountWithoutStep(kept: seq<Signal>, init: seq<Signal>, last: Signal, ids: set<ReasonId>, id: ReasonId)
    requires Count(kept, id) == if id in ids then 0 else Count(init, id)
    ensures Count(if last.id in ids then kept else kept + [last], id) == if id in ids then 0 else Count(init + [last], id)
  {
    Orders.CountSnoc(kept, last, Named(id));
    Orders.CountSnoc(init, last, Named(id));
  }

  lemma {:induction false} CountWithout(rows: seq<Signal>, ids: set<ReasonId>, id: ReasonId)
    ensures Count(Without(rows, ids), id) == if id in ids then 0 else Count(rows, id)
  {
    if rows != [] {
      var init, last := rows[..|rows| - 1], rows[|rows| - 1];
      CountWithout(init, ids, id);
      CountWithoutStep(Without(init, ids), init, last, ids, id);
      assert rows == init + [last];
    }
  }

  lemma CountOne(row: Signal, id: ReasonId)
    ensures Count([row], id) == if row.id == id then 1 else 0
  {
    assert [row][..0] == [];
    assert Count([row][..0], id) == 0;
  }
}

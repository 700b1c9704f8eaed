/** What the projection depends on: which relationships were asserted when, and the journal. The
    order and the repetition of the decisions that asserted them do not matter. */
module ProjectionLaws {
  import opened Wrappers
  import opened Sorting
  import opened Identity
  import opened Projection

  /** Some identity asserts this relationship at this instant. */
  ghost predicate Asserts(ids: seq<ResolvedIdentity>, subject: EntityId, r: RelatedEntity, at: Instant) {
    exists i :: i in ids && i.entityId == subject && i.resolvedAt == at && r in i.related
  }

  ghost predicate SameAssertions(a: seq<ResolvedIdentity>, b: seq<ResolvedIdentity>) {
    forall s, r, at :: Asserts(a, s, r, at) <==> Asserts(b, s, r, at)
  }

  lemma {:induction false} AssertedOpSource(ids: seq<ResolvedIdentity>, o: Operation)
      returns (i: ResolvedIdentity, r: RelatedEntity)
    requires o in AssertedOps(ids)
    ensures i in ids && r in i.related && o == RelateOp(o.position, i, r)
  {
    var last := |ids| - 1;
    if o in AssertedOps(ids[..last]) {
      i, r := AssertedOpSource(ids[..last], o);
    } else {
      i := ids[last];
      var k :| 0 <= k < |i.related| && RelateOps(last, i)[k] == o;
      r := i.related[k];
    }
  }

  lemma {:induction false} AssertedOpFor(ids: seq<ResolvedIdentity>, i: ResolvedIdentity, r: RelatedEntity)
      returns (o: Operation)
    requires i in ids && r in i.related
    ensures o in AssertedOps(ids) && o == RelateOp(o.position, i, r)
  {
    var last := |ids| - 1;
    if i == ids[last] {
      var k :| 0 <= k < |i.related| && i.related[k] == r;
      o := RelateOps(last, i)[k];
    } else {
      o := AssertedOpFor(ids[..last], i, r);
    }
  }

  /** The same operation, up to the position of an asserted one. */
  ghost predicate Twins(a: Operation, b: Operation) {
    a == b.(position := a.position) && (a.rank != 0 ==> a == b)
  }

  lemma TwinOf(events: seq<EntityEvent>, a: seq<ResolvedIdentity>, b: seq<ResolvedIdentity>, o: Operation)
      returns (t: Operation)
    requires SameAssertions(a, b) && o in OperationSet(events, a)
    ensures t in OperationSet(events, b) && Twins(o, t)
  {
    if o in JournalOps(events) {
      t := o;
    } else {
      var i, r := AssertedOpSource(a, o);
      assert Asserts(a, i.entityId, r, i.resolvedAt);
      assert Asserts(b, i.entityId, r, i.resolvedAt);
      var j :| j in b && j.entityId == i.entityId && j.resolvedAt == i.resolvedAt && r in j.related;
      t := AssertedOpFor(b, j, r);
    }
  }

  /** Closings are journal events, so the two operation sets close links alike. */
  lemma SameClosings(events: seq<EntityEvent>, a: seq<ResolvedIdentity>, b: seq<ResolvedIdentity>, l: Link,
                     c: Operation)
    requires AllValid(events, a) && AllValid(events, b)
    requires ClosesLink(OperationSet(events, a), l, c)
    ensures ClosesLink(OperationSet(events, b), l, c) && c.rank != 0
  {
    AssertedOpsFacts(a);
    assert c in JournalOps(events);
  }

  lemma SameClosedBetween(events: seq<EntityEvent>, a: seq<ResolvedIdentity>, b: seq<ResolvedIdentity>, l: Link,
                          x: Operation, x': Operation, y: Operation, y': Operation)
    requires AllValid(events, a) && AllValid(events, b) && Twins(x, x') && Twins(y, y')
    requires ClosedBetween(OperationSet(events, a), l, x, y)
    ensures ClosedBetween(OperationSet(events, b), l, x', y')
  {
    var c :| ClosesLink(OperationSet(events, a), l, c) && Before(x, c) && Before(c, y);
    SameClosings(events, a, b, l, c);
  }

  lemma SameRunStart(events: seq<EntityEvent>, a: seq<ResolvedIdentity>, b: seq<ResolvedIdentity>, l: Link,
                     x: Operation, x': Operation)
    requires AllValid(events, a) && AllValid(events, b) && SameAssertions(a, b) && Twins(x, x')
    requires StartsRun(OperationSet(events, a), l, x) && x' in OperationSet(events, b)
    ensures StartsRun(OperationSet(events, b), l, x')
  {
    var A, B := OperationSet(events, a), OperationSet(events, b);
    forall y' | OpensLink(B, l, y') && Before(y', x') ensures y'.Start() == x'.Start() || ClosedBetween(B, l, y', x') {
      var y := TwinOf(events, b, a, y');
      if Before(y, x) && y.Start() != x.Start() {
        SameClosedBetween(events, a, b, l, y, y', x, x');
      } else if !Before(y, x) {
        OperationsFacts(events, b);
        assert y'.rank == 0 && x'.rank == 0;
      }
    }
  }

  lemma SameRunEnd(events: seq<EntityEvent>, a: seq<ResolvedIdentity>, b: seq<ResolvedIdentity>, l: Link,
                   x: Operation, x': Operation, end: Option<Instant>)
    requires AllValid(events, a) && AllValid(events, b) && Twins(x, x')
    requires EndsRun(OperationSet(events, a), l, x, end)
    ensures EndsRun(OperationSet(events, b), l, x', end)
  {
    var A, B := OperationSet(events, a), OperationSet(events, b);
    if end.None? {
      forall c | ClosesLink(B, l, c) ensures !Before(x', c) { SameClosings(events, b, a, l, c); }
    } else {
      var c :| ClosesLink(A, l, c) && c.at == end.value && Before(x, c) && !ClosedBetween(A, l, x, c);
      SameClosings(events, a, b, l, c);
      if ClosedBetween(B, l, x', c) { SameClosedBetween(events, b, a, l, x', x, c, c); }
    }
  }

  lemma IntervalTransfers(events: seq<EntityEvent>, a: seq<ResolvedIdentity>, b: seq<ResolvedIdentity>, m: Membership)
    requires AllValid(events, a) && AllValid(events, b) && SameAssertions(a, b)
    requires IsInterval(OperationSet(events, a), m)
    ensures IsInterval(OperationSet(events, b), m)
  {
    var x :| StartsRun(OperationSet(events, a), m.Link(), x) && x.Start() == m.Start() &&
             EndsRun(OperationSet(events, a), m.Link(), x, m.validTo);
    var x' := TwinOf(events, a, b, x);
    SameRunStart(events, a, b, m.Link(), x, x');
    SameRunEnd(events, a, b, m.Link(), x, x', m.validTo);
  }

  /** The projection, as a sequence, depends only on the journal and on which relationships were
      asserted when: permuting or repeating identities returns the identical projection. */
  lemma ProjectionDependsOnAssertions(
      events: seq<EntityEvent>, a: seq<ResolvedIdentity>, b: seq<ResolvedIdentity>,
      pa: seq<Membership>, pb: seq<Membership>)
    requires AllValid(events, a) && AllValid(events, b) && SameAssertions(a, b)
    requires SortedBy(MembershipLess, pa) && forall m :: m in pa <==> IsInterval(OperationSet(events, a), m)
    requires SortedBy(MembershipLess, pb) && forall m :: m in pb <==> IsInterval(OperationSet(events, b), m)
    ensures pa == pb
  {
    forall m ensures m in pa <==> m in pb {
      if m in pa { IntervalTransfers(events, a, b, m); }
      if m in pb { IntervalTransfers(events, b, a, m); }
    }
    MembershipOrder();
    StrictlySortedUnique(MembershipLess, pa, pb);
  }
}

/** What the journal and the resolved identities say of two ids at an instant, read off the events and
    the identities themselves, and that the projection says exactly that. */
module History {
  import opened Wrappers
  import opened Identity
  import opened Projection
  import ProjectionLaws

  /** The event is about `a` and `b`: under the type, in that order, or, without one, as merged ids. */
  predicate Concerns(e: EntityEvent, a: EntityId, b: EntityId, relationship: Option<string>) {
    if relationship.Some? then
      e.kind in {Relate, Unrelate} && e.subject == a && e.other == b && e.relationship == relationship
    else e.kind in {Merge, Detach} && {e.subject, e.other} == {a, b}
  }

  /** Event `p` is the last about `a` and `b` up to `t`; of events at one instant, the later entry. */
  ghost predicate LastWord(events: seq<EntityEvent>, a: EntityId, b: EntityId, relationship: Option<string>,
                           t: Instant, p: int) {
    && 0 <= p < |events| && Concerns(events[p], a, b, relationship) && events[p].effectiveAt <= t
    && forall q :: 0 <= q < |events| && Concerns(events[q], a, b, relationship) && events[q].effectiveAt <= t ==>
         || events[q].effectiveAt < events[p].effectiveAt
         || (events[q].effectiveAt == events[p].effectiveAt && q <= p)
  }

  /** Some identity established at `at` relates `a` to `b` under the type. */
  ghost predicate AssertedAt(identities: set<ResolvedIdentity>, a: EntityId, b: EntityId,
                             relationship: Option<string>, at: Instant) {
    exists i, r :: i in identities && r in i.related && i.resolvedAt == at && i.entityId == a &&
                   r.entityId == b && relationship == Some(r.relationshipType)
  }

  /** The last event merges or relates, or an identity relates them later than it; without an event,
      an identity relates them. */
  ghost predicate Joined(events: seq<EntityEvent>, identities: set<ResolvedIdentity>, a: EntityId, b: EntityId,
                         relationship: Option<string>, t: Instant) {
    || (exists p :: LastWord(events, a, b, relationship, t, p) &&
                    (events[p].kind in {Relate, Merge} ||
                     exists at :: events[p].effectiveAt < at <= t && AssertedAt(identities, a, b, relationship, at)))
    || ((forall p :: !LastWord(events, a, b, relationship, t, p)) &&
        exists at :: at <= t && AssertedAt(identities, a, b, relationship, at))
  }

  /** Some interval between `a` and `b` under the type covers `t`. */
  ghost predicate Shows(intervals: set<Membership>, a: EntityId, b: EntityId, relationship: Option<string>,
                        t: Instant) {
    exists m :: m in intervals && m.relationship == relationship &&
                (if relationship.Some? then m.subject == a && m.related == b else {m.subject, m.related} == {a, b}) &&
                m.validFrom <= t && (m.validTo.Some? ==> t < m.validTo.value)
  }

  /** The interval opens where a merge, a relate or an identity joined its ids, in that orientation,
      and ends where a detach or an unrelate parted them. */
  ghost predicate Traced(events: seq<EntityEvent>, identities: set<ResolvedIdentity>, m: Membership) {
    && (|| AssertedAt(identities, m.subject, m.related, m.relationship, m.validFrom)
        || exists e :: e in events && e.kind in {Relate, Merge} && e.subject == m.subject && e.other == m.related &&
                       e.relationship == m.relationship && e.effectiveAt == m.validFrom)
    && (m.validTo.Some? ==>
          exists e :: e in events && e.kind in {Unrelate, Detach} && e.effectiveAt == m.validTo.value &&
                      Concerns(e, m.subject, m.related, m.relationship))
  }

  // --- the operations behind them -------------------------------------------------------------

  function SetOf<T>(s: seq<T>): set<T> { set x | x in s }

  /** The latest operation on the link up to the instant, which decides whether the link holds. */
  ghost predicate Latest(ops: set<Operation>, l: Link, t: Instant, o: Operation) {
    o in ops && o.Link() == l && o.at <= t &&
    forall c :: c in ops && c.Link() == l && c.at <= t ==> c == o || Before(c, o)
  }

  lemma LatestExists(events: seq<EntityEvent>, ids: seq<ResolvedIdentity>, l: Link, t: Instant, x: Operation)
      returns (o: Operation)
    requires AllValid(events, ids)
    requires x in OperationSet(events, ids) && x.Link() == l && x.at <= t
    ensures Latest(OperationSet(events, ids), l, t, o)
  {
    var ops := SortedOperations(events, ids);
    var k := SplitExists(ops, t, |ops|);
    assert x in Elements(ops);
    var i :| 0 <= i < |ops| && ops[i] == x;
    LastIsLatest(ops, l, t, k);
    o := ops[LastOn(ops, k, l).value];
  }

  lemma EventOperation(events: seq<EntityEvent>, ids: seq<ResolvedIdentity>, p: nat, a: EntityId, b: EntityId,
                       relationship: Option<string>)
    requires p < |events| && events[p].Valid()
    ensures JournalOp(p, events[p]) in OperationSet(events, ids)
    ensures Concerns(events[p], a, b, relationship) <==> JournalOp(p, events[p]).Link() == LinkOf(a, b, relationship)
  {
    assert JournalOps(events)[p] in Operations(events, ids);
  }

  lemma AssertedOperation(events: seq<EntityEvent>, ids: seq<ResolvedIdentity>, a: EntityId, b: EntityId,
                          relationship: Option<string>, at: Instant) returns (o: Operation)
    requires AssertedAt(SetOf(ids), a, b, relationship, at)
    ensures o in OperationSet(events, ids) && o.rank == 0 && o.at == at && o.Link() == LinkOf(a, b, relationship)
  {
    var i, r :| i in SetOf(ids) && r in i.related && i.resolvedAt == at && i.entityId == a && r.entityId == b &&
                relationship == Some(r.relationshipType);
    o := ProjectionLaws.AssertedOpFor(ids, i, r);
  }

  /** An operation is an event, by its place in the journal, or an identity's relationship. */
  lemma OperationSource(events: seq<EntityEvent>, ids: seq<ResolvedIdentity>, o: Operation)
    requires AllValid(events, ids) && o in OperationSet(events, ids)
    ensures o.rank <= 1 && (o.rank == 1 ==> o.position < |events| && o == JournalOp(o.position, events[o.position]))
    ensures o.rank == 0 ==> AssertedAt(SetOf(ids), o.subject, o.other, o.relationship, o.at) && o.Opens() && o.IsTyped()
  {
    if o in AssertedOps(ids) {
      var i, r := ProjectionLaws.AssertedOpSource(ids, o);
      assert i in SetOf(ids) && r in i.related;
    } else {
      assert o in JournalOps(events);
    }
  }

  lemma LatestEventHasLastWord(events: seq<EntityEvent>, ids: seq<ResolvedIdentity>, a: EntityId, b: EntityId,
                               relationship: Option<string>, t: Instant, o: Operation)
    requires AllValid(events, ids) && o.rank == 1
    requires Latest(OperationSet(events, ids), LinkOf(a, b, relationship), t, o)
    ensures LastWord(events, a, b, relationship, t, o.position)
  {
    OperationSource(events, ids, o);
    EventOperation(events, ids, o.position, a, b, relationship);
    forall q | 0 <= q < |events| && Concerns(events[q], a, b, relationship) && events[q].effectiveAt <= t
      ensures events[q].effectiveAt < o.at || (events[q].effectiveAt == o.at && q <= o.position)
    {
      EventOperation(events, ids, q, a, b, relationship);
    }
  }

  /** Where an assertion is the latest operation, it comes after every event. */
  lemma LatestAssertionComesLast(events: seq<EntityEvent>, ids: seq<ResolvedIdentity>, a: EntityId, b: EntityId,
                                 relationship: Option<string>, t: Instant, o: Operation, p: nat)
    requires AllValid(events, ids) && o.rank == 0 && LastWord(events, a, b, relationship, t, p)
    requires Latest(OperationSet(events, ids), LinkOf(a, b, relationship), t, o)
    ensures events[p].effectiveAt < o.at
  {
    EventOperation(events, ids, p, a, b, relationship);
  }

  lemma LatestDecides(events: seq<EntityEvent>, ids: seq<ResolvedIdentity>, a: EntityId, b: EntityId,
                      relationship: Option<string>, t: Instant, o: Operation)
    requires AllValid(events, ids) && Latest(OperationSet(events, ids), LinkOf(a, b, relationship), t, o)
    ensures Joined(events, SetOf(ids), a, b, relationship, t) <==> o.Opens()
  {
    OperationSource(events, ids, o);
    if o.rank == 1 {
      LatestEventHasLastWord(events, ids, a, b, relationship, t, o);
      forall at | o.at < at <= t ensures !AssertedAt(SetOf(ids), a, b, relationship, at) {
        if AssertedAt(SetOf(ids), a, b, relationship, at) {
          var c := AssertedOperation(events, ids, a, b, relationship, at);
        }
      }
    } else {
      AssertionOn(ids, a, b, relationship, o);
      forall p | LastWord(events, a, b, relationship, t, p) ensures events[p].effectiveAt < o.at {
        LatestAssertionComesLast(events, ids, a, b, relationship, t, o, p);
      }
    }
  }

  lemma AssertionOn(ids: seq<ResolvedIdentity>, a: EntityId, b: EntityId, relationship: Option<string>, o: Operation)
    requires o.Link() == LinkOf(a, b, relationship) && o.IsTyped()
    requires AssertedAt(SetOf(ids), o.subject, o.other, o.relationship, o.at)
    ensures AssertedAt(SetOf(ids), a, b, relationship, o.at)
  {
  }

  lemma JoinedHolds(events: seq<EntityEvent>, ids: seq<ResolvedIdentity>, a: EntityId, b: EntityId,
                    relationship: Option<string>, t: Instant)
    requires AllValid(events, ids)
    ensures HoldsAt(OperationSet(events, ids), LinkOf(a, b, relationship), t) <==>
            Joined(events, SetOf(ids), a, b, relationship, t)
  {
    var ops, l := OperationSet(events, ids), LinkOf(a, b, relationship);
    if x :| x in ops && x.Link() == l && x.at <= t {
      var o := LatestExists(events, ids, l, t, x);
      LatestDecides(events, ids, a, b, relationship, t, o);
      assert HoldsAt(ops, l, t) <==> o.Opens();
    } else {
      assert !HoldsAt(ops, l, t);
      if Joined(events, SetOf(ids), a, b, relationship, t) {
        var x := JoinedHasOperation(events, ids, a, b, relationship, t);
        assert false;
      }
    }
  }

  lemma JoinedHasOperation(events: seq<EntityEvent>, ids: seq<ResolvedIdentity>, a: EntityId, b: EntityId,
                           relationship: Option<string>, t: Instant) returns (o: Operation)
    requires AllValid(events, ids) && Joined(events, SetOf(ids), a, b, relationship, t)
    ensures o in OperationSet(events, ids) && o.Link() == LinkOf(a, b, relationship) && o.at <= t
  {
    if p :| LastWord(events, a, b, relationship, t, p) {
      EventOperation(events, ids, p, a, b, relationship);
      o := JournalOp(p, events[p]);
    } else {
      var at :| at <= t && AssertedAt(SetOf(ids), a, b, relationship, at);
      o := AssertedOperation(events, ids, a, b, relationship, at);
    }
  }

  // --- what the projection says -----------------------------------------------------------------

  ghost predicate IsProjection(events: seq<EntityEvent>, ids: seq<ResolvedIdentity>, intervals: set<Membership>) {
    forall m :: m in intervals <==> IsInterval(OperationSet(events, ids), m)
  }

  /** The projection shows two ids joined at an instant exactly when the journal and the identities
      say they are. */
  lemma ShowsWhatIsJoined(events: seq<EntityEvent>, ids: seq<ResolvedIdentity>, intervals: set<Membership>,
                          a: EntityId, b: EntityId, relationship: Option<string>, t: Instant)
    requires AllValid(events, ids) && IsProjection(events, ids, intervals)
    ensures Shows(intervals, a, b, relationship, t) <==> Joined(events, SetOf(ids), a, b, relationship, t)
  {
    var ops, l := OperationSet(events, ids), LinkOf(a, b, relationship);
    PointInTime(events, ids, l, t);
    JoinedHolds(events, ids, a, b, relationship, t);
    if m :| IsInterval(ops, m) && m.Link() == l && m.Covers(t) { assert m in intervals; }
  }

  /** Every interval is traced to what opened it and what ended it. */
  lemma IntervalIsTraced(events: seq<EntityEvent>, ids: seq<ResolvedIdentity>, m: Membership)
    requires AllValid(events, ids) && IsInterval(OperationSet(events, ids), m)
    ensures Traced(events, SetOf(ids), m)
  {
    var ops, l := OperationSet(events, ids), m.Link();
    var o :| StartsRun(ops, l, o) && o.Start() == m.Start() && EndsRun(ops, l, o, m.validTo);
    OperationSource(events, ids, o);
    if o.rank == 1 { assert events[o.position] in events; }
    if m.validTo.Some? {
      var c :| ClosesLink(ops, l, c) && c.at == m.validTo.value;
      OperationSource(events, ids, c);
      EventOperation(events, ids, c.position, m.subject, m.related, m.relationship);
      assert events[c.position] in events;
    }
  }
}

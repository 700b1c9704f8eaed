/** The tables behind the projection, as values: what one bundle write does to them, and exactly
    when the projection it maintains stays the one a rebuild would compute. */
module MembershipTables {
  import opened Wrappers
  import opened Identity
  import opened Projection
  import opened Incremental

  type DecisionId = nat

  /** A version-2 row of `decision_bundles`, as far as the projection reads it. */
  datatype BundleRow = BundleRow(decisionId: DecisionId, createdAt: Instant, identity: Option<ResolvedIdentity>)

  datatype Tables = Tables(bundles: seq<BundleRow>, events: seq<EntityEvent>, membership: set<Membership>)

  ghost predicate ValidTables(t: Tables) {
    && (forall b :: b in t.bundles && b.identity.Some? ==> b.identity.value.Valid())
    && (forall e :: e in t.events ==> e.Valid())
  }

  predicate HasBundle(bundles: seq<BundleRow>, id: DecisionId) {
    exists b :: b in bundles && b.decisionId == id
  }

  /** In row order, the identities with relationships to assert. */
  function Asserting(bundles: seq<BundleRow>): seq<ResolvedIdentity> {
    if bundles == [] then []
    else
      var last := bundles[|bundles| - 1];
      Asserting(bundles[..|bundles| - 1]) +
      (if last.identity.Some? && last.identity.value.related != [] then [last.identity.value] else [])
  }

  lemma {:induction false} AssertingElements(bundles: seq<BundleRow>, i: ResolvedIdentity)
    ensures i in Asserting(bundles) <==> i.related != [] && exists b :: b in bundles && b.identity == Some(i)
  {
    if bundles != [] {
      var init, last := bundles[..|bundles| - 1], bundles[|bundles| - 1];
      AssertingElements(init, i);
      assert bundles == init + [last];
    }
  }

  ghost function Sources(t: Tables): set<Operation> { OperationSet(t.events, Asserting(t.bundles)) }

  /** The stored rows are exactly the intervals of journal and bundles together. */
  ghost predicate InSync(t: Tables) {
    forall m :: m in t.membership <==> IsInterval(Sources(t), m)
  }

  lemma TablesAreFoldable(t: Tables)
    requires ValidTables(t)
    ensures AllValid(t.events, Asserting(t.bundles))
  {
    forall i | i in Asserting(t.bundles) ensures i.Valid() { AssertingElements(t.bundles, i); }
  }

  // --- the write path ---------------------------------------------------------------------

  function RelationshipRow(identity: ResolvedIdentity, r: RelatedEntity): Membership {
    Membership(identity.entityId, r.entityId, Some(r.relationshipType), identity.resolvedAt, None)
  }

  /** An open row for each relationship of the bundle's identity. */
  function RelationshipRows(b: BundleRow): seq<Membership> {
    if b.identity.None? then []
    else seq(|b.identity.value.related|, i requires 0 <= i < |b.identity.value.related| =>
               RelationshipRow(b.identity.value, b.identity.value.related[i]))
  }

  predicate OpenFor(ms: set<Membership>, l: Link) {
    exists m :: m in ms && m.Current() && m.Link() == l
  }

  /** `INSERT ... ON CONFLICT DO NOTHING` under the unique index on open links. */
  function InsertOpen(ms: set<Membership>, row: Membership): set<Membership> {
    if OpenFor(ms, row.Link()) then ms else ms + {row}
  }

  function InsertAll(ms: set<Membership>, rows: seq<Membership>): set<Membership> {
    if rows == [] then ms else InsertOpen(InsertAll(ms, rows[..|rows| - 1]), rows[|rows| - 1])
  }

  function AfterWrite(t: Tables, b: BundleRow): Tables {
    if HasBundle(t.bundles, b.decisionId) then t
    else Tables(t.bundles + [b], t.events, InsertAll(t.membership, RelationshipRows(b)))
  }

  /** Rows of distinct links are inserted independently of one another. */
  lemma {:induction false} InsertAllMeaning(ms: set<Membership>, rows: seq<Membership>, m: Membership)
    requires forall i, j :: 0 <= i < j < |rows| ==> rows[i].Link() != rows[j].Link()
    requires forall r :: r in rows ==> r.Current()
    ensures m in InsertAll(ms, rows) <==> m in ms || (m in rows && !OpenFor(ms, m.Link()))
    ensures (forall r :: r in rows ==> r.Link() != m.Link()) ==>
              (OpenFor(InsertAll(ms, rows), m.Link()) <==> OpenFor(ms, m.Link()))
  {
    if rows != [] {
      var init, last := rows[..|rows| - 1], rows[|rows| - 1];
      assert rows == init + [last];
      InsertAllMeaning(ms, init, m);
      InsertAllMeaning(ms, init, last);
    }
  }

  // --- one write against the rebuild ----------------------------------------------------------

  function RelationLink(identity: ResolvedIdentity, r: RelatedEntity): Link {
    Typed(identity.entityId, r.entityId, Some(r.relationshipType))
  }

  /** Every relationship the bundle asserts comes at an instant its link can take it. */
  ghost predicate TimelyWrite(t: Tables, b: BundleRow) {
    b.identity.Some? ==>
      forall r :: r in b.identity.value.related ==>
        Timely(Sources(t), RelationLink(b.identity.value, r), b.identity.value.resolvedAt)
  }

  /** The fold's sources after a bundle is stored. */
  lemma SourcesAfter(t: Tables, b: BundleRow, o: Operation)
    requires b.identity.Some?
    ensures o in Sources(t.(bundles := t.bundles + [b])) <==>
            o in Sources(t) || o in RelateOps(|Asserting(t.bundles)|, b.identity.value)
  {
    var more := t.bundles + [b];
    assert more[..|more| - 1] == t.bundles;
    var ids := Asserting(more);
    if b.identity.value.related != [] {
      assert ids == Asserting(t.bundles) + [b.identity.value];
      assert ids[..|ids| - 1] == Asserting(t.bundles);
      assert AssertedOps(ids) ==
        AssertedOps(Asserting(t.bundles)) + RelateOps(|Asserting(t.bundles)|, b.identity.value);
    } else {
      assert ids == Asserting(t.bundles);
    }
  }

  lemma WriteAdds(t: Tables, b: BundleRow, i: nat)
    requires ValidTables(t) && b.identity.Some? && b.identity.value.Valid() && i < |b.identity.value.related|
    requires ValidTables(t.(bundles := t.bundles + [b]))
    requires AllValid(t.events, Asserting(t.bundles)) && AllValid(t.events, Asserting(t.bundles + [b]))
    ensures Adds(SortedOperations(t.events, Asserting(t.bundles)),
                 SortedOperations(t.events, Asserting(t.bundles + [b])),
                 RelationLink(b.identity.value, b.identity.value.related[i]),
                 RelateOp(|Asserting(t.bundles)|, b.identity.value, b.identity.value.related[i]))
  {
    var id := b.identity.value;
    var ids := Asserting(t.bundles);
    var n, l := RelateOp(|ids|, id, id.related[i]), RelationLink(id, id.related[i]);
    AssertedOpsFacts(ids);
    assert n !in AssertedOps(ids);
    assert n == RelateOps(|ids|, id)[i];
    SourcesAfter(t, b, n);
    forall o: Operation | o.Link() == l && o != n
      ensures o in Sources(t.(bundles := t.bundles + [b])) <==> o in Sources(t)
    {
      SourcesAfter(t, b, o);
      OtherRelations(|ids|, id, i, o);
    }
    assert forall o :: o in Sources(t) && o.rank == 0 ==> o in AssertedOps(ids);
  }

  lemma OtherRelations(p: nat, id: ResolvedIdentity, i: nat, o: Operation)
    requires id.Valid() && i < |id.related| && o.Link() == RelationLink(id, id.related[i])
    ensures o in RelateOps(p, id) ==> o == RelateOp(p, id, id.related[i])
  {
    if o in RelateOps(p, id) {
      var j :| 0 <= j < |id.related| && RelateOps(p, id)[j] == o;
      assert PairOf(id.related[j]) == PairOf(id.related[i]);
    }
  }

  ghost predicate Untouched(b: BundleRow, l: Link) {
    b.identity.Some? ==> forall r :: r in b.identity.value.related ==> RelationLink(b.identity.value, r) != l
  }

  /** A link the bundle does not touch keeps its intervals. */
  lemma UntouchedLink(t: Tables, b: BundleRow, m: Membership)
    requires Untouched(b, m.Link())
    ensures IsInterval(Sources(t), m) <==> IsInterval(Sources(t.(bundles := t.bundles + [b])), m)
  {
    var t' := t.(bundles := t.bundles + [b]);
    var A, B, l := Sources(t), Sources(t'), m.Link();
    assert t'.bundles[..|t.bundles|] == t.bundles;
    if b.identity.Some? {
      forall o: Operation | o.Link() == l ensures o in A <==> o in B {
        SourcesAfter(t, b, o);
        if o in RelateOps(|Asserting(t.bundles)|, b.identity.value) {
          var i :| 0 <= i < |b.identity.value.related| && RelateOps(|Asserting(t.bundles)|, b.identity.value)[i] == o;
          assert b.identity.value.related[i] in b.identity.value.related;
        }
      }
      SameOnLink(A, B, m);
    } else {
      assert Asserting(t'.bundles) == Asserting(t.bundles);
    }
  }

  lemma SameOnLink(A: set<Operation>, B: set<Operation>, m: Membership)
    requires forall o: Operation :: o.Link() == m.Link() ==> (o in A <==> o in B)
    ensures IsInterval(A, m) <==> IsInterval(B, m)
  {
    if IsInterval(A, m) { OnLinkOnly(A, B, m); }
    if IsInterval(B, m) { OnLinkOnly(B, A, m); }
  }

  lemma OnLinkOnly(A: set<Operation>, B: set<Operation>, m: Membership)
    requires forall o: Operation :: o.Link() == m.Link() ==> (o in A <==> o in B)
    requires IsInterval(A, m)
    ensures IsInterval(B, m)
  {
    var l := m.Link();
    var x :| StartsRun(A, l, x) && x.Start() == m.Start() && EndsRun(A, l, x, m.validTo);
    assert forall c :: ClosesLink(A, l, c) <==> ClosesLink(B, l, c);
    assert forall o, c :: ClosedBetween(A, l, o, c) <==> ClosedBetween(B, l, o, c);
    assert StartsRun(B, l, x);
    assert EndsRun(B, l, x, m.validTo);
  }

  /** The projection's rows on the links a bundle asserts, after the bundle is written. */
  lemma WrittenRows(t: Tables, b: BundleRow, m: Membership)
    requires b.identity.Some? && b.identity.value.Valid()
    ensures m in InsertAll(t.membership, RelationshipRows(b)) <==>
            m in t.membership || (m in RelationshipRows(b) && !OpenFor(t.membership, m.Link()))
  {
    var id, rows := b.identity.value, RelationshipRows(b);
    forall i, j | 0 <= i < j < |rows| ensures rows[i].Link() != rows[j].Link() {
      assert PairOf(id.related[i]) != PairOf(id.related[j]);
    }
    InsertAllMeaning(t.membership, rows, m);
  }

  lemma OpenRowsAgree(t: Tables, l: Link)
    requires InSync(t)
    ensures HasOpenRow(Sources(t), l) <==> OpenFor(t.membership, l)
  {
    forall m ensures OpenRow(Sources(t), l, m) <==> m in t.membership && m.Current() && m.Link() == l { }
  }

  lemma RowsOnLink(t: Tables, b: BundleRow, r: RelatedEntity, m: Membership)
    requires b.identity.Some? && b.identity.value.Valid() && r in b.identity.value.related
    requires m.Link() == RelationLink(b.identity.value, r)
    ensures m in InsertAll(t.membership, RelationshipRows(b)) <==>
            m in t.membership || (!OpenFor(t.membership, m.Link()) && m == RelationshipRow(b.identity.value, r))
  {
    var id, rows := b.identity.value, RelationshipRows(b);
    WrittenRows(t, b, m);
    var i :| 0 <= i < |id.related| && id.related[i] == r;
    assert rows[i] == RelationshipRow(id, r);
    if m in rows {
      var j :| 0 <= j < |rows| && rows[j] == m;
      assert PairOf(id.related[j]) == PairOf(r);
    }
  }

  /** On one asserted link, the written projection agrees with the rebuild exactly when timely. */
  lemma WriteOnLink(t: Tables, b: BundleRow, r: RelatedEntity)
    requires ValidTables(t) && InSync(t) && ValidTables(t.(bundles := t.bundles + [b]))
    requires b.identity.Some? && b.identity.value.Valid() && r in b.identity.value.related
    ensures Timely(Sources(t), RelationLink(b.identity.value, r), b.identity.value.resolvedAt) <==>
            forall m: Membership :: m.Link() == RelationLink(b.identity.value, r) ==>
              (IsInterval(Sources(t.(bundles := t.bundles + [b])), m) <==>
               m in InsertAll(t.membership, RelationshipRows(b)))
  {
    var id, t' := b.identity.value, t.(bundles := t.bundles + [b]);
    var l := RelationLink(id, r);
    InsertOnLink(t, b, r);
    OpenRowsAgree(t, l);
    forall m: Membership | m.Link() == l
      ensures m in InsertAll(t.membership, RelationshipRows(b)) <==>
              IsInterval(Sources(t), m) || (!HasOpenRow(Sources(t), l) && m == RelationshipRow(id, r))
    {
      RowsOnLink(t, b, r, m);
    }
  }

  lemma InsertOnLink(t: Tables, b: BundleRow, r: RelatedEntity)
    requires ValidTables(t) && ValidTables(t.(bundles := t.bundles + [b]))
    requires b.identity.Some? && b.identity.value.Valid() && r in b.identity.value.related
    ensures var l := RelationLink(b.identity.value, r);
            Timely(Sources(t), l, b.identity.value.resolvedAt) <==>
            forall m: Membership :: m.Link() == l ==>
              (IsInterval(Sources(t.(bundles := t.bundles + [b])), m) <==>
               IsInterval(Sources(t), m) || (!HasOpenRow(Sources(t), l) && m == RelationshipRow(b.identity.value, r)))
  {
    var id, t' := b.identity.value, t.(bundles := t.bundles + [b]);
    var i :| 0 <= i < |id.related| && id.related[i] == r;
    TablesAreFoldable(t);
    TablesAreFoldable(t');
    WriteAdds(t, b, i);
    var n, l := RelateOp(|Asserting(t.bundles)|, id, r), RelationLink(id, r);
    InsertIsRebuild(SortedOperations(t.events, Asserting(t.bundles)),
                    SortedOperations(t.events, Asserting(t'.bundles)), l, n);
  }

  /** Writing a bundle keeps the stored projection equal to the fold exactly when every
      relationship it asserts is timely. */
  lemma WriteKeepsSync(t: Tables, b: BundleRow)
    requires ValidTables(t) && InSync(t) && !HasBundle(t.bundles, b.decisionId)
    requires b.identity.Some? ==> b.identity.value.Valid()
    ensures InSync(AfterWrite(t, b)) <==> TimelyWrite(t, b)
  {
    var t', rows := AfterWrite(t, b), RelationshipRows(b);
    var u := t.(bundles := t.bundles + [b]);
    assert Sources(t') == Sources(u);
    if b.identity.Some? {
      forall r | r in b.identity.value.related { WriteOnLink(t, b, r); }
    }
    forall m: Membership | Untouched(b, m.Link())
      ensures IsInterval(Sources(u), m) <==> m in t'.membership
    {
      UntouchedLink(t, b, m);
      if b.identity.Some? {
        WrittenRows(t, b, m);
        if m in rows { RowLinks(b, m); }
      }
    }
    if TimelyWrite(t, b) {
      forall m ensures m in t'.membership <==> IsInterval(Sources(t'), m) {
        if b.identity.Some? {
          if r :| r in b.identity.value.related && RelationLink(b.identity.value, r) == m.Link() { }
        }
      }
    }
  }

  /** A journal that ends a relationship no bundle asserted. */
  const ENDED := Tables([], [EntityEvent(Unrelate, 1, 2, Some("r"), 20)], {})

  /** A bundle that asserts the relationship back-dated. */
  const BACK_DATED :=
    BundleRow(7, 30, Some(ResolvedIdentity(1, "person", 5, Deterministic, [RelatedEntity("r", "person", 2)])))

  /** The condition can fail: the relationship is opened for good, while the fold ends it at 20. */
  lemma BackDatedWriteFails()
    ensures ValidTables(ENDED) && InSync(ENDED) && BACK_DATED.identity.value.Valid()
    ensures !TimelyWrite(ENDED, BACK_DATED) && !InSync(AfterWrite(ENDED, BACK_DATED))
  {
    var l := Typed(1, 2, Some("r"));
    var end := JournalOp(0, ENDED.events[0]);
    assert Operations(ENDED.events, Asserting(ENDED.bundles)) == [end];
    assert end in Sources(ENDED) && ClosesLink(Sources(ENDED), l, end);
    assert forall o :: o in Sources(ENDED) ==> !o.Opens();
    assert !HasOpenRow(Sources(ENDED), l);
    var r := BACK_DATED.identity.value.related[0];
    assert r in BACK_DATED.identity.value.related && RelationLink(BACK_DATED.identity.value, r) == l;
    assert !Timely(Sources(ENDED), l, 5);
    WriteKeepsSync(ENDED, BACK_DATED);
  }

  lemma RowLinks(b: BundleRow, m: Membership)
    requires b.identity.Some? && m in RelationshipRows(b)
    ensures exists r :: r in b.identity.value.related && RelationLink(b.identity.value, r) == m.Link()
  {
    var i :| 0 <= i < |b.identity.value.related| && RelationshipRows(b)[i] == m;
    assert RelationLink(b.identity.value, b.identity.value.related[i]) == m.Link();
  }

  // --- runs ---------------------------------------------------------------------------------

  /** Later than every journal event on the link, and not earlier than any assertion on it. */
  ghost predicate Later(s: set<Operation>, l: Link, t: Instant) {
    forall o :: o in s && o.Link() == l ==> o.at <= t && (o.rank != 0 ==> o.at < t)
  }

  lemma LaterIsTimely(t: Tables, l: Link, at: Instant)
    requires ValidTables(t) && Later(Sources(t), l, at)
    ensures Timely(Sources(t), l, at)
  {
    TablesAreFoldable(t);
    OperationsFacts(t.events, Asserting(t.bundles));
    if m :| OpenRow(Sources(t), l, m) {
      var x :| StartsRun(Sources(t), l, x) && x.Start() == m.Start() && EndsRun(Sources(t), l, x, None);
      assert Reaches(m, l, at);
    }
  }

  datatype Step = Write(b: BundleRow) | Append(events: seq<EntityEvent>) | Rebuild

  /** What one step does; an append and a rebuild refold the journal and the bundles. */
  ghost predicate StepTo(t: Tables, s: Step, t': Tables) {
    match s
    case Write(b) => t' == AfterWrite(t, b)
    case Append(es) => t'.bundles == t.bundles && t'.events == t.events + es && InSync(t')
    case Rebuild => t'.bundles == t.bundles && t'.events == t.events && InSync(t')
  }

  ghost predicate ValidStep(s: Step) {
    && (s.Write? && s.b.identity.Some? ==> s.b.identity.value.Valid())
    && (s.Append? ==> forall e :: e in s.events ==> e.Valid())
  }

  ghost predicate StepInOrder(t: Tables, s: Step) {
    s.Write? && s.b.identity.Some? ==>
      forall r :: r in s.b.identity.value.related ==>
        Later(Sources(t), RelationLink(s.b.identity.value, r), s.b.identity.value.resolvedAt)
  }

  /** Over any run whose decisions assert their relationships in time order, the projection kept
      incrementally is at every point the one a rebuild would compute. */
  lemma {:induction false} RunStaysInSync(states: seq<Tables>, steps: seq<Step>)
    requires |states| == |steps| + 1 && ValidTables(states[0]) && InSync(states[0])
    requires forall i :: 0 <= i < |steps| ==>
               ValidStep(steps[i]) && StepTo(states[i], steps[i], states[i + 1]) && StepInOrder(states[i], steps[i])
    ensures ValidTables(states[|steps|]) && InSync(states[|steps|])
  {
    if steps != [] {
      var n := |steps| - 1;
      RunStaysInSync(states[..n + 1], steps[..n]);
      var t, s := states[n], steps[n];
      assert StepTo(t, s, states[n + 1]) && ValidStep(s) && StepInOrder(t, s);
      if s.Write? && !HasBundle(t.bundles, s.b.decisionId) {
        if s.b.identity.Some? {
          forall r | r in s.b.identity.value.related
            ensures Timely(Sources(t), RelationLink(s.b.identity.value, r), s.b.identity.value.resolvedAt)
          {
            LaterIsTimely(t, RelationLink(s.b.identity.value, r), s.b.identity.value.resolvedAt);
          }
        }
        WriteKeepsSync(t, s.b);
      }
    }
  }
}

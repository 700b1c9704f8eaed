/** The bundle store's writes and the entity journal's appends and rebuilds, over the tables they
    share. */
module MembershipStore {
  import opened Wrappers
  import opened Sorting
  import opened Identity
  import opened Projection
  import PM = ProjectMembership
  import opened ProjectionLaws
  import opened History
  import opened MembershipTables
  import opened MembershipBatches

  /** The database tables. */
  class Database {
    var bundles: seq<BundleRow>
    var events: seq<EntityEvent>
    var membership: set<Membership>

    constructor ()
      ensures bundles == [] && events == [] && membership == {}
      ensures InSync(Tables())
    {
      bundles, events, membership := [], [], {};
    }

    ghost function Tables(): Tables
      reads this
    {
      MembershipTables.Tables(bundles, events, membership)
    }
  }

  // --- the bundle store ------------------------------------------------------------------------

  /** The row is one of the identity's relationships, open since the identity was established. */
  ghost predicate IsAsserted(identity: Option<ResolvedIdentity>, m: Membership) {
    identity.Some? && m.subject == identity.value.entityId && m.validFrom == identity.value.resolvedAt &&
    m.validTo.None? && exists r :: r in identity.value.related && r.entityId == m.related &&
                                   m.relationship == Some(r.relationshipType)
  }

  ghost predicate IsOpen(rows: set<Membership>, a: EntityId, b: EntityId, relationship: Option<string>) {
    exists m :: m in rows && m.subject == a && m.related == b && m.relationship == relationship && m.validTo.None?
  }

  /** A new bundle adds exactly its identity's relationships that are not open yet. */
  lemma WriteOpens(t: Tables, b: BundleRow)
    requires b.identity.Some? ==> b.identity.value.Valid()
    ensures forall m :: m in InsertAll(t.membership, RelationshipRows(b)) <==>
              m in t.membership ||
              (IsAsserted(b.identity, m) && !IsOpen(t.membership, m.subject, m.related, m.relationship))
  {
    var rows := RelationshipRows(b);
    if b.identity.Some? { RowsOfDistinctLinks(b, b.identity.value); }
    forall m ensures m in InsertAll(t.membership, rows) <==>
        m in t.membership ||
        (IsAsserted(b.identity, m) && !IsOpen(t.membership, m.subject, m.related, m.relationship)) {
      InsertAllMeaning(t.membership, rows, m);
      IsRow(b, m);
      if m in rows {
        assert OpenFor(t.membership, m.Link()) <==> IsOpen(t.membership, m.subject, m.related, m.relationship);
      }
    }
  }

  lemma RowsOfDistinctLinks(b: BundleRow, identity: ResolvedIdentity)
    requires b.identity == Some(identity) && identity.Valid()
    ensures var rows := RelationshipRows(b);
            && (forall i, j :: 0 <= i < j < |rows| ==> rows[i].Link() != rows[j].Link())
            && forall r :: r in rows ==> r.Current()
  {
    var rows := RelationshipRows(b);
    forall i, j | 0 <= i < j < |rows| ensures rows[i].Link() != rows[j].Link() {
      assert PairOf(identity.related[i]) != PairOf(identity.related[j]);
    }
  }

  lemma IsRow(b: BundleRow, m: Membership)
    ensures m in RelationshipRows(b) <==> IsAsserted(b.identity, m)
  {
    var rows := RelationshipRows(b);
    if IsAsserted(b.identity, m) {
      var r :| r in b.identity.value.related && r.entityId == m.related && m.relationship == Some(r.relationshipType);
      var k :| 0 <= k < |rows| && b.identity.value.related[k] == r;
      assert rows[k] == m;
    }
  }

  class BundleStore {
    const db: Database

    constructor (db: Database)
      ensures this.db == db
    {
      this.db := db;
    }

    /** Insert the rows in order, each unless its link has an open row. */
    method OpenRelationships(rows: seq<Membership>)
      modifies db`membership
      ensures db.membership == InsertAll(old(db.membership), rows)
    {
      var i := 0;
      while i < |rows|
        invariant 0 <= i <= |rows|
        invariant db.membership == InsertAll(old(db.membership), rows[..i])
      {
        if !OpenFor(db.membership, rows[i].Link()) {
          db.membership := db.membership + {rows[i]};
        }
        i := i + 1;
        assert rows[..i][..i - 1] == rows[..i - 1];
      }
      assert rows[..i] == rows;
    }

    /** Store a bundle once, and open the relationships its identity asserts. In sync before, the
        projection is in sync after exactly when those relationships are timely. */
    method Write(b: BundleRow)
      requires ValidTables(db.Tables()) && (b.identity.Some? ==> b.identity.value.Valid())
      modifies db
      ensures db.Tables() == AfterWrite(old(db.Tables()), b)
      ensures ValidTables(db.Tables())
      ensures old(InSync(db.Tables())) ==>
                (InSync(db.Tables()) <==> HasBundle(old(db.bundles), b.decisionId) || TimelyWrite(old(db.Tables()), b))
      ensures forall m :: m in db.membership <==>
                m in old(db.membership) ||
                ((forall x :: x in old(db.bundles) ==> x.decisionId != b.decisionId) &&
                 IsAsserted(b.identity, m) && !IsOpen(old(db.membership), m.subject, m.related, m.relationship))
    {
      ghost var t := db.Tables();
      if !HasBundle(db.bundles, b.decisionId) { WriteOpens(t, b); }
      var inserted := !HasBundle(db.bundles, b.decisionId);
      if inserted { db.bundles := db.bundles + [b]; }
      var relationships := if inserted then RelationshipRows(b) else [];
      if relationships != [] {
        OpenRelationships(relationships);
      }
      if inserted && InSync(t) { WriteKeepsSync(t, b); }
    }

    /** Store a batch of bundles, then open the relationships of those newly stored. */
    method WriteMany(batch: seq<BundleRow>)
      modifies db
      ensures db.Tables() == AfterBatch(old(db.Tables()), batch)
      ensures DistinctIds(batch) ==> db.Tables() == AfterWrites(old(db.Tables()), batch)
    {
      if batch == [] { return; }
      ghost var t := db.Tables();
      var inserted := StoreBatch(batch);
      var relationships := GatherRows(t.bundles, batch, inserted);
      if relationships != [] {
        OpenRelationships(relationships);
      }
      if DistinctIds(batch) { BatchIsWrites(t, batch); }
    }

    /** The first statement, row by row: the ids it inserted. */
    method StoreBatch(batch: seq<BundleRow>) returns (inserted: set<DecisionId>)
      modifies db`bundles
      ensures db.bundles == InsertBundles(old(db.bundles), batch)
      ensures forall id :: id in inserted <==> HasBundle(batch, id) && !HasBundle(old(db.bundles), id)
    {
      ghost var stored := db.bundles;
      inserted := {};
      for i := 0 to |batch|
        invariant db.bundles == InsertBundles(stored, batch[..i])
        invariant forall id :: id in inserted <==> HasBundle(batch[..i], id) && !HasBundle(stored, id)
      {
        InsertedIds(stored, batch[..i], batch[i].decisionId);
        InsertNext(stored, batch, i);
        if !HasBundle(db.bundles, batch[i].decisionId) {
          db.bundles := db.bundles + [batch[i]];
          inserted := inserted + {batch[i].decisionId};
        }
      }
      assert batch[..|batch|] == batch;
    }
  }

  lemma InsertNext(stored: seq<BundleRow>, batch: seq<BundleRow>, i: nat)
    requires i < |batch|
    ensures var before, b := InsertBundles(stored, batch[..i]), batch[i];
            InsertBundles(stored, batch[..i + 1]) == if HasBundle(before, b.decisionId) then before else before + [b]
    ensures forall id :: HasBundle(batch[..i + 1], id) <==> HasBundle(batch[..i], id) || batch[i].decisionId == id
  {
    var earlier, more := batch[..i], batch[..i + 1];
    assert more[..i] == earlier && more == earlier + [batch[i]];
    forall id ensures HasBundle(more, id) <==> HasBundle(earlier, id) || batch[i].decisionId == id {
      if HasBundle(earlier, id) {
        var b :| b in earlier && b.decisionId == id;
        assert b in more;
      }
      assert batch[i] in more;
      if HasBundle(more, id) {
        var b :| b in more && b.decisionId == id;
        assert b in earlier || b == batch[i];
      }
    }
  }

  /** The relationships of every bundle whose id the first statement inserted. */
  method GatherRows(ghost stored: seq<BundleRow>, batch: seq<BundleRow>, inserted: set<DecisionId>)
      returns (relationships: seq<Membership>)
    requires forall id :: id in inserted <==> HasBundle(batch, id) && !HasBundle(stored, id)
    ensures relationships == BatchRows(stored, batch)
  {
    relationships := [];
    for i := 0 to |batch|
      invariant relationships == BatchRows(stored, batch[..i])
    {
      assert batch[i] in batch && batch[..i + 1][..i] == batch[..i];
      if batch[i].decisionId in inserted { relationships := relationships + RelationshipRows(batch[i]); }
    }
    assert batch[..|batch|] == batch;
  }

  // --- the entity journal ------------------------------------------------------------------------

  /** `ORDER BY created_at, decision_id`. */
  predicate RowLeq(a: BundleRow, b: BundleRow) {
    a.createdAt < b.createdAt || (a.createdAt == b.createdAt && a.decisionId <= b.decisionId)
  }

  /** Reading the asserting bundles in another order reads the same assertions. */
  lemma OrderIsIrrelevant(bundles: seq<BundleRow>)
    ensures SameAssertions(Asserting(Sort(RowLeq, bundles)), Asserting(bundles))
    ensures forall i :: i in Asserting(Sort(RowLeq, bundles)) <==> i in Asserting(bundles)
  {
    SortKeepsElements(RowLeq, bundles);
    forall i ensures i in Asserting(Sort(RowLeq, bundles)) <==> i in Asserting(bundles) {
      AssertingElements(bundles, i);
      AssertingElements(Sort(RowLeq, bundles), i);
    }
  }

  /** The identities of the stored bundles. */
  function Identities(bundles: seq<BundleRow>): set<ResolvedIdentity> {
    set b | b in bundles && b.identity.Some? :: b.identity.value
  }

  /** Tables in sync show two ids joined at an instant exactly when the journal and the bundles'
      identities say they are, and every row is traced to what opened and what ended it. */
  lemma SyncShowsWhatIsJoined(t: Tables)
    requires ValidTables(t) && InSync(t)
    ensures forall a, b, relationship, at ::
              Shows(t.membership, a, b, relationship, at) <==>
              Joined(t.events, Identities(t.bundles), a, b, relationship, at)
    ensures forall m :: m in t.membership ==> Traced(t.events, Identities(t.bundles), m)
  {
    var ids := Asserting(t.bundles);
    TablesAreFoldable(t);
    forall a, b, relationship, at
      ensures AssertedAt(SetOf(ids), a, b, relationship, at) <==>
              AssertedAt(Identities(t.bundles), a, b, relationship, at)
    {
      AssertedByBundles(t.bundles, a, b, relationship, at);
    }
    PM.ProjectionSays(t.events, ids, t.membership);
  }

  lemma AssertedByBundles(bundles: seq<BundleRow>, a: EntityId, b: EntityId, relationship: Option<string>, at: Instant)
    ensures AssertedAt(SetOf(Asserting(bundles)), a, b, relationship, at) <==>
            AssertedAt(Identities(bundles), a, b, relationship, at)
  {
    forall i: ResolvedIdentity, r | r in i.related
      ensures i in SetOf(Asserting(bundles)) <==> i in Identities(bundles)
    {
      AssertingElements(bundles, i);
    }
  }

  class EntityJournal {
    const db: Database
    const relationshipTypes: set<string>
    const storable: EntityEvent -> bool

    constructor (db: Database, relationshipTypes: set<string>, storable: EntityEvent -> bool)
      ensures this.db == db && this.relationshipTypes == relationshipTypes && this.storable == storable
    {
      this.db := db;
      this.relationshipTypes := relationshipTypes;
      this.storable := storable;
    }

    /** A `relate` of an undeclared type, or a value that cannot be stored. */
    predicate Refused(e: EntityEvent) {
      (e.kind == Relate && (e.relationship.None? || e.relationship.value !in relationshipTypes)) || !storable(e)
    }

    /** Fold the journal and the stored bundles afresh into the projection table. */
    method Rebuild() returns (projection: seq<Membership>)
      requires ValidTables(db.Tables())
      modifies db`membership
      ensures InSync(db.Tables())
      ensures forall m :: m in projection <==> m in db.membership
      ensures SortedBy(MembershipLess, projection)
    {
      var events := db.events;
      var identities := Asserting(Sort(RowLeq, db.bundles));
      OrderIsIrrelevant(db.bundles);
      TablesAreFoldable(db.Tables());
      projection := PM.ProjectMembership(events, identities);
      db.membership := set m | m in projection;
      forall m ensures m in db.membership <==> IsInterval(Sources(db.Tables()), m) {
        if m in projection { IntervalTransfers(events, identities, Asserting(db.bundles), m); }
        if IsInterval(Sources(db.Tables()), m) { IntervalTransfers(events, Asserting(db.bundles), identities, m); }
      }
    }

    /** Append events and, by default, rebuild; a refused event, the first, refuses the whole batch. */
    method Append(events: seq<EntityEvent>, rebuild: bool) returns (r: Result<Option<seq<Membership>>, EntityEvent>)
      requires ValidTables(db.Tables()) && forall e :: e in events ==> e.Valid()
      modifies db
      ensures r.Err? <==> exists e :: e in events && Refused(e)
      ensures r.Err? ==> exists i :: 0 <= i < |events| && events[i] == r.error && Refused(events[i]) &&
                                     forall j :: 0 <= j < i ==> !Refused(events[j])
      ensures r.Err? ==> db.Tables() == old(db.Tables())
      ensures r.Ok? ==>
                db.bundles == old(db.bundles) && db.events == old(db.events) + events && ValidTables(db.Tables())
      ensures r.Ok? && rebuild ==>
                InSync(db.Tables()) && r.value.Some? && forall m :: m in r.value.value <==> m in db.membership
      ensures r.Ok? && !rebuild ==> r.value.None? && db.membership == old(db.membership)
    {
      var i := 0;
      while i < |events|
        invariant 0 <= i <= |events|
        invariant forall j :: 0 <= j < i ==> !Refused(events[j])
      {
        if Refused(events[i]) { return Err(events[i]); }
        i := i + 1;
      }
      db.events := db.events + events;
      if rebuild {
        var projection := Rebuild();
        r := Ok(Some(projection));
      } else {
        r := Ok(None);
      }
    }
  }
}

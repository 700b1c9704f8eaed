/** Writing bundles in batches: exactly when a batch leaves the tables that writing its members one by
    one would. */
module MembershipBatches {
  import opened Wrappers
  import opened Identity
  import opened MembershipTables

  function InsertBundles(stored: seq<BundleRow>, batch: seq<BundleRow>): seq<BundleRow> {
    if batch == [] then stored
    else
      var before, b := InsertBundles(stored, batch[..|batch| - 1]), batch[|batch| - 1];
      if HasBundle(before, b.decisionId) then before else before + [b]
  }

  /** The relationships of every batch member whose id the batch inserted. */
  function BatchRows(stored: seq<BundleRow>, batch: seq<BundleRow>): seq<Membership> {
    if batch == [] then []
    else
      var b := batch[|batch| - 1];
      BatchRows(stored, batch[..|batch| - 1]) + (if HasBundle(stored, b.decisionId) then [] else RelationshipRows(b))
  }

  ghost function AfterBatch(t: Tables, batch: seq<BundleRow>): Tables {
    Tables(InsertBundles(t.bundles, batch), t.events, InsertAll(t.membership, BatchRows(t.bundles, batch)))
  }

  ghost function AfterWrites(t: Tables, batch: seq<BundleRow>): Tables {
    if batch == [] then t else AfterWrite(AfterWrites(t, batch[..|batch| - 1]), batch[|batch| - 1])
  }

  lemma {:induction false} InsertAllAppends(ms: set<Membership>, a: seq<Membership>, b: seq<Membership>)
    ensures InsertAll(ms, a + b) == InsertAll(InsertAll(ms, a), b)
  {
    if b == [] {
      assert a + b == a;
    } else {
      assert (a + b)[..|a + b| - 1] == a + b[..|b| - 1];
      InsertAllAppends(ms, a, b[..|b| - 1]);
    }
  }

  lemma {:induction false} InsertedIds(stored: seq<BundleRow>, batch: seq<BundleRow>, id: DecisionId)
    ensures HasBundle(InsertBundles(stored, batch), id) <==> HasBundle(stored, id) || HasBundle(batch, id)
  {
    if batch != [] {
      var init, b := batch[..|batch| - 1], batch[|batch| - 1];
      InsertedIds(stored, init, id);
      assert batch == init + [b];
      var before := InsertBundles(stored, init);
      assert HasBundle(before + [b], id) <==> HasBundle(before, id) || b.decisionId == id by {
        assert forall x :: x in before + [b] <==> x in before || x == b;
      }
    }
  }

  // --- the rows that decide ----------------------------------------------------------------

  /** The relationships of the bundles that writing one by one stores: the first under each new id. */
  function StoredRows(stored: seq<BundleRow>, batch: seq<BundleRow>): seq<Membership> {
    if batch == [] then []
    else
      var init, b := batch[..|batch| - 1], batch[|batch| - 1];
      StoredRows(stored, init) +
      (if HasBundle(InsertBundles(stored, init), b.decisionId) then [] else RelationshipRows(b))
  }

  /** The first row on a link. */
  function FirstOn(rows: seq<Membership>, l: Link): Option<Membership> {
    if rows == [] then None else if rows[0].Link() == l then Some(rows[0]) else FirstOn(rows[1..], l)
  }

  lemma {:induction false} FirstOnAppend(rows: seq<Membership>, row: Membership, l: Link)
    ensures FirstOn(rows + [row], l) ==
            if FirstOn(rows, l).Some? then FirstOn(rows, l) else if row.Link() == l then Some(row) else None
  {
    if rows == [] {
      assert rows + [row] == [row];
    } else {
      assert (rows + [row])[1..] == rows[1..] + [row];
      FirstOnAppend(rows[1..], row, l);
    }
  }

  lemma {:induction false} FirstOnIsRow(rows: seq<Membership>, l: Link)
    ensures FirstOn(rows, l).Some? ==> FirstOn(rows, l).value in rows && FirstOn(rows, l).value.Link() == l
    ensures FirstOn(rows, l).None? ==> forall m :: m in rows ==> m.Link() != l
  {
    if rows != [] {
      assert rows == [rows[0]] + rows[1..];
      FirstOnIsRow(rows[1..], l);
    }
  }

  ghost predicate AllOpen(rows: seq<Membership>) { forall m :: m in rows ==> m.Current() }

  /** On each link the first row is inserted, unless one is open. */
  lemma {:induction false} FirstIsInserted(ms: set<Membership>, rows: seq<Membership>, m: Membership)
    requires AllOpen(rows)
    ensures m in InsertAll(ms, rows) <==> m in ms || (!OpenFor(ms, m.Link()) && FirstOn(rows, m.Link()) == Some(m))
    ensures OpenFor(InsertAll(ms, rows), m.Link()) <==> OpenFor(ms, m.Link()) || FirstOn(rows, m.Link()).Some?
  {
    if rows != [] {
      var init, last, l := rows[..|rows| - 1], rows[|rows| - 1], m.Link();
      assert rows == init + [last];
      FirstIsInserted(ms, init, m);
      FirstIsInserted(ms, init, last);
      FirstOnAppend(init, last, l);
      var before, after := InsertAll(ms, init), InsertAll(ms, rows);
      assert after == InsertOpen(before, last);
      OpenAfter(before, last, l);
    }
  }

  lemma OpenAfter(ms: set<Membership>, row: Membership, l: Link)
    requires row.Current()
    ensures OpenFor(InsertOpen(ms, row), l) <==> OpenFor(ms, l) || row.Link() == l
  {
    if row.Link() == l && !OpenFor(ms, l) { assert row in InsertOpen(ms, row); }
    if OpenFor(ms, l) {
      var m :| m in ms && m.Current() && m.Link() == l;
      assert m in InsertOpen(ms, row);
    }
  }

  /** Two lists of open rows lead to the same projection exactly when, on each link not open yet, they
      have the same first row or both none. */
  lemma SameFirsts(ms: set<Membership>, a: seq<Membership>, b: seq<Membership>)
    requires AllOpen(a) && AllOpen(b)
    ensures InsertAll(ms, a) == InsertAll(ms, b) <==> forall l :: !OpenFor(ms, l) ==> FirstOn(a, l) == FirstOn(b, l)
  {
    if forall l :: !OpenFor(ms, l) ==> FirstOn(a, l) == FirstOn(b, l) {
      forall m ensures m in InsertAll(ms, a) <==> m in InsertAll(ms, b) {
        FirstIsInserted(ms, a, m);
        FirstIsInserted(ms, b, m);
      }
    }
    if InsertAll(ms, a) == InsertAll(ms, b) {
      forall l | !OpenFor(ms, l) ensures FirstOn(a, l) == FirstOn(b, l) {
        FirstCarries(ms, a, b, l);
        FirstCarries(ms, b, a, l);
      }
    }
  }

  lemma FirstCarries(ms: set<Membership>, a: seq<Membership>, b: seq<Membership>, l: Link)
    requires AllOpen(a) && AllOpen(b) && InsertAll(ms, a) == InsertAll(ms, b) && !OpenFor(ms, l)
    ensures FirstOn(a, l).Some? ==> FirstOn(b, l) == FirstOn(a, l)
  {
    FirstOnIsRow(a, l);
    if FirstOn(a, l).Some? {
      var m := FirstOn(a, l).value;
      FirstIsInserted(ms, a, m);
      FirstIsInserted(ms, b, m);
      assert m.Current();
    }
  }

  lemma {:induction false} RowsAreOpen(stored: seq<BundleRow>, batch: seq<BundleRow>)
    ensures AllOpen(BatchRows(stored, batch)) && AllOpen(StoredRows(stored, batch))
  {
    if batch != [] { RowsAreOpen(stored, batch[..|batch| - 1]); }
  }

  // --- batches and single writes -----------------------------------------------------------------

  /** Writing one by one stores the bundles a batch stores, and opens the stored ones' relationships. */
  lemma {:induction false} WritesOpenStored(t: Tables, batch: seq<BundleRow>)
    ensures AfterWrites(t, batch) ==
            Tables(InsertBundles(t.bundles, batch), t.events, InsertAll(t.membership, StoredRows(t.bundles, batch)))
  {
    if batch != [] {
      var init, b := batch[..|batch| - 1], batch[|batch| - 1];
      WritesOpenStored(t, init);
      if HasBundle(InsertBundles(t.bundles, init), b.decisionId) {
        assert StoredRows(t.bundles, batch) == StoredRows(t.bundles, init);
      } else {
        InsertAllAppends(t.membership, StoredRows(t.bundles, init), RelationshipRows(b));
      }
    }
  }

  /** A batch leaves the tables of the single writes exactly when, on each link not open yet, the first
      row it opens is the first row of the bundles stored, or neither has one. */
  lemma BatchAgrees(t: Tables, batch: seq<BundleRow>)
    ensures AfterBatch(t, batch) == AfterWrites(t, batch) <==>
            forall l :: !OpenFor(t.membership, l) ==>
              FirstOn(BatchRows(t.bundles, batch), l) == FirstOn(StoredRows(t.bundles, batch), l)
  {
    WritesOpenStored(t, batch);
    RowsAreOpen(t.bundles, batch);
    SameFirsts(t.membership, BatchRows(t.bundles, batch), StoredRows(t.bundles, batch));
  }

  ghost predicate DistinctIds(batch: seq<BundleRow>) {
    forall i, j :: 0 <= i < j < |batch| ==> batch[i].decisionId != batch[j].decisionId
  }

  /** A batch of distinct decisions leaves the tables as writing its members one by one would. */
  lemma BatchIsWrites(t: Tables, batch: seq<BundleRow>)
    requires DistinctIds(batch)
    ensures AfterBatch(t, batch) == AfterWrites(t, batch)
  {
    DistinctRows(t.bundles, batch);
    BatchAgrees(t, batch);
  }

  lemma {:induction false} DistinctRows(stored: seq<BundleRow>, batch: seq<BundleRow>)
    requires DistinctIds(batch)
    ensures BatchRows(stored, batch) == StoredRows(stored, batch)
  {
    if batch != [] {
      var init, b := batch[..|batch| - 1], batch[|batch| - 1];
      DistinctRows(stored, init);
      InsertedIds(stored, init, b.decisionId);
      assert !HasBundle(init, b.decisionId);
    }
  }

  /** One new id twice: the batch opens the second bundle's relationships, though it is not stored, and
      agrees with the single writes exactly when the first write leaves each of those links open. */
  lemma RepeatedPair(t: Tables, a: BundleRow, b: BundleRow)
    requires a.decisionId == b.decisionId && !HasBundle(t.bundles, a.decisionId)
    ensures AfterBatch(t, [a, b]) == AfterWrites(t, [a, b]) <==>
            forall m :: m in RelationshipRows(b) ==> OpenFor(AfterWrite(t, a).membership, m.Link())
  {
    var first, second := RelationshipRows(a), RelationshipRows(b);
    PairRows(t.bundles, a, b);
    BatchAgrees(t, [a, b]);
    RowsAreOpen(t.bundles, [a]);
    forall l
      ensures FirstOn(first + second, l) == if FirstOn(first, l).Some? then FirstOn(first, l) else FirstOn(second, l)
    {
      FirstOnConcat(first, second, l);
    }
    forall m | m in second ensures OpenFor(AfterWrite(t, a).membership, m.Link()) <==>
                                   OpenFor(t.membership, m.Link()) || FirstOn(first, m.Link()).Some? {
      FirstIsInserted(t.membership, first, m);
    }
    forall l { FirstOnIsRow(second, l); }
  }

  lemma PairRows(stored: seq<BundleRow>, a: BundleRow, b: BundleRow)
    requires a.decisionId == b.decisionId && !HasBundle(stored, a.decisionId)
    ensures BatchRows(stored, [a, b]) == RelationshipRows(a) + RelationshipRows(b)
    ensures StoredRows(stored, [a, b]) == RelationshipRows(a) == BatchRows(stored, [a])
  {
    assert [a, b][..1] == [a] && [a][..0] == [];
    assert InsertBundles(stored, [a]) == stored + [a];
    assert a in stored + [a];
    assert BatchRows(stored, [a]) == BatchRows(stored, []) + RelationshipRows(a) == RelationshipRows(a);
    assert StoredRows(stored, [a]) == StoredRows(stored, []) + RelationshipRows(a) == RelationshipRows(a);
  }

  lemma {:induction false} FirstOnConcat(a: seq<Membership>, b: seq<Membership>, l: Link)
    ensures FirstOn(a + b, l) == if FirstOn(a, l).Some? then FirstOn(a, l) else FirstOn(b, l)
  {
    if a == [] {
      assert a + b == b;
    } else {
      assert (a + b)[1..] == a[1..] + b;
      FirstOnConcat(a[1..], b, l);
    }
  }

  const EMPTY_TABLES := Tables([], [], {})

  /** It does disagree: decision 7 without an identity, then decision 7 again relating 1 to 2. */
  lemma RepeatedIdFails()
    ensures var related := ResolvedIdentity(1, "person", 5, Deterministic, [RelatedEntity("r", "person", 2)]);
            var batch := [BundleRow(7, 5, None), BundleRow(7, 5, Some(related))];
            && related.Valid()
            && AfterBatch(EMPTY_TABLES, batch) != AfterWrites(EMPTY_TABLES, batch)
  {
    var related := ResolvedIdentity(1, "person", 5, Deterministic, [RelatedEntity("r", "person", 2)]);
    var a, b := BundleRow(7, 5, None), BundleRow(7, 5, Some(related));
    var row := RelationshipRow(related, related.related[0]);
    RepeatedPair(EMPTY_TABLES, a, b);
    assert row == RelationshipRows(b)[0] && row in RelationshipRows(b);
    assert AfterWrite(EMPTY_TABLES, a).membership == {};
  }
}

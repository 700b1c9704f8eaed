/** Writes as the two statements they are: a bundle is stored, and its relationships are opened later,
    row by row, while other processes store and open theirs. Exactly when that ends with the stored
    projection equal to its rebuild. */
module Interleaving {
  import opened Wrappers
  import opened Identity
  import opened Projection
  import opened ProjectionLaws
  import opened Incremental
  import opened MembershipTables
  import opened MembershipBatches

  /** Every relationship row the bundles assert. */
  function AllRows(bundles: seq<BundleRow>): seq<Membership> {
    if bundles == [] then []
    else AllRows(bundles[..|bundles| - 1]) + RelationshipRows(bundles[|bundles| - 1])
  }

  function Plus(t: Tables, more: seq<BundleRow>): Tables { t.(bundles := t.bundles + more) }

  // --- rows and operations -----------------------------------------------------------------

  /** The operation asserts the row. */
  ghost predicate AssertsRow(o: Operation, row: Membership) {
    o.rank == 0 && o.kind == Relate && o.Start().Until(None) == row && o.Link() == row.Link()
  }

  lemma BundleSources(t: Tables, b: BundleRow, o: Operation)
    ensures o in Sources(Plus(t, [b])) <==>
            o in Sources(t) || (b.identity.Some? && o in RelateOps(|Asserting(t.bundles)|, b.identity.value))
  {
    if b.identity.Some? {
      SourcesAfter(t, b, o);
    } else {
      assert (t.bundles + [b])[..|t.bundles|] == t.bundles;
      assert Asserting(t.bundles + [b]) == Asserting(t.bundles);
    }
  }

  lemma PlusLast(t: Tables, more: seq<BundleRow>)
    requires more != []
    ensures Plus(t, more) == Plus(Plus(t, more[..|more| - 1]), [more[|more| - 1]])
  {
    assert t.bundles + more == t.bundles + more[..|more| - 1] + [more[|more| - 1]];
  }

  lemma PlusNone(t: Tables)
    ensures Plus(t, []) == t
  {
    assert t.bundles + [] == t.bundles;
  }

  /** What storing bundles adds to the fold's sources asserts one of their rows. */
  lemma {:induction false} NewSources(t: Tables, more: seq<BundleRow>, o: Operation)
    ensures o in Sources(t) ==> o in Sources(Plus(t, more))
    ensures o in Sources(Plus(t, more)) && o !in Sources(t) ==>
              exists row :: row in AllRows(more) && AssertsRow(o, row)
  {
    if more == [] {
      PlusNone(t);
    } else {
      var init, b := more[..|more| - 1], more[|more| - 1];
      PlusLast(t, more);
      NewSources(t, init, o);
      BundleSources(Plus(t, init), b, o);
      if o in Sources(Plus(t, more)) && o !in Sources(Plus(t, init)) {
        var p := |Asserting(Plus(t, init).bundles)|;
        var i :| 0 <= i < |RelateOps(p, b.identity.value)| && RelateOps(p, b.identity.value)[i] == o;
        assert RelationshipRows(b)[i] in RelationshipRows(b);
        assert AssertsRow(o, RelationshipRows(b)[i]);
      }
    }
  }

  /** Every row of a stored bundle is asserted by an operation of the fold. */
  lemma {:induction false} RowIsSource(t: Tables, more: seq<BundleRow>, row: Membership) returns (o: Operation)
    requires row in AllRows(more)
    ensures o in Sources(Plus(t, more)) && AssertsRow(o, row)
  {
    var init, b := more[..|more| - 1], more[|more| - 1];
    PlusLast(t, more);
    if row in AllRows(init) {
      o := RowIsSource(t, init, row);
      BundleSources(Plus(t, init), b, o);
    } else {
      var p := |Asserting(Plus(t, init).bundles)|;
      var i :| 0 <= i < |RelationshipRows(b)| && RelationshipRows(b)[i] == row;
      o := RelateOps(p, b.identity.value)[i];
      BundleSources(Plus(t, init), b, o);
    }
  }

  lemma StoredRowIsSource(t: Tables, row: Membership) returns (o: Operation)
    requires row in AllRows(t.bundles)
    ensures o in Sources(t) && AssertsRow(o, row)
  {
    var base := t.(bundles := []);
    o := RowIsSource(base, t.bundles, row);
    assert Plus(base, t.bundles) == t;
  }

  lemma {:induction false} RowOfBundle(more: seq<BundleRow>, row: Membership) returns (i: nat, r: RelatedEntity)
    requires row in AllRows(more)
    ensures i < |more| && more[i].identity.Some? && r in more[i].identity.value.related
    ensures row == RelationshipRow(more[i].identity.value, r) && row.Link() == RelationLink(more[i].identity.value, r)
  {
    var n := |more| - 1;
    if row in AllRows(more[..n]) {
      i, r := RowOfBundle(more[..n], row);
    } else {
      var k :| 0 <= k < |RelationshipRows(more[n])| && RelationshipRows(more[n])[k] == row;
      i, r := n, more[n].identity.value.related[k];
    }
  }

  lemma {:induction false} BundleHasRow(more: seq<BundleRow>, b: BundleRow, r: RelatedEntity)
    requires b in more && b.identity.Some? && r in b.identity.value.related
    ensures RelationshipRow(b.identity.value, r) in AllRows(more)
  {
    var init, last := more[..|more| - 1], more[|more| - 1];
    assert more == init + [last];
    if b in init {
      BundleHasRow(init, b, r);
    } else {
      var i :| 0 <= i < |b.identity.value.related| && b.identity.value.related[i] == r;
      assert RelationshipRows(b)[i] == RelationshipRow(b.identity.value, r);
    }
  }

  lemma ValidPlus(t: Tables, more: seq<BundleRow>, n: nat)
    requires ValidTables(Plus(t, more)) && n <= |more|
    ensures ValidTables(Plus(t, more[..n])) && ValidTables(t)
  {
    assert forall b :: b in t.bundles + more[..n] ==> b in t.bundles + more;
  }

  // --- one link's fold -------------------------------------------------------------------------

  ghost predicate SameOn(a: Tables, b: Tables, l: Link) {
    forall m: Membership :: m.Link() == l ==> (IsInterval(Sources(a), m) <==> IsInterval(Sources(b), m))
  }

  lemma SameStaysRedundant(a: Tables, b: Tables, l: Link, at: Instant)
    requires SameOn(a, b, l) && Sources(a) <= Sources(b)
    ensures HasOpenRow(Sources(a), l) <==> HasOpenRow(Sources(b), l)
    ensures Redundant(Sources(a), l, at) ==> Redundant(Sources(b), l, at)
  {
    forall m ensures OpenRow(Sources(a), l, m) <==> OpenRow(Sources(b), l, m) {}
    if m :| IsInterval(Sources(a), m) && Reaches(m, l, at) { assert IsInterval(Sources(b), m); }
    if x :| ActsAt(Sources(a), l, at, x) { assert ActsAt(Sources(b), l, at, x); }
  }

  /** Redundant assertions leave an open link's intervals; so do no assertions, of any link. */
  lemma {:induction false} RedundantLeaves(t: Tables, more: seq<BundleRow>, l: Link)
    requires ValidTables(Plus(t, more))
    requires forall row :: row in AllRows(more) && row.Link() == l ==>
               HasOpenRow(Sources(t), l) && Redundant(Sources(t), l, row.validFrom)
    ensures SameOn(t, Plus(t, more), l)
  {
    if more == [] {
      PlusNone(t);
    } else {
      var init, b := more[..|more| - 1], more[|more| - 1];
      ValidPlus(t, more, |init|);
      RedundantLeaves(t, init, l);
      PlusLast(t, more);
      var u := Plus(t, init);
      forall o ensures o in Sources(t) ==> o in Sources(u) { NewSources(t, init, o); }
      if b.identity.Some? && exists r :: r in b.identity.value.related && RelationLink(b.identity.value, r) == l {
        var r :| r in b.identity.value.related && RelationLink(b.identity.value, r) == l;
        BundleHasRow(more, b, r);
        SameStaysRedundant(t, u, l, b.identity.value.resolvedAt);
        assert b in Plus(t, more).bundles;
        InsertOnLink(u, b, r);
      } else {
        forall m: Membership | m.Link() == l
          ensures IsInterval(Sources(u), m) <==> IsInterval(Sources(Plus(u, [b])), m)
        {
          UntouchedLink(u, b, m);
        }
      }
    }
  }

  /** Which bundle is stored first does not matter to the fold. */
  lemma StoredFirst(t: Tables, more: seq<BundleRow>, i: nat, l: Link)
    requires ValidTables(Plus(t, more)) && i < |more|
    ensures ValidTables(Plus(Plus(t, [more[i]]), more[..i] + more[i + 1..]))
    ensures SameOn(Plus(t, more), Plus(Plus(t, [more[i]]), more[..i] + more[i + 1..]), l)
  {
    var a, b := Plus(t, more), Plus(Plus(t, [more[i]]), more[..i] + more[i + 1..]);
    assert more == more[..i] + [more[i]] + more[i + 1..];
    assert forall x :: x in a.bundles <==> x in b.bundles;
    TablesAreFoldable(a);
    TablesAreFoldable(b);
    forall x ensures x in Asserting(a.bundles) <==> x in Asserting(b.bundles) {
      AssertingElements(a.bundles, x);
      AssertingElements(b.bundles, x);
    }
    forall m: Membership | m.Link() == l ensures IsInterval(Sources(a), m) <==> IsInterval(Sources(b), m) {
      if IsInterval(Sources(a), m) { IntervalTransfers(a.events, Asserting(a.bundles), Asserting(b.bundles), m); }
      if IsInterval(Sources(b), m) { IntervalTransfers(b.events, Asserting(b.bundles), Asserting(a.bundles), m); }
    }
  }

  // --- the condition -----------------------------------------------------------------------------

  /** On a link open before, every assertion changes nothing. On another, the first row opened comes
      after every closing, and no other assertion is earlier than it, but for those that change nothing. */
  ghost predicate Serial(s: set<Operation>, l: Link, asserted: seq<Membership>, rows: seq<Membership>) {
    if HasOpenRow(s, l) then forall row :: row in asserted && row.Link() == l ==> Redundant(s, l, row.validFrom)
    else FirstOn(rows, l).Some? ==> OpensRightly(s, l, asserted, FirstOn(rows, l).value.validFrom)
  }

  ghost predicate OpensRightly(s: set<Operation>, l: Link, asserted: seq<Membership>, at: Instant) {
    && (forall c :: ClosesLink(s, l, c) ==> c.at < at)
    && (forall row :: row in asserted && row.Link() == l ==> at <= row.validFrom || Redundant(s, l, row.validFrom))
  }

  /** Bundles stored since the projection was in sync, and the rows opened since, of those
      and of bundles stored before. */
  ghost predicate Stretch(t: Tables, more: seq<BundleRow>, rows: seq<Membership>) {
    && ValidTables(Plus(t, more)) && InSync(t)
    && (forall row :: row in AllRows(more) ==> row in rows)
    && (forall row :: row in rows ==> row in AllRows(t.bundles) || row in AllRows(more))
  }

  function Ended(t: Tables, more: seq<BundleRow>, rows: seq<Membership>): Tables {
    Tables(t.bundles + more, t.events, InsertAll(t.membership, rows))
  }

  ghost predicate AgreeOn(t: Tables, l: Link) {
    forall m: Membership :: m.Link() == l ==> (m in t.membership <==> IsInterval(Sources(t), m))
  }

  lemma RowsOpen(bundles: seq<BundleRow>, row: Membership)
    requires row in AllRows(bundles)
    ensures row.Current()
  {
    var i, r := RowOfBundle(bundles, row);
  }

  lemma StretchIsOpen(t: Tables, more: seq<BundleRow>, rows: seq<Membership>)
    requires Stretch(t, more, rows)
    ensures AllOpen(rows)
  {
    forall row | row in rows ensures row.Current() {
      if row in AllRows(t.bundles) { RowsOpen(t.bundles, row); } else { RowsOpen(more, row); }
    }
  }

  /** The stored rows of a link at the end. */
  lemma EndedRows(t: Tables, more: seq<BundleRow>, rows: seq<Membership>, l: Link, m: Membership)
    requires Stretch(t, more, rows) && m.Link() == l
    ensures m in Ended(t, more, rows).membership <==>
            IsInterval(Sources(t), m) || (!HasOpenRow(Sources(t), l) && FirstOn(rows, l) == Some(m))
  {
    StretchIsOpen(t, more, rows);
    FirstIsInserted(t.membership, rows, m);
    OpenRowsAgree(t, l);
  }

  /** A first row after every closing belongs to a bundle stored in the stretch. */
  lemma FirstIsNew(t: Tables, more: seq<BundleRow>, rows: seq<Membership>, l: Link)
    requires Stretch(t, more, rows) && !HasOpenRow(Sources(t), l) && FirstOn(rows, l).Some?
    requires forall c :: ClosesLink(Sources(t), l, c) ==> c.at < FirstOn(rows, l).value.validFrom
    ensures FirstOn(rows, l).value in AllRows(more)
  {
    var row := FirstOn(rows, l).value;
    FirstOnIsRow(rows, l);
    if row !in AllRows(more) {
      var o := StoredRowIsSource(t, row);
      ValidPlus(t, more, 0);
      TablesAreFoldable(t);
      LastOpeningIsOpen(SortedOperations(t.events, Asserting(t.bundles)), l, o);
    }
  }

  // --- the condition suffices ----------------------------------------------------------------------

  lemma SerialAgrees(t: Tables, more: seq<BundleRow>, rows: seq<Membership>, l: Link)
    requires Stretch(t, more, rows) && Serial(Sources(t), l, AllRows(more), rows)
    ensures AgreeOn(Ended(t, more, rows), l)
  {
    var end := Ended(t, more, rows);
    assert Sources(end) == Sources(Plus(t, more));
    if !HasOpenRow(Sources(t), l) && FirstOn(rows, l).Some? {
      OpenedAgrees(t, more, rows, l);
    } else {
      forall row | row in AllRows(more) && row.Link() == l
        ensures HasOpenRow(Sources(t), l) && Redundant(Sources(t), l, row.validFrom)
      {
        FirstOnIsRow(rows, l);
      }
      RedundantLeaves(t, more, l);
    }
    forall m: Membership | m.Link() == l ensures m in end.membership <==> IsInterval(Sources(end), m) {
      EndedRows(t, more, rows, l, m);
    }
  }

  lemma OpenedAgrees(t: Tables, more: seq<BundleRow>, rows: seq<Membership>, l: Link)
    requires Stretch(t, more, rows) && !HasOpenRow(Sources(t), l) && FirstOn(rows, l).Some?
    requires OpensRightly(Sources(t), l, AllRows(more), FirstOn(rows, l).value.validFrom)
    ensures forall m: Membership :: m.Link() == l ==>
              (IsInterval(Sources(Plus(t, more)), m) <==> IsInterval(Sources(t), m) || m == FirstOn(rows, l).value)
  {
    var first := FirstOn(rows, l).value;
    FirstOnIsRow(rows, l);
    FirstIsNew(t, more, rows, l);
    var i, r := RowOfBundle(more, first);
    var u, rest := Plus(t, [more[i]]), more[..i] + more[i + 1..];
    StoredFirst(t, more, i, l);
    ValidPlus(u, rest, 0);
    PlusNone(u);
    ValidPlus(t, more, 0);
    assert more[i] in Plus(t, more).bundles;
    InsertOnLink(t, more[i], r);
    assert IsInterval(Sources(u), first) && OpenRow(Sources(u), l, first);
    RestIsRedundant(t, more, i, l, first);
    RedundantLeaves(u, rest, l);
  }

  lemma RestIsRedundant(t: Tables, more: seq<BundleRow>, i: nat, l: Link, first: Membership)
    requires i < |more| && OpensRightly(Sources(t), l, AllRows(more), first.validFrom)
    requires OpenRow(Sources(Plus(t, [more[i]])), l, first)
    requires forall m: Membership :: m.Link() == l && IsInterval(Sources(t), m) ==>
               IsInterval(Sources(Plus(t, [more[i]])), m)
    ensures forall row :: row in AllRows(more[..i] + more[i + 1..]) && row.Link() == l ==>
              HasOpenRow(Sources(Plus(t, [more[i]])), l) && Redundant(Sources(Plus(t, [more[i]])), l, row.validFrom)
  {
    var u, rest := Plus(t, [more[i]]), more[..i] + more[i + 1..];
    forall row | row in AllRows(rest) && row.Link() == l
      ensures HasOpenRow(Sources(u), l) && Redundant(Sources(u), l, row.validFrom)
    {
      RestRows(more, i, row);
      LaterIsRedundant(t, more[i], l, first, row);
    }
  }

  lemma RestRows(more: seq<BundleRow>, i: nat, row: Membership)
    requires i < |more| && row in AllRows(more[..i] + more[i + 1..])
    ensures row in AllRows(more)
  {
    var rest := more[..i] + more[i + 1..];
    var k, r := RowOfBundle(rest, row);
    assert rest[k] in more;
    BundleHasRow(more, rest[k], r);
  }

  lemma LaterIsRedundant(t: Tables, b: BundleRow, l: Link, first: Membership, row: Membership)
    requires OpenRow(Sources(Plus(t, [b])), l, first)
    requires forall m: Membership :: m.Link() == l && IsInterval(Sources(t), m) ==> IsInterval(Sources(Plus(t, [b])), m)
    requires first.validFrom <= row.validFrom || Redundant(Sources(t), l, row.validFrom)
    ensures Redundant(Sources(Plus(t, [b])), l, row.validFrom)
  {
    if first.validFrom <= row.validFrom {
      assert Reaches(first, l, row.validFrom);
    } else if m :| IsInterval(Sources(t), m) && Reaches(m, l, row.validFrom) {
      assert IsInterval(Sources(Plus(t, [b])), m);
    } else {
      var x :| ActsAt(Sources(t), l, row.validFrom, x);
      BundleSources(t, b, x);
      assert ActsAt(Sources(Plus(t, [b])), l, row.validFrom, x);
    }
  }

  // --- and is needed ----------------------------------------------------------------------------------

  /** An assertion that would change something holds at its instant in the end. */
  lemma AssertionHolds(t: Tables, more: seq<BundleRow>, l: Link, row: Membership)
    requires ValidTables(Plus(t, more)) && row in AllRows(more) && row.Link() == l
    requires !Redundant(Sources(t), l, row.validFrom)
    ensures exists m :: IsInterval(Sources(Plus(t, more)), m) && m.Link() == l && m.Covers(row.validFrom)
  {
    var u, at := Plus(t, more), row.validFrom;
    TablesAreFoldable(u);
    var s := Sources(u);
    var x := RowIsSource(t, more, row);
    forall c | c in s && c.Link() == l && c.at == at ensures c.Opens() && c.rank == 0 {
      NewSources(t, more, c);
      if c in Sources(t) { assert ActsAt(Sources(t), l, at, c); }
    }
    var last := LastActing(u, l, at, x);
    assert OpensLink(s, l, last);
    PointInTime(u.events, Asserting(u.bundles), l, at);
  }

  /** The last operation of the link at an instant where there is one. */
  lemma LastActing(u: Tables, l: Link, at: Instant, x: Operation) returns (last: Operation)
    requires AllValid(u.events, Asserting(u.bundles)) && ActsAt(Sources(u), l, at, x)
    ensures ActsAt(Sources(u), l, at, last)
    ensures forall c :: c in Sources(u) && c.Link() == l && c.at <= at ==> c == last || Before(c, last)
  {
    var ops := SortedOperations(u.events, Asserting(u.bundles));
    var k := SplitExists(ops, at, |ops|);
    var i :| 0 <= i < |ops| && ops[i] == x;
    assert i < k;
    LastOnPast(ops, k, l, i);
    LastIsLatest(ops, l, at, k);
    last := ops[LastOn(ops, k, l).value];
    assert x == last || Before(x, last);
  }

  lemma LastOnPast(ops: seq<Operation>, k: nat, l: Link, i: nat)
    requires i < k <= |ops| && ops[i].Link() == l
    ensures LastOn(ops, k, l).Some?
  {
  }

  lemma AgreesIsSerial(t: Tables, more: seq<BundleRow>, rows: seq<Membership>, l: Link)
    requires Stretch(t, more, rows) && AgreeOn(Ended(t, more, rows), l)
    ensures Serial(Sources(t), l, AllRows(more), rows)
  {
    var end := Ended(t, more, rows);
    assert Sources(end) == Sources(Plus(t, more));
    forall row | row in AllRows(more) && row.Link() == l && !Redundant(Sources(t), l, row.validFrom)
      ensures !HasOpenRow(Sources(t), l) && FirstOn(rows, l).Some? &&
              FirstOn(rows, l).value.validFrom <= row.validFrom
    {
      AssertionHolds(t, more, l, row);
      var m :| IsInterval(Sources(end), m) && m.Link() == l && m.Covers(row.validFrom);
      EndedRows(t, more, rows, l, m);
      assert IsInterval(Sources(t), m) ==> Reaches(m, l, row.validFrom);
    }
    if !HasOpenRow(Sources(t), l) && FirstOn(rows, l).Some? { FirstIsLast(t, more, rows, l); }
  }

  /** When the end is in sync, the first row opened comes after every closing. */
  lemma FirstIsLast(t: Tables, more: seq<BundleRow>, rows: seq<Membership>, l: Link)
    requires Stretch(t, more, rows) && AgreeOn(Ended(t, more, rows), l)
    requires !HasOpenRow(Sources(t), l) && FirstOn(rows, l).Some?
    ensures forall c :: ClosesLink(Sources(t), l, c) ==> c.at < FirstOn(rows, l).value.validFrom
  {
    var end, first := Ended(t, more, rows), FirstOn(rows, l).value;
    assert Sources(end) == Sources(Plus(t, more));
    FirstOnIsRow(rows, l);
    StretchIsOpen(t, more, rows);
    EndedRows(t, more, rows, l, first);
    var x :| StartsRun(Sources(end), l, x) && x.Start() == first.Start() && EndsRun(Sources(end), l, x, None);
    forall c | ClosesLink(Sources(t), l, c) ensures c.at < first.validFrom && ClosesLink(Sources(end), l, c) {
      NewSources(t, more, c);
      NewSources(t, more, x);
      if x in Sources(t) {
        forall c' | ClosesLink(Sources(t), l, c') ensures !Before(x, c') {
          NewSources(t, more, c');
          assert ClosesLink(Sources(end), l, c');
        }
        ValidPlus(t, more, 0);
        TablesAreFoldable(t);
        LastOpeningIsOpen(SortedOperations(t.events, Asserting(t.bundles)), l, x);
      }
      ClosingRank(t, c);
      assert !Before(x, c);
    }
  }

  lemma ClosingRank(t: Tables, c: Operation)
    requires c in Sources(t) && !c.Opens()
    ensures c.rank == 1
  {
    if c in AssertedOps(Asserting(t.bundles)) {
      var i, r := AssertedOpSource(Asserting(t.bundles), c);
    }
  }

  /** A stretch of interleaved writes ends in sync exactly when, its assertions and the order in which
      its rows were opened are serial on every link. */
  lemma InterleavedEndsInSync(t: Tables, more: seq<BundleRow>, rows: seq<Membership>)
    requires Stretch(t, more, rows)
    ensures InSync(Ended(t, more, rows)) <==> AllSerial(t, more, rows)
  {
    var end := Ended(t, more, rows);
    SyncPerLink(end);
    if InSync(end) {
      forall l ensures Serial(Sources(t), l, AllRows(more), rows) {
        assert AgreeOn(end, l);
        AgreesIsSerial(t, more, rows, l);
      }
    }
    if AllSerial(t, more, rows) {
      forall l ensures AgreeOn(end, l) { SerialAgrees(t, more, rows, l); }
    }
  }

  ghost predicate AllSerial(t: Tables, more: seq<BundleRow>, rows: seq<Membership>) {
    forall l :: Serial(Sources(t), l, AllRows(more), rows)
  }

  lemma SyncPerLink(t: Tables)
    ensures InSync(t) <==> forall l :: AgreeOn(t, l)
  {
    if forall l :: AgreeOn(t, l) {
      forall m ensures m in t.membership <==> IsInterval(Sources(t), m) { assert AgreeOn(t, m.Link()); }
    }
  }
}

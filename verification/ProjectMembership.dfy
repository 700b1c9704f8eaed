/** The fold as the ledger runs it, and what its result depends on. */
module ProjectMembership {
  import opened Wrappers
  import opened Sorting
  import opened Identity
  import opened Projection
  import opened History

  /** Collects the operations, sorts them by key, folds them link by link, and sorts what results. */
  method ProjectMembership(events: seq<EntityEvent>, identities: seq<ResolvedIdentity>)
      returns (projection: seq<Membership>)
    requires AllValid(events, identities)
    ensures forall m :: m in projection <==> IsInterval(OperationSet(events, identities), m)
    ensures forall m :: m in projection ==> m.Valid()
    ensures SortedBy(MembershipLess, projection) && InRowOrder(projection)
    ensures forall a, b, relationship, t ::
              Shows(SetOf(projection), a, b, relationship, t) <==>
              Joined(events, SetOf(identities), a, b, relationship, t)
    ensures forall m :: m in projection ==> Traced(events, SetOf(identities), m)
  {
    var operations := [];
    var position := 0;
    while position < |identities|
      invariant 0 <= position <= |identities|
      invariant operations == AssertedOps(identities[..position])
    {
      operations := operations + RelateOps(position, identities[position]);
      position := position + 1;
      assert identities[..position][..position - 1] == identities[..position - 1];
    }
    assert identities[..position] == identities;
    position := 0;
    while position < |events|
      invariant 0 <= position <= |events|
      invariant operations == AssertedOps(identities) + JournalOps(events)[..position]
    {
      operations := operations + [JournalOp(position, events[position])];
      position := position + 1;
    }
    assert operations == Operations(events, identities);
    operations := Sort(KeyLeq, operations);
    assert operations == SortedOperations(events, identities);

    var intervals := FoldOperations(operations);
    ghost var folded := intervals;
    projection := Sort(MembershipLeq, intervals);
    SortKeepsElements(MembershipLeq, intervals);
    forall m ensures m in projection <==> IsInterval(OperationSet(events, identities), m) {
      FoldMeaning(operations, m);
    }
    ResultIsStrict(operations, intervals);
    ProjectionSays(events, identities, SetOf(projection));
    RowsAreOrdered(projection);
  }

  /** By subject, then related id, then type with merges first, then start; no two rows alike in all four. */
  ghost predicate InRowOrder(rows: seq<Membership>) {
    forall i, j :: 0 <= i < j < |rows| ==>
      rows[i].subject <= rows[j].subject &&
      (rows[i].subject == rows[j].subject ==>
         rows[i].related <= rows[j].related &&
         (rows[i].related == rows[j].related ==>
            if rows[i].relationship == rows[j].relationship then rows[i].validFrom < rows[j].validFrom
            else rows[j].relationship.Some? &&
                 (rows[i].relationship.Some? ==> TextLess(rows[i].relationship.value, rows[j].relationship.value))))
  }

  lemma RowsAreOrdered(rows: seq<Membership>)
    requires SortedBy(MembershipLess, rows) && forall m :: m in rows ==> m.Valid()
    ensures InRowOrder(rows)
  {
    forall i, j | 0 <= i < j < |rows| ensures MembershipLess(rows[i], rows[j]) && rows[i].Valid() && rows[j].Valid() {
      assert rows[i] in rows && rows[j] in rows;
    }
    forall i, j | 0 <= i < j < |rows| && rows[i].subject == rows[j].subject && rows[i].related == rows[j].related
      ensures if rows[i].relationship == rows[j].relationship then rows[i].validFrom < rows[j].validFrom
              else rows[j].relationship.Some? &&
                   (rows[i].relationship.Some? ==> TextLess(rows[i].relationship.value, rows[j].relationship.value))
    {
      var a, b := rows[i], rows[j];
      assert MembershipLess(a, b);
      TextOrder(TypeKey(a), TypeKey(b));
    }
  }

  /** What the intervals show of any two ids, and where each comes from. */
  lemma ProjectionSays(events: seq<EntityEvent>, ids: seq<ResolvedIdentity>, intervals: set<Membership>)
    requires AllValid(events, ids) && IsProjection(events, ids, intervals)
    ensures forall a, b, relationship, t ::
              Shows(intervals, a, b, relationship, t) <==> Joined(events, SetOf(ids), a, b, relationship, t)
    ensures forall m :: m in intervals ==> Traced(events, SetOf(ids), m)
  {
    forall a, b, relationship, t
      ensures Shows(intervals, a, b, relationship, t) <==> Joined(events, SetOf(ids), a, b, relationship, t)
    {
      ShowsWhatIsJoined(events, ids, intervals, a, b, relationship, t);
    }
    forall m | m in intervals ensures Traced(events, SetOf(ids), m) { IntervalIsTraced(events, ids, m); }
  }

  /** The dictionary of open links holds each link's open run after `k` operations. */
  ghost predicate OpenAfter(ops: seq<Operation>, k: nat, open: map<Link, RunStart>)
    requires k <= |ops|
  {
    && (forall l :: l in open <==> RunIndex(ops, k, l).Some?)
    && (forall l :: l in open ==> open[l] == ops[RunIndex(ops, k, l).value].Start())
  }

  /** The interval an operation ends, if any. */
  ghost function EndedBy(open: map<Link, RunStart>, op: Operation): seq<Membership> {
    if !op.Opens() && op.Link() in open && op.at > open[op.Link()].at then [open[op.Link()].Until(Some(op.at))] else []
  }

  ghost function OpenNext(open: map<Link, RunStart>, op: Operation): map<Link, RunStart> {
    if !op.Opens() then open - {op.Link()}
    else if op.Link() in open then open
    else open[op.Link() := op.Start()]
  }

  lemma StepOpen(ops: seq<Operation>, k: nat, open: map<Link, RunStart>)
    requires k < |ops| && OpenAfter(ops, k, open)
    ensures OpenAfter(ops, k + 1, OpenNext(open, ops[k]))
    ensures forall m :: m in EndedBy(open, ops[k]) <==> Emits(ops, k, m)
  {
  }

  /** The open links and the intervals ended, after `k` operations. */
  ghost predicate Folded(ops: seq<Operation>, k: nat, open: map<Link, RunStart>, intervals: seq<Membership>)
    requires k <= |ops|
  {
    OpenAfter(ops, k, open) && Distinct(intervals) && forall m :: m in intervals <==> EmittedBy(ops, k, m)
  }

  /** Every interval the operations emit or leave open, once. */
  ghost predicate IsFold(ops: seq<Operation>, intervals: seq<Membership>) {
    Distinct(intervals) && forall m :: m in intervals <==> EmittedBy(ops, |ops|, m) || LeftOpen(ops, m)
  }

  lemma FoldStarts(ops: seq<Operation>)
    ensures Folded(ops, 0, map[], [])
  {
  }

  lemma FoldStep(ops: seq<Operation>, k: nat, open: map<Link, RunStart>, intervals: seq<Membership>)
    requires Ready(ops) && k < |ops| && Folded(ops, k, open, intervals)
    ensures Folded(ops, k + 1, OpenNext(open, ops[k]), intervals + EndedBy(open, ops[k]))
  {
    StepOpen(ops, k, open);
    StepEmits(ops, k, intervals, EndedBy(open, ops[k]));
  }

  /** An opening opens its link unless it is open; a closing of an open link ends its interval, unless that
      would be empty. */
  method FoldOperation(op: Operation, open0: map<Link, RunStart>, intervals0: seq<Membership>)
      returns (open: map<Link, RunStart>, intervals: seq<Membership>)
    ensures open == OpenNext(open0, op) && intervals == intervals0 + EndedBy(open0, op)
  {
    open, intervals := open0, intervals0;
    if op.Opens() {
      if op.Link() !in open { open := open[op.Link() := op.Start()]; }
    } else if op.Link() in open {
      var start := open[op.Link()];
      open := open - {op.Link()};
      if op.at > start.at {
        intervals := intervals + [start.Until(Some(op.at))];
      }
    }
  }

  /** The fold over sorted operations: a dictionary of open links, and the intervals ended. */
  method FoldOperations(operations: seq<Operation>) returns (intervals: seq<Membership>)
    requires Ready(operations)
    ensures IsFold(operations, intervals)
  {
    var open: map<Link, RunStart> := map[];
    intervals := [];
    FoldStarts(operations);
    for k := 0 to |operations|
      invariant Folded(operations, k, open, intervals)
    {
      FoldStep(operations, k, open, intervals);
      open, intervals := FoldOperation(operations[k], open, intervals);
    }
    intervals := AppendOpen(operations, open, intervals);
  }

  /** Every link still open leaves an open interval. */
  method AppendOpen(ghost ops: seq<Operation>, open: map<Link, RunStart>, ended: seq<Membership>)
      returns (intervals: seq<Membership>)
    requires Ready(ops) && Folded(ops, |ops|, open, ended)
    ensures IsFold(ops, intervals)
  {
    intervals := ended;
    var links := open.Keys;
    while links != {}
      invariant links <= open.Keys
      invariant forall m :: m in intervals <==>
                  EmittedBy(ops, |ops|, m) ||
                  (m.Link() in open && m.Link() !in links && m == open[m.Link()].Until(None))
      invariant Distinct(intervals)
      decreases |links|
    {
      var link :| link in links;
      var interval := open[link].Until(None);
      StartKeepsLink(ops[RunIndex(ops, |ops|, link).value], None);
      assert interval !in intervals;
      intervals := intervals + [interval];
      links := links - {link};
    }
  }

  /** One step adds the interval its operation emits, once, and nothing else. */
  lemma StepEmits(ops: seq<Operation>, k: nat, before: seq<Membership>, ended: seq<Membership>)
    requires Ready(ops) && k < |ops| && Distinct(before) && |ended| <= 1
    requires forall m :: m in before <==> EmittedBy(ops, k, m)
    requires forall m :: m in ended <==> Emits(ops, k, m)
    ensures forall m :: m in before + ended <==> EmittedBy(ops, k + 1, m)
    ensures Distinct(before + ended)
  {
    forall m ensures m in before + ended <==> EmittedBy(ops, k + 1, m) {
      assert EmittedBy(ops, k + 1, m) <==> EmittedBy(ops, k, m) || Emits(ops, k, m);
    }
    forall m | Emits(ops, k, m) ensures m !in before {
      forall j | 0 <= j < k ensures !Emits(ops, j, m) {
        if Emits(ops, j, m) { EmitsOnce(ops, j, k, m); }
      }
    }
    assert ended != [] ==> ended[0] in ended;
  }

  /** The sorted intervals are strictly sorted: no two share subject, related id, type and start. */
  lemma ResultIsStrict(ops: seq<Operation>, intervals: seq<Membership>)
    requires Ready(ops) && Distinct(intervals)
    requires forall m :: m in intervals ==> IsInterval(Elements(ops), m)
    ensures SortedBy(MembershipLess, Sort(MembershipLeq, intervals))
    ensures forall m :: m in intervals ==> m.Valid()
  {
    var r := Sort(MembershipLeq, intervals);
    MembershipOrder();
    SortSorts(MembershipLeq, intervals);
    SortKeepsElements(MembershipLeq, intervals);
    SortKeepsDistinct(MembershipLeq, intervals);
    forall m | m in intervals ensures m.Valid() { IntervalsAreDisjoint(ops, m, m); }
    forall i, j | 0 <= i < j < |r| ensures MembershipLess(r[i], r[j]) {
      assert MembershipLeq(r[i], r[j]) && r[i] in intervals && r[j] in intervals && r[i] != r[j];
      KeysDiffer(ops, r[i], r[j]);
    }
  }

  lemma KeysDiffer(ops: seq<Operation>, a: Membership, b: Membership)
    requires Ready(ops) && IsInterval(Elements(ops), a) && IsInterval(Elements(ops), b) && a != b
    requires MembershipLeq(a, b)
    ensures MembershipLess(a, b)
  {
    IntervalsAreDisjoint(ops, a, b);
    IntervalsAreDisjoint(ops, b, a);
    TextOrder(TypeKey(a), TypeKey(b));
    assert a.Covers(a.validFrom) && b.Covers(b.validFrom);
  }
}

/** `project_membership`: the fold of the journal and of asserted relationships into validity
    intervals, proved to return exactly the intervals `IsInterval` describes. */
module Projection {
  import opened Wrappers
  import opened Sorting
  import opened Identity

  // --- the operations -----------------------------------------------------------------

  /** Operations of one link with equal keys are the same operation. */
  ghost predicate KeysDetermine(ops: seq<Operation>) {
    forall a, b :: a in ops && b in ops && a.Link() == b.Link() && !Before(a, b) && !Before(b, a) ==> a == b
  }

  lemma {:induction false} AssertedOpsFacts(ids: seq<ResolvedIdentity>)
    requires forall i :: i in ids ==> i.Valid()
    ensures forall o :: o in AssertedOps(ids) ==>
              o.Valid() && o.rank == 0 && o.Opens() && o.IsTyped() && o.position < |ids|
    ensures KeysDetermine(AssertedOps(ids))
    ensures Distinct(AssertedOps(ids))
  {
    if ids != [] {
      var last := |ids| - 1;
      assert ids[last] in ids;
      AssertedOpsFacts(ids[..last]);
      RelateOpsFacts(last, ids[last]);
      KeysExtend(AssertedOps(ids[..last]), RelateOps(last, ids[last]), last);
    }
  }

  lemma RelateOpsFacts(position: nat, id: ResolvedIdentity)
    requires id.Valid()
    ensures forall o :: o in RelateOps(position, id) ==>
              o.Valid() && o.rank == 0 && o.Opens() && o.IsTyped() && o.position == position
    ensures forall i, j :: 0 <= i < j < |RelateOps(position, id)| ==>
              RelateOps(position, id)[i].Link() != RelateOps(position, id)[j].Link()
  {
    var ops := RelateOps(position, id);
    forall i | 0 <= i < |ops| ensures ops[i].Valid() { assert id.related[i] in id.related; }
    forall i, j | 0 <= i < j < |ops| ensures ops[i].Link() != ops[j].Link() {
      assert PairOf(id.related[i]) != PairOf(id.related[j]);
    }
  }

  /** Operations of one later position, on distinct links, keep keys determining and distinct. */
  lemma KeysExtend(a: seq<Operation>, b: seq<Operation>, position: nat)
    requires KeysDetermine(a) && Distinct(a)
    requires forall o :: o in a ==> o.position < position
    requires forall o :: o in b ==> o.position == position
    requires forall i, j :: 0 <= i < j < |b| ==> b[i].Link() != b[j].Link()
    ensures KeysDetermine(a + b) && Distinct(a + b)
  {
    forall x, y | x in b && y in b && x.Link() == y.Link() ensures x == y {
      var i :| 0 <= i < |b| && b[i] == x;
      var j :| 0 <= j < |b| && b[j] == y;
      assert i == j;
    }
    var all := a + b;
    forall i, j | 0 <= i < j < |all| ensures all[i] != all[j] {
      assert j >= |a| ==> all[j] in b;
      assert i < |a| ==> all[i] in a;
    }
  }

  lemma OperationsFacts(events: seq<EntityEvent>, ids: seq<ResolvedIdentity>)
    requires AllValid(events, ids)
    ensures forall o :: o in Operations(events, ids) ==> o.Valid() && (o.rank == 0 ==> o.Opens() && o.IsTyped())
    ensures KeysDetermine(Operations(events, ids))
    ensures Distinct(Operations(events, ids))
  {
    AssertedOpsFacts(ids);
    var journal := JournalOps(events);
    assert forall p :: 0 <= p < |journal| ==> journal[p] == JournalOp(p, events[p]) && events[p] in events;
  }

  /** The key order restricted to one link is the order of positions. */
  ghost predicate StrictOnLinks(ops: seq<Operation>) {
    forall i, j :: 0 <= i < j < |ops| && ops[i].Link() == ops[j].Link() ==> Before(ops[i], ops[j])
  }

  lemma KeyLeqIsPreorder()
    ensures TotalPreorder(KeyLeq)
  {
  }

  lemma SortedIsStrict(ops: seq<Operation>)
    requires KeysDetermine(ops) && Distinct(ops)
    ensures StrictOnLinks(Sort(KeyLeq, ops))
    ensures SortedBy(KeyLeq, Sort(KeyLeq, ops))
    ensures (set o | o in Sort(KeyLeq, ops)) == (set o | o in ops)
  {
    var sorted := Sort(KeyLeq, ops);
    assert SortedBy(KeyLeq, sorted) by { KeyLeqIsPreorder(); SortSorts(KeyLeq, ops); }
    SortKeepsElements(KeyLeq, ops);
    SortKeepsDistinct(KeyLeq, ops);
    forall i, j | 0 <= i < j < |sorted| && sorted[i].Link() == sorted[j].Link() ensures Before(sorted[i], sorted[j]) {
      assert KeyLeq(sorted[i], sorted[j]);
      assert sorted[i] in ops && sorted[j] in ops && sorted[i] != sorted[j];
    }
  }

  // --- the state of one link after a prefix ----------------------------------------------

  /** The operation that opened the run of `l` still open after the first `k` operations. */
  function RunIndex(ops: seq<Operation>, k: nat, l: Link): (r: Option<nat>)
    requires k <= |ops|
    ensures r.Some? ==> r.value < k && ops[r.value].Opens() && ops[r.value].Link() == l
  {
    if k == 0 then None
    else if ops[k - 1].Link() != l then RunIndex(ops, k - 1, l)
    else if !ops[k - 1].Opens() then None
    else
      var earlier := RunIndex(ops, k - 1, l);
      if earlier.Some? then earlier else Some(k - 1)
  }

  /** A closing of `l` lies among positions `lo .. hi`. */
  ghost predicate ClosesWithin(ops: seq<Operation>, l: Link, lo: nat, hi: nat) {
    exists c :: lo <= c < hi <= |ops| && ops[c].Link() == l && !ops[c].Opens()
  }

  lemma {:induction false} RunIndexMeaning(ops: seq<Operation>, k: nat, l: Link)
    requires k <= |ops|
    ensures RunIndex(ops, k, l).Some? ==>
              var i := RunIndex(ops, k, l).value;
              && !ClosesWithin(ops, l, i, k)
              && forall e :: 0 <= e < i && ops[e].Link() == l && ops[e].Opens() ==> ClosesWithin(ops, l, e, i)
    ensures RunIndex(ops, k, l).None? ==>
              forall e :: 0 <= e < k && ops[e].Link() == l && ops[e].Opens() ==> ClosesWithin(ops, l, e, k)
  {
    if k > 0 {
      RunIndexMeaning(ops, k - 1, l);
      forall e | 0 <= e < k - 1 && ClosesWithin(ops, l, e, k - 1) ensures ClosesWithin(ops, l, e, k) {
        var c :| e <= c < k - 1 && ops[c].Link() == l && !ops[c].Opens();
        assert e <= c < k;
      }
    }
  }

  /** Once open, a run stays open until a closing. */
  lemma {:induction false} RunPersists(ops: seq<Operation>, k: nat, n: nat, l: Link)
    requires k <= n <= |ops|
    requires RunIndex(ops, k, l).Some? && !ClosesWithin(ops, l, k, n)
    ensures RunIndex(ops, n, l) == RunIndex(ops, k, l)
  {
    if k < n {
      RunPersists(ops, k, n - 1, l);
      assert k <= n - 1 < n <= |ops|;
    }
  }

  /** Operation `j` closes a run that began earlier in time, leaving the interval `m`. */
  ghost predicate Emits(ops: seq<Operation>, j: nat, m: Membership)
    requires j < |ops|
  {
    && !ops[j].Opens()
    && RunIndex(ops, j, ops[j].Link()).Some?
    && var start := ops[RunIndex(ops, j, ops[j].Link()).value].Start();
       start.at < ops[j].at && m == start.Until(Some(ops[j].at))
  }

  ghost predicate EmittedBy(ops: seq<Operation>, k: nat, m: Membership)
    requires k <= |ops|
  {
    exists j :: 0 <= j < k && Emits(ops, j, m)
  }

  ghost predicate LeftOpen(ops: seq<Operation>, m: Membership) {
    && m.validTo.None?
    && RunIndex(ops, |ops|, m.Link()).Some?
    && m.Start() == ops[RunIndex(ops, |ops|, m.Link()).value].Start()
  }

  lemma StartKeepsLink(o: Operation, end: Option<Instant>)
    requires o.Valid()
    ensures o.Start().Until(end).Link() == o.Link()
  {
  }

  /** A run still open was opened after every earlier closing. */
  lemma RunAfterClosing(ops: seq<Operation>, i: nat, k: nat, l: Link)
    requires i < k <= |ops| && ops[i].Link() == l && !ops[i].Opens()
    requires RunIndex(ops, k, l).Some?
    ensures i < RunIndex(ops, k, l).value
  {
    RunIndexMeaning(ops, k, l);
  }

  /** Two closings never leave the same interval. */
  lemma EmitsOnce(ops: seq<Operation>, i: nat, j: nat, m: Membership)
    requires i < j < |ops| && SortedBy(KeyLeq, ops) && forall o :: o in ops ==> o.Valid()
    requires Emits(ops, i, m)
    ensures !Emits(ops, j, m)
  {
    if ops[i].Link() == ops[j].Link() && RunIndex(ops, j, ops[j].Link()).Some? {
      RunAfterClosing(ops, i, j, ops[j].Link());
      assert KeyLeq(ops[i], ops[RunIndex(ops, j, ops[j].Link()).value]);
    } else if RunIndex(ops, j, ops[j].Link()).Some? {
      StartKeepsLink(ops[RunIndex(ops, i, ops[i].Link()).value], Some(ops[i].at));
      StartKeepsLink(ops[RunIndex(ops, j, ops[j].Link()).value], Some(ops[j].at));
    }
  }

  // --- positions and keys ------------------------------------------------------------------

  ghost predicate Ready(ops: seq<Operation>) {
    && SortedBy(KeyLeq, ops)
    && StrictOnLinks(ops)
    && forall o :: o in ops ==> o.Valid()
  }

  ghost function Elements(ops: seq<Operation>): set<Operation> { set o | o in ops }

  lemma IndexOrder(ops: seq<Operation>, i: nat, j: nat)
    requires Ready(ops) && i < |ops| && j < |ops| && ops[i].Link() == ops[j].Link()
    ensures i < j <==> Before(ops[i], ops[j])
  {
  }

  lemma BetweenIsWithin(ops: seq<Operation>, l: Link, i: nat, j: nat)
    requires Ready(ops) && i < j < |ops| && ops[i].Link() == ops[j].Link() == l && ops[i].Opens()
    ensures ClosedBetween(Elements(ops), l, ops[i], ops[j]) <==> ClosesWithin(ops, l, i, j)
  {
    if ClosesWithin(ops, l, i, j) {
      var c :| i <= c < j && ops[c].Link() == l && !ops[c].Opens();
      assert ClosesLink(Elements(ops), l, ops[c]);
      assert Before(ops[i], ops[c]) && Before(ops[c], ops[j]);
    }
    if ClosedBetween(Elements(ops), l, ops[i], ops[j]) {
      var o :| ClosesLink(Elements(ops), l, o) && Before(ops[i], o) && Before(o, ops[j]);
      var c :| 0 <= c < |ops| && ops[c] == o;
      IndexOrder(ops, i, c);
      IndexOrder(ops, c, j);
    }
  }

  /** The opening at the head of a run starts it. */
  lemma HeadStartsRun(ops: seq<Operation>, k: nat, l: Link)
    requires Ready(ops) && k <= |ops| && RunIndex(ops, k, l).Some?
    ensures StartsRun(Elements(ops), l, ops[RunIndex(ops, k, l).value])
  {
    var i := RunIndex(ops, k, l).value;
    RunIndexMeaning(ops, k, l);
    forall o | OpensLink(Elements(ops), l, o) && Before(o, ops[i])
      ensures ClosedBetween(Elements(ops), l, o, ops[i])
    {
      var e :| 0 <= e < |ops| && ops[e] == o;
      IndexOrder(ops, e, i);
      BetweenIsWithin(ops, l, e, i);
    }
  }

  lemma EmittedIsInterval(ops: seq<Operation>, j: nat, m: Membership)
    requires Ready(ops) && j < |ops| && Emits(ops, j, m)
    ensures IsInterval(Elements(ops), m)
  {
    var l := ops[j].Link();
    var i := RunIndex(ops, j, l).value;
    StartKeepsLink(ops[i], m.validTo);
    HeadStartsRun(ops, j, l);
    RunIndexMeaning(ops, j, l);
    BetweenIsWithin(ops, l, i, j);
    assert ClosesLink(Elements(ops), l, ops[j]) && Before(ops[i], ops[j]);
    assert EndsRun(Elements(ops), l, ops[i], m.validTo);
  }

  lemma LeftOpenIsInterval(ops: seq<Operation>, m: Membership)
    requires Ready(ops) && LeftOpen(ops, m)
    ensures IsInterval(Elements(ops), m)
  {
    var l := m.Link();
    var i := RunIndex(ops, |ops|, l).value;
    HeadStartsRun(ops, |ops|, l);
    RunIndexMeaning(ops, |ops|, l);
    forall c | ClosesLink(Elements(ops), l, c) ensures !Before(ops[i], c) {
      var e :| 0 <= e < |ops| && ops[e] == c;
      assert e < i;
      assert Before(ops[e], ops[i]);
    }
    assert EndsRun(Elements(ops), l, ops[i], m.validTo);
  }

  /** Whatever opening witnesses a run, the run's head has the same start. */
  lemma RunHeadOf(ops: seq<Operation>, l: Link, x: nat, n: nat)
    requires Ready(ops) && x < n <= |ops| && StartsRun(Elements(ops), l, ops[x])
    requires !ClosesWithin(ops, l, x, n)
    ensures RunIndex(ops, n, l).Some? && ops[RunIndex(ops, n, l).value].Start() == ops[x].Start()
  {
    RunIndexMeaning(ops, n, l);
    var i := RunIndex(ops, n, l).value;
    if i < x {
      assert Before(ops[i], ops[x]) && OpensLink(Elements(ops), l, ops[i]);
      BetweenIsWithin(ops, l, i, x);
      assert !ClosesWithin(ops, l, i, x);
    }
  }

  lemma IntervalIsFolded(ops: seq<Operation>, m: Membership)
    requires Ready(ops) && IsInterval(Elements(ops), m)
    ensures EmittedBy(ops, |ops|, m) || LeftOpen(ops, m)
  {
    var all, l := Elements(ops), m.Link();
    var o :| StartsRun(all, l, o) && o.Start() == m.Start() && EndsRun(all, l, o, m.validTo);
    var x :| 0 <= x < |ops| && ops[x] == o;
    if m.validTo.Some? {
      var c :| ClosesLink(all, l, c) && c.at == m.validTo.value && Before(o, c) && !ClosedBetween(all, l, o, c);
      var j :| 0 <= j < |ops| && ops[j] == c;
      IndexOrder(ops, x, j);
      BetweenIsWithin(ops, l, x, j);
      RunHeadOf(ops, l, x, j);
      assert Emits(ops, j, m);
    } else {
      forall c | x <= c < |ops| && ops[c].Link() == l ensures ops[c].Opens() {
        assert c > x ==> Before(ops[x], ops[c]);
        assert !ops[c].Opens() ==> ClosesLink(all, l, ops[c]);
      }
      RunHeadOf(ops, l, x, |ops|);
    }
  }

  /** The fold's intervals are exactly the ones its operations describe. */
  lemma FoldMeaning(ops: seq<Operation>, m: Membership)
    requires Ready(ops)
    ensures IsInterval(Elements(ops), m) <==> EmittedBy(ops, |ops|, m) || LeftOpen(ops, m)
  {
    if IsInterval(Elements(ops), m) { IntervalIsFolded(ops, m); }
    if EmittedBy(ops, |ops|, m) {
      var j :| 0 <= j < |ops| && Emits(ops, j, m);
      EmittedIsInterval(ops, j, m);
    }
    if LeftOpen(ops, m) { LeftOpenIsInterval(ops, m); }
  }

  // --- the order of the result ---------------------------------------------------------------

  function TypeKey(m: Membership): string { if m.relationship.Some? then m.relationship.value else "" }

  /** (subject, related, relationship type or "", start), compared in that order. */
  predicate MembershipLess(a: Membership, b: Membership) {
    || a.subject < b.subject
    || (a.subject == b.subject && a.related < b.related)
    || (a.subject == b.subject && a.related == b.related && TextLess(TypeKey(a), TypeKey(b)))
    || (a.subject == b.subject && a.related == b.related && TypeKey(a) == TypeKey(b) && a.validFrom < b.validFrom)
  }

  predicate MembershipLeq(a: Membership, b: Membership) { !MembershipLess(b, a) }

  lemma MembershipOrder()
    ensures TotalPreorder(MembershipLeq)
    ensures forall a, b :: MembershipLess(a, b) ==> !MembershipLess(b, a)
  {
    forall a, b ensures MembershipLess(a, b) ==> !MembershipLess(b, a) {
      TextOrder(TypeKey(a), TypeKey(b));
    }
    forall a, b, c | MembershipLeq(a, b) && MembershipLeq(b, c) ensures MembershipLeq(a, c) {
      MembershipTransitive(a, b, c);
    }
  }

  lemma MembershipTransitive(a: Membership, b: Membership, c: Membership)
    requires MembershipLeq(a, b) && MembershipLeq(b, c)
    ensures MembershipLeq(a, c)
  {
    TextOrder(TypeKey(a), TypeKey(b));
    TextOrder(TypeKey(b), TypeKey(c));
    TextOrder(TypeKey(a), TypeKey(c));
    if TextLess(TypeKey(a), TypeKey(b)) && TextLess(TypeKey(b), TypeKey(c)) {
      TextTransitive(TypeKey(a), TypeKey(b), TypeKey(c));
    }
  }

  // --- what the intervals mean ------------------------------------------------------------------

  ghost predicate Disjoint(a: Membership, b: Membership) {
    forall t :: !(a.Covers(t) && b.Covers(t))
  }

  /** Every interval satisfies the `Membership` validator, and two intervals of one link never
      overlap; so at most one of them is open. */
  lemma IntervalsAreDisjoint(ops: seq<Operation>, a: Membership, b: Membership)
    requires Ready(ops) && IsInterval(Elements(ops), a) && IsInterval(Elements(ops), b)
    ensures a.Valid()
    ensures a.Link() == b.Link() && a != b ==> Disjoint(a, b)
  {
    var ja := EndIndex(ops, a);
    var jb := EndIndex(ops, b);
    EndsDecide(ops, a, b, ja, jb);
  }

  lemma EndsDecide(ops: seq<Operation>, a: Membership, b: Membership, ja: nat, jb: nat)
    requires Ready(ops) && EndsAt(ops, a, ja) && EndsAt(ops, b, jb)
    ensures a.Valid()
    ensures a.Link() == b.Link() && a != b ==> Disjoint(a, b)
  {
    if a.Link() == b.Link() {
      if ja < jb { EarlierEnds(ops, a, b, ja, jb); }
      else if jb < ja { EarlierEnds(ops, b, a, jb, ja); }
      else { assert a.Start() == b.Start(); }
    }
  }

  /** `m` is the interval the fold ends at `j`: a closing's position, or the end for one left open. */
  ghost predicate EndsAt(ops: seq<Operation>, m: Membership, j: nat) {
    && j <= |ops| && RunIndex(ops, j, m.Link()).Some?
    && m.Start() == ops[RunIndex(ops, j, m.Link()).value].Start()
    && (j == |ops| <==> m.validTo.None?)
    && (j < |ops| ==> ops[j].Link() == m.Link() && !ops[j].Opens() && m.validTo == Some(ops[j].at))
    && m.Valid()
  }

  lemma EarlierEnds(ops: seq<Operation>, a: Membership, b: Membership, ja: nat, jb: nat)
    requires Ready(ops) && EndsAt(ops, a, ja) && EndsAt(ops, b, jb) && a.Link() == b.Link() && ja < jb
    ensures a.validTo.Some? && a.validTo.value <= b.validFrom
  {
    RunAfterClosing(ops, ja, jb, a.Link());
    StartsAfter(ops, ja, jb, a.Link());
  }

  lemma StartsAfter(ops: seq<Operation>, i: nat, k: nat, l: Link)
    requires Ready(ops) && i < k <= |ops| && RunIndex(ops, k, l).Some? && i < RunIndex(ops, k, l).value
    ensures ops[i].at <= ops[RunIndex(ops, k, l).value].at
  {
    assert KeyLeq(ops[i], ops[RunIndex(ops, k, l).value]);
  }

  lemma EndIndex(ops: seq<Operation>, m: Membership) returns (j: nat)
    requires Ready(ops) && IsInterval(Elements(ops), m)
    ensures EndsAt(ops, m, j)
  {
    IntervalIsFolded(ops, m);
    if LeftOpen(ops, m) {
      j := |ops|;
    } else {
      var c :| 0 <= c < |ops| && Emits(ops, c, m);
      StartKeepsLink(ops[RunIndex(ops, c, ops[c].Link()).value], m.validTo);
      j := c;
    }
    assert ops[RunIndex(ops, j, m.Link()).value].Valid();
  }

  // --- point in time --------------------------------------------------------------------------

  /** The last operation on `l` among the first `k`. */
  function LastOn(ops: seq<Operation>, k: nat, l: Link): (r: Option<nat>)
    requires k <= |ops|
    ensures r.Some? ==> r.value < k && ops[r.value].Link() == l
    ensures r.Some? ==> forall e :: r.value < e < k ==> ops[e].Link() != l
    ensures r.None? ==> forall e :: 0 <= e < k ==> ops[e].Link() != l
  {
    if k == 0 then None
    else if ops[k - 1].Link() == l then Some(k - 1)
    else LastOn(ops, k - 1, l)
  }

  /** A link is open exactly when the last operation on it opens it. */
  lemma {:induction false} LastDecides(ops: seq<Operation>, k: nat, l: Link)
    requires k <= |ops|
    ensures RunIndex(ops, k, l).Some? <==> LastOn(ops, k, l).Some? && ops[LastOn(ops, k, l).value].Opens()
  {
    if k > 0 && ops[k - 1].Link() != l { LastDecides(ops, k - 1, l); }
  }

  /** The first `k` operations are those at or before `t`. */
  ghost predicate SplitsAt(ops: seq<Operation>, k: nat, t: Instant) {
    && k <= |ops|
    && (forall i :: 0 <= i < k ==> ops[i].at <= t)
    && (forall i :: k <= i < |ops| ==> t < ops[i].at)
  }

  lemma {:induction false} SplitExists(ops: seq<Operation>, t: Instant, n: nat) returns (k: nat)
    requires SortedBy(KeyLeq, ops) && n <= |ops| && forall i :: n <= i < |ops| ==> t < ops[i].at
    ensures SplitsAt(ops, k, t)
  {
    if n == 0 || ops[n - 1].at <= t {
      k := n;
      forall i | 0 <= i < k ensures ops[i].at <= t {
        assert i < n - 1 ==> KeyLeq(ops[i], ops[n - 1]);
      }
    } else {
      k := SplitExists(ops, t, n - 1);
    }
  }

  lemma LastAtIsLastOn(ops: seq<Operation>, l: Link, t: Instant, k: nat)
    requires Ready(ops) && SplitsAt(ops, k, t)
    ensures HoldsAt(Elements(ops), l, t) <==> LastOn(ops, k, l).Some? && ops[LastOn(ops, k, l).value].Opens()
  {
    if HoldsAt(Elements(ops), l, t) { HoldsIsLast(ops, l, t, k); }
    if LastOn(ops, k, l).Some? && ops[LastOn(ops, k, l).value].Opens() { LastHolds(ops, l, t, k); }
  }

  lemma HoldsIsLast(ops: seq<Operation>, l: Link, t: Instant, k: nat)
    requires Ready(ops) && SplitsAt(ops, k, t) && HoldsAt(Elements(ops), l, t)
    ensures LastOn(ops, k, l).Some? && ops[LastOn(ops, k, l).value].Opens()
  {
    var last := LastOn(ops, k, l);
    var o :| OpensLink(Elements(ops), l, o) && o.at <= t &&
             forall c :: c in Elements(ops) && c.Link() == l && c.at <= t ==> c == o || Before(c, o);
    var x :| 0 <= x < |ops| && ops[x] == o;
    assert x < k;
    assert ops[last.value] in Elements(ops);
    IndexOrder(ops, last.value, x);
  }

  lemma LastHolds(ops: seq<Operation>, l: Link, t: Instant, k: nat)
    requires Ready(ops) && SplitsAt(ops, k, t)
    requires LastOn(ops, k, l).Some? && ops[LastOn(ops, k, l).value].Opens()
    ensures HoldsAt(Elements(ops), l, t)
  {
    LastIsLatest(ops, l, t, k);
    assert OpensLink(Elements(ops), l, ops[LastOn(ops, k, l).value]);
  }

  /** Of the link's operations up to an instant, the last one by position is the latest by key. */
  lemma LastIsLatest(ops: seq<Operation>, l: Link, t: Instant, k: nat)
    requires Ready(ops) && SplitsAt(ops, k, t) && LastOn(ops, k, l).Some?
    ensures var last := ops[LastOn(ops, k, l).value];
            && last in Elements(ops) && last.Link() == l && last.at <= t
            && forall c :: c in Elements(ops) && c.Link() == l && c.at <= t ==> c == last || Before(c, last)
  {
    var last := ops[LastOn(ops, k, l).value];
    forall c | c in Elements(ops) && c.Link() == l && c.at <= t ensures c == last || Before(c, last) {
      var e :| 0 <= e < |ops| && ops[e] == c;
      assert e < k;
    }
  }

  lemma {:induction false} RunBack(ops: seq<Operation>, k: nat, j: nat, l: Link)
    requires k <= j <= |ops| && RunIndex(ops, j, l).Some? && RunIndex(ops, j, l).value < k
    ensures RunIndex(ops, k, l) == RunIndex(ops, j, l)
  {
    if k < j { RunBack(ops, k, j - 1, l); }
  }

  lemma {:induction false} NextClosing(ops: seq<Operation>, k: nat, l: Link) returns (j: nat)
    requires k <= |ops|
    ensures k <= j <= |ops| && !ClosesWithin(ops, l, k, j)
    ensures j < |ops| ==> ops[j].Link() == l && !ops[j].Opens()
    decreases |ops| - k
  {
    if k == |ops| || (ops[k].Link() == l && !ops[k].Opens()) {
      j := k;
    } else {
      j := NextClosing(ops, k + 1, l);
      forall c | k <= c < j && ops[c].Link() == l ensures ops[c].Opens() {
        assert c > k ==> k + 1 <= c < j <= |ops|;
      }
    }
  }

  lemma CoveredIsOpen(ops: seq<Operation>, m: Membership, t: Instant, k: nat)
    requires Ready(ops) && SplitsAt(ops, k, t) && IsInterval(Elements(ops), m) && m.Covers(t)
    ensures RunIndex(ops, k, m.Link()).Some?
  {
    var j := EndIndex(ops, m);
    RunBack(ops, k, j, m.Link());
  }

  lemma OpenIsCovered(ops: seq<Operation>, l: Link, t: Instant, k: nat) returns (m: Membership)
    requires Ready(ops) && SplitsAt(ops, k, t) && RunIndex(ops, k, l).Some?
    ensures IsInterval(Elements(ops), m) && m.Link() == l && m.Covers(t)
  {
    var j := NextClosing(ops, k, l);
    RunPersists(ops, k, j, l);
    var head := ops[RunIndex(ops, k, l).value];
    assert head.Link() == l && RunIndex(ops, j, l) == RunIndex(ops, k, l);
    m := head.Start().Until(if j < |ops| then Some(ops[j].at) else None);
    StartKeepsLink(head, m.validTo);
    if j < |ops| {
      assert Emits(ops, j, m);
      assert EmittedBy(ops, |ops|, m);
    } else {
      assert LeftOpen(ops, m);
    }
    FoldMeaning(ops, m);
  }

  /** The projection's point-in-time meaning: an interval of `l` covers `t` exactly when the last
      operation on `l` at or before `t` relates or merges. */
  lemma PointInTime(events: seq<EntityEvent>, ids: seq<ResolvedIdentity>, l: Link, t: Instant)
    requires AllValid(events, ids)
    ensures HoldsAt(OperationSet(events, ids), l, t) <==>
            exists m :: IsInterval(OperationSet(events, ids), m) && m.Link() == l && m.Covers(t)
  {
    var ops := SortedOperations(events, ids);
    var k := SplitExists(ops, t, |ops|);
    LastAtIsLastOn(ops, l, t, k);
    LastDecides(ops, k, l);
    if RunIndex(ops, k, l).Some? {
      var m := OpenIsCovered(ops, l, t, k);
    } else {
      forall m | IsInterval(Elements(ops), m) && m.Covers(t) ensures m.Link() != l {
        CoveredIsOpen(ops, m, t, k);
      }
    }
  }

  /** The operations in processing order. */
  function SortedOperations(events: seq<EntityEvent>, ids: seq<ResolvedIdentity>): (r: seq<Operation>)
    requires AllValid(events, ids)
    ensures Ready(r) && Elements(r) == OperationSet(events, ids)
  {
    OperationsFacts(events, ids);
    SortedIsStrict(Operations(events, ids));
    SortKeepsElements(KeyLeq, Operations(events, ids));
    Sort(KeyLeq, Operations(events, ids))
  }
}

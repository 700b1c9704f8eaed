/** One asserted relationship added to the fold's sources: exactly when inserting an open row,
    unless one is open, gives the rebuilt projection. */
module Incremental {
  import opened Wrappers
  import opened Identity
  import opened Projection

  /** On link `l`, `b` holds the operations of `a` and the newest asserted relationship `n`. */
  ghost predicate Adds(a: seq<Operation>, b: seq<Operation>, l: Link, n: Operation) {
    && Ready(a) && Ready(b)
    && n.Link() == l && n.kind == Relate && n.rank == 0 && n in Elements(b) && n !in Elements(a)
    && (forall o: Operation :: o.Link() == l && o != n ==> (o in Elements(b) <==> o in Elements(a)))
    && (forall o :: o in Elements(a) && o.Link() == l && o.rank == 0 ==> o.Opens() && o.position < n.position)
  }

  /** The link is open just before `n`. */
  ghost predicate OpenBefore(s: set<Operation>, l: Link, o: Operation, n: Operation) {
    OpensLink(s, l, o) && Before(o, n) && !ClosedBetween(s, l, o, n)
  }

  ghost predicate ActsAt(s: set<Operation>, l: Link, t: Instant, x: Operation) {
    x in s && x.Link() == l && x.at == t
  }

  /** A stored interval of the link reaches from before `t`, or from it, up to `t`. */
  ghost predicate Reaches(m: Membership, l: Link, t: Instant) {
    m.Link() == l && m.validFrom <= t && (m.validTo.Some? ==> t <= m.validTo.value)
  }

  /** The new relationship leaves the fold unchanged. */
  ghost predicate Redundant(s: set<Operation>, l: Link, t: Instant) {
    || (exists m :: IsInterval(s, m) && Reaches(m, l, t))
    || (exists x :: ActsAt(s, l, t, x))
  }

  ghost predicate OpenRow(s: set<Operation>, l: Link, m: Membership) {
    IsInterval(s, m) && m.Link() == l && m.Current()
  }

  ghost predicate HasOpenRow(s: set<Operation>, l: Link) {
    exists m :: OpenRow(s, l, m)
  }

  /** The condition the write path needs of the instant it asserts a relationship at. */
  ghost predicate Timely(s: set<Operation>, l: Link, t: Instant) {
    if HasOpenRow(s, l) then Redundant(s, l, t)
    else forall c :: ClosesLink(s, l, c) ==> c.at < t
  }

  lemma ClosingsAgree(a: seq<Operation>, b: seq<Operation>, l: Link, n: Operation, x: Operation, y: Operation)
    requires Adds(a, b, l, n)
    ensures ClosedBetween(Elements(a), l, x, y) <==> ClosedBetween(Elements(b), l, x, y)
    ensures forall c :: ClosesLink(Elements(a), l, c) <==> ClosesLink(Elements(b), l, c)
  {
    assert forall c :: ClosesLink(Elements(a), l, c) <==> ClosesLink(Elements(b), l, c);
  }

  /** A run of `b` that `n` does not witness is a run of `a`. */
  lemma OldRunStays(a: seq<Operation>, b: seq<Operation>, l: Link, n: Operation, x: Operation, end: Option<Instant>)
    requires Adds(a, b, l, n) && x != n
    requires StartsRun(Elements(b), l, x) && EndsRun(Elements(b), l, x, end)
    ensures StartsRun(Elements(a), l, x) && EndsRun(Elements(a), l, x, end)
  {
    forall o | OpensLink(Elements(a), l, o) && Before(o, x)
      ensures o.Start() == x.Start() || ClosedBetween(Elements(a), l, o, x)
    {
      assert OpensLink(Elements(b), l, o);
      ClosingsAgree(a, b, l, n, o, x);
    }
    EndsAgree(a, b, l, n, x, end);
  }

  lemma EndsAgree(a: seq<Operation>, b: seq<Operation>, l: Link, n: Operation, x: Operation, end: Option<Instant>)
    requires Adds(a, b, l, n)
    ensures EndsRun(Elements(a), l, x, end) <==> EndsRun(Elements(b), l, x, end)
  {
    ClosingsAgree(a, b, l, n, x, x);
    forall c ensures ClosedBetween(Elements(a), l, x, c) <==> ClosedBetween(Elements(b), l, x, c) {
      ClosingsAgree(a, b, l, n, x, c);
    }
  }

  /** A run of `a` stays one in `b` when `n` does not open an earlier run of the same link. */
  lemma NewRunKeeps(a: seq<Operation>, b: seq<Operation>, l: Link, n: Operation, x: Operation, end: Option<Instant>)
    requires Adds(a, b, l, n)
    requires StartsRun(Elements(a), l, x) && EndsRun(Elements(a), l, x, end)
    requires Before(n, x) ==> n.Start() == x.Start() || ClosedBetween(Elements(a), l, n, x)
    ensures StartsRun(Elements(b), l, x) && EndsRun(Elements(b), l, x, end)
  {
    forall o | OpensLink(Elements(b), l, o) && Before(o, x)
      ensures o.Start() == x.Start() || ClosedBetween(Elements(b), l, o, x)
    {
      ClosingsAgree(a, b, l, n, o, x);
      assert o != n ==> OpensLink(Elements(a), l, o);
    }
    EndsAgree(a, b, l, n, x, end);
  }

  /** Two openings that no closing separates end alike. */
  lemma EndsTogether(s: set<Operation>, l: Link, x: Operation, y: Operation, end: Option<Instant>)
    requires Before(x, y) && !ClosedBetween(s, l, x, y)
    requires forall c :: ClosesLink(s, l, c) ==> Before(c, y) || Before(y, c)
    ensures EndsRun(s, l, x, end) <==> EndsRun(s, l, y, end)
  {
    forall c | ClosesLink(s, l, c) ensures Before(x, c) <==> Before(y, c) {
      assert Before(x, c) && Before(c, y) ==> ClosedBetween(s, l, x, y);
    }
  }

  lemma ClosingsCompare(a: seq<Operation>, l: Link, y: Operation)
    requires Ready(a) && y in Elements(a) && y.Link() == l && y.Opens()
    ensures forall c :: ClosesLink(Elements(a), l, c) ==> Before(c, y) || Before(y, c)
  {
    var i :| 0 <= i < |a| && a[i] == y;
    forall c | ClosesLink(Elements(a), l, c) ensures Before(c, y) || Before(y, c) {
      var j :| 0 <= j < |a| && a[j] == c;
      IndexOrder(a, i, j);
      IndexOrder(a, j, i);
    }
  }

  // --- the link already open just before n ------------------------------------------------

  lemma OpenBeforeKeeps(a: seq<Operation>, b: seq<Operation>, l: Link, n: Operation, o: Operation, m: Membership)
    requires Adds(a, b, l, n) && OpenBefore(Elements(a), l, o, n) && StartsRun(Elements(a), l, o) && m.Link() == l
    ensures IsInterval(Elements(a), m) <==> IsInterval(Elements(b), m)
  {
    var A, B := Elements(a), Elements(b);
    if IsInterval(B, m) {
      var x :| StartsRun(B, l, x) && x.Start() == m.Start() && EndsRun(B, l, x, m.validTo);
      if x == n {
        ClosingsAgree(a, b, l, n, o, n);
        assert OpensLink(B, l, o);
        assert o.Start() == n.Start();
        EndsAgree(a, b, l, n, n, m.validTo);
        ClosingsCompare(b, l, n);
        ClosingsAgree(a, b, l, n, n, n);
        EndsTogether(A, l, o, n, m.validTo);
      } else {
        OldRunStays(a, b, l, n, x, m.validTo);
      }
    }
    if IsInterval(A, m) {
      var x :| StartsRun(A, l, x) && x.Start() == m.Start() && EndsRun(A, l, x, m.validTo);
      if Before(n, x) && !ClosedBetween(A, l, n, x) {
        ClosingsCompare(b, l, n);
        ClosingsAgree(a, b, l, n, n, n);
        assert !ClosedBetween(A, l, o, x);
        assert o.Start() == x.Start();
        assert n.Start() == x.Start();
      }
      NewRunKeeps(a, b, l, n, x, m.validTo);
    }
  }

  // --- the link acted on at the same instant ----------------------------------------------

  lemma {:induction false} FirstAt(a: seq<Operation>, l: Link, t: Instant, k: nat) returns (x: Operation)
    requires Ready(a) && k < |a| && a[k].Link() == l && a[k].at == t
    ensures ActsAt(Elements(a), l, t, x)
    ensures forall y :: ActsAt(Elements(a), l, t, y) ==> y == x || Before(x, y)
  {
    if i :| 0 <= i < k && a[i].Link() == l && a[i].at == t {
      x := FirstAt(a, l, t, i);
    } else {
      x := a[k];
      forall y | ActsAt(Elements(a), l, t, y) ensures y == x || Before(x, y) {
        var j :| 0 <= j < |a| && a[j] == y;
        assert j >= k;
      }
    }
  }

  /** An assertion at the new one's instant, first there, leaves the link open up to it. */
  lemma AssertionIsOpen(a: seq<Operation>, b: seq<Operation>, l: Link, n: Operation, x0: Operation)
    requires Adds(a, b, l, n) && ActsAt(Elements(a), l, n.at, x0)
    ensures x0.rank == 0 ==> OpenBefore(Elements(a), l, x0, n)
  {
  }

  lemma ActsAtKeeps(a: seq<Operation>, b: seq<Operation>, l: Link, n: Operation, x0: Operation, m: Membership)
    requires Adds(a, b, l, n) && m.Link() == l
    requires forall o :: !OpenBefore(Elements(a), l, o, n)
    requires ActsAt(Elements(a), l, n.at, x0)
    requires forall y :: ActsAt(Elements(a), l, n.at, y) ==> y == x0 || Before(x0, y)
    ensures IsInterval(Elements(a), m) <==> IsInterval(Elements(b), m)
  {
    AssertionIsOpen(a, b, l, n, x0);
    if IsInterval(Elements(b), m) { ActsAtBack(a, b, l, n, x0, m); }
    if IsInterval(Elements(a), m) { ActsAtOn(a, b, l, n, x0, m); }
  }

  lemma ActsAtBack(a: seq<Operation>, b: seq<Operation>, l: Link, n: Operation, x0: Operation, m: Membership)
    requires Adds(a, b, l, n) && m.Link() == l && x0.rank != 0
    requires forall o :: !OpenBefore(Elements(a), l, o, n)
    requires ActsAt(Elements(a), l, n.at, x0)
    requires forall y :: ActsAt(Elements(a), l, n.at, y) ==> y == x0 || Before(x0, y)
    requires IsInterval(Elements(b), m)
    ensures IsInterval(Elements(a), m)
  {
    var B := Elements(b);
    var x :| StartsRun(B, l, x) && x.Start() == m.Start() && EndsRun(B, l, x, m.validTo);
    if x == n {
      EndsAgree(a, b, l, n, n, m.validTo);
      WitnessMoves(a, l, n, x0, m);
    } else {
      OldRunStays(a, b, l, n, x, m.validTo);
    }
  }

  lemma ActsAtOn(a: seq<Operation>, b: seq<Operation>, l: Link, n: Operation, x0: Operation, m: Membership)
    requires Adds(a, b, l, n) && m.Link() == l && x0.rank != 0
    requires forall o :: !OpenBefore(Elements(a), l, o, n)
    requires ActsAt(Elements(a), l, n.at, x0)
    requires forall y :: ActsAt(Elements(a), l, n.at, y) ==> y == x0 || Before(x0, y)
    requires IsInterval(Elements(a), m)
    ensures IsInterval(Elements(b), m)
  {
    var A := Elements(a);
    var x :| StartsRun(A, l, x) && x.Start() == m.Start() && EndsRun(A, l, x, m.validTo);
    if Before(n, x) && x != x0 {
      assert Before(x0, x);
      assert x0.Opens() ==> n.Start() == x0.Start();
      assert !x0.Opens() ==> ClosesLink(A, l, x0);
    }
    NewRunKeeps(a, b, l, n, x, m.validTo);
  }

  /** Closed by the first operation of its own instant, a run ends the instant it begins. */
  lemma ImmediateClosing(a: seq<Operation>, l: Link, n: Operation, x0: Operation, end: Option<Instant>)
    requires ClosesLink(Elements(a), l, x0) && x0.at == n.at && Before(n, x0)
    requires forall y :: ActsAt(Elements(a), l, n.at, y) ==> y == x0 || Before(x0, y)
    requires EndsRun(Elements(a), l, n, end)
    ensures end == Some(n.at)
  {
    if end.Some? {
      var c :| ClosesLink(Elements(a), l, c) && c.at == end.value && Before(n, c) &&
        !ClosedBetween(Elements(a), l, n, c);
      assert !Before(x0, c);
      assert c.at == n.at ==> ActsAt(Elements(a), l, n.at, c);
    }
  }

  /** An interval witnessed by `n` is witnessed by the first operation of its instant. */
  lemma WitnessMoves(a: seq<Operation>, l: Link, n: Operation, x0: Operation, m: Membership)
    requires Ready(a) && m.Link() == l && n.Link() == l && n.kind == Relate && n.rank == 0 && x0.rank != 0
    requires forall o :: !OpenBefore(Elements(a), l, o, n)
    requires ActsAt(Elements(a), l, n.at, x0)
    requires forall y :: ActsAt(Elements(a), l, n.at, y) ==> y == x0 || Before(x0, y)
    requires n.Start() == m.Start() && EndsRun(Elements(a), l, n, m.validTo)
    requires m.validTo.Some? ==> m.validFrom < m.validTo.value
    ensures IsInterval(Elements(a), m)
  {
    var A := Elements(a);
    assert Before(n, x0);
    assert !x0.Opens() ==> ClosesLink(A, l, x0);
    if !x0.Opens() { ImmediateClosing(a, l, n, x0, m.validTo); }
    assert x0.Start() == n.Start();
    forall o | OpensLink(A, l, o) && Before(o, x0) ensures o.Start() == x0.Start() || ClosedBetween(A, l, o, x0) {
      assert !ActsAt(A, l, n.at, o) || o.Start() == n.Start();
      assert !OpenBefore(A, l, o, n);
    }
    assert StartsRun(A, l, x0);
    forall c | ClosesLink(A, l, c) ensures Before(n, c) <==> Before(x0, c) {
      assert c.at == n.at ==> ActsAt(A, l, n.at, c);
    }
    assert EndsRun(A, l, x0, m.validTo);
  }

  // --- neither: the new relationship starts a run of its own --------------------------------

  lemma OwnRun(a: seq<Operation>, b: seq<Operation>, l: Link, n: Operation) returns (m: Membership)
    requires Adds(a, b, l, n)
    requires forall o :: !OpenBefore(Elements(a), l, o, n)
    requires forall x :: !ActsAt(Elements(a), l, n.at, x)
    ensures m.Link() == l && m.validFrom == n.at && IsInterval(Elements(b), m) && !IsInterval(Elements(a), m)
    ensures m.validTo.Some? ==> exists c :: ClosesLink(Elements(a), l, c) && n.at <= c.at
    ensures m.Start() == n.Start()
  {
    var k :| 0 <= k < |b| && b[k] == n;
    var j := NextClosing(b, k, l);
    m := n.Start().Until(if j < |b| then Some(b[j].at) else None);
    forall o | OpensLink(Elements(b), l, o) && Before(o, n) ensures ClosedBetween(Elements(b), l, o, n) {
      ClosingsAgree(a, b, l, n, o, n);
      assert !OpenBefore(Elements(a), l, o, n);
    }
    OwnRunEnds(a, b, l, n, k, j, m.validTo);
    forall o | StartsRun(Elements(a), l, o) ensures o.Start() != m.Start() {
      assert !ActsAt(Elements(a), l, n.at, o);
    }
  }

  lemma ClosingPast(ops: seq<Operation>, l: Link, k: nat, n: nat, i: nat)
    requires n <= |ops| && k <= i < |ops| && !ClosesWithin(ops, l, k, n) && ops[i].Link() == l && !ops[i].Opens()
    ensures n <= i
  {
  }

  lemma NoClosingFrom(ops: seq<Operation>, l: Link, k: nat, n: nat, i: nat)
    requires n <= |ops| && i < n && !ClosesWithin(ops, l, k, n) && ops[i].Link() == l && !ops[i].Opens()
    ensures i < k
  {
  }

  lemma OwnRunEnds(a: seq<Operation>, b: seq<Operation>, l: Link, n: Operation, k: nat, j: nat, end: Option<Instant>)
    requires Adds(a, b, l, n) && k <= j <= |b| && k < |b| && b[k] == n && !ClosesWithin(b, l, k, j)
    requires j < |b| ==> b[j].Link() == l && !b[j].Opens()
    requires end == if j < |b| then Some(b[j].at) else None
    requires forall x :: !ActsAt(Elements(a), l, n.at, x)
    ensures EndsRun(Elements(b), l, n, end)
    ensures end.Some? ==> n.at < end.value && exists c :: ClosesLink(Elements(a), l, c) && n.at <= c.at
  {
    ClosingsAgree(a, b, l, n, n, n);
    if j < |b| {
      BetweenIsWithin(b, l, k, j);
      assert ClosesLink(Elements(b), l, b[j]) && Before(b[k], b[j]);
      assert !ActsAt(Elements(a), l, n.at, b[j]);
    } else {
      forall c | ClosesLink(Elements(b), l, c) ensures !Before(n, c) {
        var i :| 0 <= i < |b| && b[i] == c;
        IndexOrder(b, k, i);
        NoClosingFrom(b, l, k, |b|, i);
      }
    }
  }

  // --- redundancy --------------------------------------------------------------------------

  /** Open just before `n`, some run head is too. */
  lemma HeadBefore(a: seq<Operation>, b: seq<Operation>, l: Link, n: Operation, o: Operation)
      returns (h: Operation, m: Membership)
    requires Adds(a, b, l, n) && OpenBefore(Elements(a), l, o, n)
    ensures OpenBefore(Elements(a), l, h, n) && StartsRun(Elements(a), l, h)
    ensures h.at <= n.at
    ensures h.at < n.at ==> IsInterval(Elements(a), m) && Reaches(m, l, n.at)
  {
    var x :| 0 <= x < |a| && a[x] == o;
    var r := HeadIndex(a, l, x);
    h := a[r];
    HeadStartsRun(a, x + 1, l);
    RunIndexMeaning(a, x + 1, l);
    HeadStillOpen(a, b, l, n, o, x, r);
    var j := NextClosing(a, r, l);
    m := h.Start().Until(if j < |a| then Some(a[j].at) else None);
    if h.at < n.at { HeadReaches(a, b, l, n, r, j, m); }
  }

  lemma HeadIndex(a: seq<Operation>, l: Link, x: nat) returns (r: nat)
    requires x < |a| && a[x].Link() == l && a[x].Opens()
    ensures RunIndex(a, x + 1, l) == Some(r) && r <= x
  {
    r := RunIndex(a, x + 1, l).value;
  }

  lemma HeadStillOpen(a: seq<Operation>, b: seq<Operation>, l: Link, n: Operation, o: Operation, x: nat, r: nat)
    requires Adds(a, b, l, n) && OpenBefore(Elements(a), l, o, n) && x < |a| && a[x] == o
    requires RunIndex(a, x + 1, l) == Some(r)
    ensures OpenBefore(Elements(a), l, a[r], n)
  {
    RunIndexMeaning(a, x + 1, l);
    IndexOrder(a, r, x);
    assert !ClosesWithin(a, l, r, x + 1);
    HeadBeforeOpening(a, l, r, x, n);
    forall c | ClosesLink(Elements(a), l, c) && Before(a[r], c) ensures !Before(c, n) {
      ClosingAfterOpening(a, l, n, x, r, c);
    }
  }

  lemma HeadBeforeOpening(a: seq<Operation>, l: Link, r: nat, x: nat, n: Operation)
    requires Ready(a) && r <= x < |a| && a[r].Link() == l == a[x].Link() && Before(a[x], n)
    ensures Before(a[r], n)
  {
    IndexOrder(a, r, x);
  }

  /** No closing lies between the head of a run and the opening that reaches `n`. */
  lemma ClosingAfterOpening(a: seq<Operation>, l: Link, n: Operation, x: nat, r: nat, c: Operation)
    requires Ready(a) && r <= x < |a| && OpenBefore(Elements(a), l, a[x], n) && a[r].Link() == l
    requires !ClosesWithin(a, l, r, x + 1) && ClosesLink(Elements(a), l, c) && Before(a[r], c)
    ensures !Before(c, n)
  {
    var i :| 0 <= i < |a| && a[i] == c;
    IndexOrder(a, r, i);
    ClosingPast(a, l, r, x + 1, i);
    IndexOrder(a, x, i);
  }

  lemma HeadReaches(a: seq<Operation>, b: seq<Operation>, l: Link, n: Operation, r: nat, j: nat, m: Membership)
    requires Adds(a, b, l, n) && r < |a| && OpenBefore(Elements(a), l, a[r], n) && StartsRun(Elements(a), l, a[r])
    requires r <= j <= |a| && !ClosesWithin(a, l, r, j)
    requires j < |a| ==> a[j].Link() == l && !a[j].Opens()
    requires m == a[r].Start().Until(if j < |a| then Some(a[j].at) else None) && a[r].at < n.at
    ensures IsInterval(Elements(a), m) && Reaches(m, l, n.at)
  {
    StartKeepsLink(a[r], m.validTo);
    if j < |a| {
      IndexOrder(a, r, j);
      BetweenIsWithin(a, l, r, j);
      assert ClosesLink(Elements(a), l, a[j]);
      assert !Before(a[j], n);
    } else {
      forall c | ClosesLink(Elements(a), l, c) ensures !Before(a[r], c) {
        var i :| 0 <= i < |a| && a[i] == c;
        IndexOrder(a, r, i);
        NoClosingFrom(a, l, r, |a|, i);
      }
    }
    assert EndsRun(Elements(a), l, a[r], m.validTo);
  }

  /** A stored interval reaching `n` from before keeps the link open just before it. */
  lemma ReachingIsOpen(a: seq<Operation>, b: seq<Operation>, l: Link, n: Operation, m: Membership)
      returns (o: Operation)
    requires Adds(a, b, l, n) && IsInterval(Elements(a), m) && Reaches(m, l, n.at)
    ensures OpenBefore(Elements(a), l, o, n) || ActsAt(Elements(a), l, n.at, o)
  {
    var A := Elements(a);
    o :| StartsRun(A, l, o) && o.Start() == m.Start() && EndsRun(A, l, o, m.validTo);
    if o.at < n.at {
      forall c | ClosesLink(A, l, c) && Before(o, c) ensures !Before(c, n) {
        if m.validTo.Some? {
          var e :| ClosesLink(A, l, e) && e.at == m.validTo.value && Before(o, e) && !ClosedBetween(A, l, o, e);
          assert !Before(c, e);
        }
      }
    }
  }

  // --- the exact condition -----------------------------------------------------------------

  lemma RedundantKeeps(a: seq<Operation>, b: seq<Operation>, l: Link, n: Operation, m: Membership)
    requires Adds(a, b, l, n) && Redundant(Elements(a), l, n.at) && m.Link() == l
    ensures IsInterval(Elements(a), m) <==> IsInterval(Elements(b), m)
  {
    var A := Elements(a);
    if o :| OpenBefore(A, l, o, n) {
      var h, r := HeadBefore(a, b, l, n, o);
      OpenBeforeKeeps(a, b, l, n, h, m);
    } else {
      var x := SomeActsAt(a, b, l, n);
      var k :| 0 <= k < |a| && a[k] == x;
      var x0 := FirstAt(a, l, n.at, k);
      ActsAtKeeps(a, b, l, n, x0, m);
    }
  }

  lemma SomeActsAt(a: seq<Operation>, b: seq<Operation>, l: Link, n: Operation) returns (x: Operation)
    requires Adds(a, b, l, n) && Redundant(Elements(a), l, n.at)
    requires forall o :: !OpenBefore(Elements(a), l, o, n)
    ensures ActsAt(Elements(a), l, n.at, x)
  {
    if y :| ActsAt(Elements(a), l, n.at, y) {
      x := y;
    } else {
      var m :| IsInterval(Elements(a), m) && Reaches(m, l, n.at);
      x := ReachingIsOpen(a, b, l, n, m);
    }
  }

  lemma OpenIsRedundant(a: seq<Operation>, b: seq<Operation>, l: Link, n: Operation, o: Operation)
    requires Adds(a, b, l, n) && OpenBefore(Elements(a), l, o, n)
    ensures Redundant(Elements(a), l, n.at)
  {
    var h, r := HeadBefore(a, b, l, n, o);
    assert ActsAt(Elements(a), l, n.at, h) || Reaches(r, l, n.at);
  }

  /** Not redundant, the new relationship adds an interval that begins with it. */
  lemma OtherwiseChanges(a: seq<Operation>, b: seq<Operation>, l: Link, n: Operation) returns (m: Membership)
    requires Adds(a, b, l, n) && !Redundant(Elements(a), l, n.at)
    ensures m.Link() == l && m.Start() == n.Start() && IsInterval(Elements(b), m) && !IsInterval(Elements(a), m)
    ensures m.validTo.Some? ==> exists c :: ClosesLink(Elements(a), l, c) && n.at <= c.at
  {
    forall o ensures !OpenBefore(Elements(a), l, o, n) {
      if OpenBefore(Elements(a), l, o, n) { OpenIsRedundant(a, b, l, n, o); }
    }
    m := OwnRun(a, b, l, n);
  }

  /** An opening no closing follows leaves an open row. */
  lemma LastOpeningIsOpen(a: seq<Operation>, l: Link, x: Operation)
    requires Ready(a) && OpensLink(Elements(a), l, x)
    requires forall c :: ClosesLink(Elements(a), l, c) ==> !Before(x, c)
    ensures HasOpenRow(Elements(a), l)
  {
    var i :| 0 <= i < |a| && a[i] == x;
    forall c | i <= c < |a| && a[c].Link() == l ensures a[c].Opens() {
      IndexOrder(a, i, c);
      assert !a[c].Opens() ==> ClosesLink(Elements(a), l, a[c]);
    }
    assert RunIndex(a, |a|, l).Some? by { RunIndexMeaning(a, |a|, l); }
    var h := a[RunIndex(a, |a|, l).value];
    StartKeepsLink(h, None);
    FoldMeaning(a, h.Start().Until(None));
    assert OpenRow(Elements(a), l, h.Start().Until(None));
  }

  /** Closed before every later instant and not open: the new relationship is the last word. */
  lemma LastWord(a: seq<Operation>, b: seq<Operation>, l: Link, n: Operation, m: Membership)
    requires Adds(a, b, l, n) && !HasOpenRow(Elements(a), l) && m.Link() == l
    requires forall c :: ClosesLink(Elements(a), l, c) ==> c.at < n.at
    ensures IsInterval(Elements(b), m) <==> IsInterval(Elements(a), m) || m == n.Start().Until(None)
  {
    var A, B := Elements(a), Elements(b);
    forall o | OpensLink(A, l, o) ensures o.at < n.at && !OpenBefore(A, l, o, n) {
      OpeningIsClosed(a, l, n, o);
    }
    forall x ensures !ActsAt(A, l, n.at, x) {
      assert x in A && x.Link() == l ==> OpensLink(A, l, x) || ClosesLink(A, l, x);
    }
    ClosingsAgree(a, b, l, n, n, n);
    if IsInterval(B, m) {
      var x :| StartsRun(B, l, x) && x.Start() == m.Start() && EndsRun(B, l, x, m.validTo);
      if x != n { OldRunStays(a, b, l, n, x, m.validTo); }
    }
    if IsInterval(A, m) {
      var x :| StartsRun(A, l, x) && x.Start() == m.Start() && EndsRun(A, l, x, m.validTo);
      NewRunKeeps(a, b, l, n, x, m.validTo);
    }
    var own := OwnRun(a, b, l, n);
    assert own == n.Start().Until(None);
  }

  lemma OpeningIsClosed(a: seq<Operation>, l: Link, n: Operation, o: Operation)
    requires Ready(a) && !HasOpenRow(Elements(a), l) && OpensLink(Elements(a), l, o)
    requires forall c :: ClosesLink(Elements(a), l, c) ==> c.at < n.at
    ensures o.at < n.at && !OpenBefore(Elements(a), l, o, n)
  {
    if forall c :: ClosesLink(Elements(a), l, c) ==> !Before(o, c) { LastOpeningIsOpen(a, l, o); }
  }

  /** With a closing at or after it and no open row, the new relationship never ends up open. */
  lemma NotLastWord(a: seq<Operation>, b: seq<Operation>, l: Link, n: Operation, c: Operation)
    requires Adds(a, b, l, n) && !HasOpenRow(Elements(a), l)
    requires ClosesLink(Elements(a), l, c) && n.at <= c.at
    ensures !IsInterval(Elements(b), n.Start().Until(None))
  {
    var m := n.Start().Until(None);
    StartKeepsLink(n, None);
    ClosingsAgree(a, b, l, n, n, n);
    forall o | StartsRun(Elements(b), l, o) && o.Start() == m.Start() ensures !EndsRun(Elements(b), l, o, None) {
      if forall e :: ClosesLink(Elements(a), l, e) ==> !Before(o, e) {
        assert !Before(o, c);
        assert o != n && OpensLink(Elements(a), l, o);
        LastOpeningIsOpen(a, l, o);
      }
    }
  }

  /** Exactly when inserting an open row for the link, unless one is open, yields the link's
      rebuilt intervals. */
  lemma InsertIsRebuild(a: seq<Operation>, b: seq<Operation>, l: Link, n: Operation)
    requires Adds(a, b, l, n)
    ensures Timely(Elements(a), l, n.at) <==>
            forall m: Membership :: m.Link() == l ==>
              (IsInterval(Elements(b), m) <==>
               IsInterval(Elements(a), m) || (!HasOpenRow(Elements(a), l) && m == n.Start().Until(None)))
  {
    var A, B := Elements(a), Elements(b);
    StartKeepsLink(n, None);
    if HasOpenRow(A, l) && Redundant(A, l, n.at) {
      forall m: Membership | m.Link() == l ensures IsInterval(A, m) <==> IsInterval(B, m) {
        RedundantKeeps(a, b, l, n, m);
      }
    } else if HasOpenRow(A, l) {
      var m := OtherwiseChanges(a, b, l, n);
    } else if c :| ClosesLink(A, l, c) && n.at <= c.at {
      NotLastWord(a, b, l, n, c);
    } else {
      forall m: Membership | m.Link() == l
        ensures IsInterval(B, m) <==> IsInterval(A, m) || m == n.Start().Until(None)
      {
        LastWord(a, b, l, n, m);
      }
    }
  }
}

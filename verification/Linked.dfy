/** `linked_entities`: the frontier search over the current projection, through an oracle that may
    return more than it was asked for, proved to return exactly the merge classes it promises. */
module Linked {
  import opened Wrappers
  import opened Identity

  /** Given some ids, at least the intervals they are an end of. */
  type Edges = set<EntityId> -> seq<Membership>

  function Ends(m: Membership): set<EntityId> { {m.subject, m.related} }

  /** What the oracle owes: of the current intervals touching the ids, exactly the projection's.
      Ended intervals, and intervals touching none of the ids, may be anything. */
  ghost predicate Faithful(edges: Edges, projection: set<Membership>) {
    forall ids, m: Membership :: m.validTo.None? && (m.subject in ids || m.related in ids) ==>
      (m in edges(ids) <==> m in projection)
  }

  // --- reachability ----------------------------------------------------------------------

  /** The interval is current, of the type (none for a merge), and between the two ids, either way round. */
  predicate Between(m: Membership, relationship: Option<string>, x: EntityId, y: EntityId) {
    m.validTo.None? && m.relationship == relationship &&
    ((m.subject == x && m.related == y) || (m.subject == y && m.related == x))
  }

  ghost predicate MergeEdge(p: set<Membership>, x: EntityId, y: EntityId) {
    exists m :: m in p && Between(m, None, x, y)
  }

  ghost predicate OneMergeAway(p: set<Membership>, ids: set<EntityId>, y: EntityId) {
    exists x: EntityId :: x in ids && MergeEdge(p, x, y)
  }

  ghost predicate RelationEdge(p: set<Membership>, x: EntityId, y: EntityId, r: string) {
    exists m :: m in p && Between(m, Some(r), x, y)
  }

  ghost predicate IsPath(p: set<Membership>, path: seq<EntityId>) {
    path != [] && forall i :: 0 <= i < |path| - 1 ==> MergeEdge(p, path[i], path[i + 1])
  }

  ghost predicate Connects(p: set<Membership>, path: seq<EntityId>, a: EntityId, b: EntityId) {
    IsPath(p, path) && path[0] == a && path[|path| - 1] == b
  }

  /** One subject: a path of current merges, in either direction, joins the ids. */
  ghost predicate Joined(p: set<Membership>, a: EntityId, b: EntityId) {
    exists path :: Connects(p, path, a, b)
  }

  lemma JoinedReflexive(p: set<Membership>, a: EntityId)
    ensures Joined(p, a, a)
  {
    assert Connects(p, [a], a, a);
  }

  function Reverse(s: seq<EntityId>): seq<EntityId> {
    seq(|s|, i requires 0 <= i < |s| => s[|s| - 1 - i])
  }

  lemma JoinedSymmetric(p: set<Membership>, a: EntityId, b: EntityId)
    requires Joined(p, a, b)
    ensures Joined(p, b, a)
  {
    var path :| Connects(p, path, a, b);
    var back := Reverse(path);
    forall i | 0 <= i < |back| - 1 ensures MergeEdge(p, back[i], back[i + 1]) {
      var j := |path| - 2 - i;
      assert MergeEdge(p, path[j], path[j + 1]);
      assert {path[j], path[j + 1]} == {back[i], back[i + 1]};
    }
    assert Connects(p, back, b, a);
  }

  lemma JoinedTransitive(p: set<Membership>, a: EntityId, b: EntityId, c: EntityId)
    requires Joined(p, a, b) && Joined(p, b, c)
    ensures Joined(p, a, c)
  {
    var ab :| Connects(p, ab, a, b);
    var bc :| Connects(p, bc, b, c);
    var path := ab + bc[1..];
    forall i | 0 <= i < |path| - 1 ensures MergeEdge(p, path[i], path[i + 1]) {
      if i < |ab| - 1 {
        assert MergeEdge(p, ab[i], ab[i + 1]);
      } else {
        var j := i - (|ab| - 1);
        assert MergeEdge(p, bc[j], bc[j + 1]);
      }
    }
    assert Connects(p, path, a, c);
  }

  lemma JoinedStep(p: set<Membership>, a: EntityId, b: EntityId, c: EntityId)
    requires Joined(p, a, b) && MergeEdge(p, b, c)
    ensures Joined(p, a, c)
  {
    assert Connects(p, [b, c], b, c);
    JoinedTransitive(p, a, b, c);
  }

  /** A set holding the seeds and closed under merges holds everything joined to them. */
  lemma {:induction false} ClosedHoldsPath(p: set<Membership>, closed: set<EntityId>, path: seq<EntityId>, n: nat)
    requires IsPath(p, path) && path[0] in closed && n < |path|
    requires forall x, y :: x in closed && MergeEdge(p, x, y) ==> y in closed
    ensures path[n] in closed
  {
    if n > 0 {
      ClosedHoldsPath(p, closed, path, n - 1);
      assert MergeEdge(p, path[n - 1], path[n]);
    }
  }

  ghost predicate JoinedToAny(p: set<Membership>, seeds: set<EntityId>, x: EntityId) {
    exists s :: s in seeds && Joined(p, s, x)
  }

  /** Every id the projection mentions: the search never leaves it. */
  ghost function Universe(p: set<Membership>, seeds: set<EntityId>): set<EntityId> {
    seeds + (set m, x | m in p && x in Ends(m) :: x)
  }

  /** A current interval of the given type (none for a merge) touching the ids. */
  predicate Follows(m: Membership, relationship: Option<string>, ids: set<EntityId>) {
    m.Current() && m.relationship == relationship && Ends(m) * ids != {}
  }

  // --- the search ---------------------------------------------------------------------------

  /** The ids one merge away from the frontier and not yet seen. */
  method Reach(frontier: set<EntityId>, seen: set<EntityId>, edges: Edges, ghost p: set<Membership>)
      returns (reached: set<EntityId>)
    requires Faithful(edges, p) && frontier <= seen
    ensures forall y :: y in reached <==> y !in seen && OneMergeAway(p, frontier, y)
  {
    reached := {};
    var intervals := edges(frontier);
    var i := 0;
    while i < |intervals|
      invariant 0 <= i <= |intervals|
      invariant forall y :: y in reached ==> y !in seen && OneMergeAway(p, frontier, y)
      invariant forall j :: 0 <= j < i && Follows(intervals[j], None, frontier) ==> Ends(intervals[j]) <= seen + reached
    {
      var interval := intervals[i];
      i := i + 1;
      if !interval.Current() || interval.relationship.Some? { continue; }
      var ends := Ends(interval);
      if ends * frontier != {} {
        assert interval in edges(frontier) && interval in p;
        forall y | y in ends - seen ensures OneMergeAway(p, frontier, y) {
          var x :| x in ends * frontier;
          assert ends == {x, y};
          assert MergeEdge(p, x, y);
        }
        reached := reached + (ends - seen);
      }
    }
    forall x: EntityId, y: EntityId | x in frontier && MergeEdge(p, x, y) && y !in seen ensures y in reached {
      var m :| m in p && Between(m, None, x, y);
      assert x in Ends(m) * frontier;
      var j :| 0 <= j < |intervals| && intervals[j] == m;
    }
  }

  /** No merge leads out of the ids already expanded. */
  ghost predicate Expanded(p: set<Membership>, seen: set<EntityId>, frontier: set<EntityId>) {
    forall x, y :: x in seen - frontier && MergeEdge(p, x, y) ==> y in seen
  }

  ghost predicate AllJoined(p: set<Membership>, seeds: set<EntityId>, seen: set<EntityId>) {
    forall x :: x in seen ==> JoinedToAny(p, seeds, x)
  }

  lemma ExpandStep(p: set<Membership>, seen: set<EntityId>, frontier: set<EntityId>, reached: set<EntityId>)
    requires frontier <= seen && Expanded(p, seen, frontier)
    requires forall y :: y in reached <==> y !in seen && OneMergeAway(p, frontier, y)
    ensures Expanded(p, seen + reached, reached)
  {
    forall x: EntityId, y: EntityId | x in (seen + reached) - reached && MergeEdge(p, x, y)
      ensures y in seen + reached
    {
      if x in frontier { assert OneMergeAway(p, frontier, y); }
    }
  }

  lemma ReachedIsJoined(p: set<Membership>, seeds: set<EntityId>, seen: set<EntityId>, frontier: set<EntityId>,
                        reached: set<EntityId>)
    requires frontier <= seen && AllJoined(p, seeds, seen)
    requires forall y :: y in reached <==> y !in seen && OneMergeAway(p, frontier, y)
    ensures AllJoined(p, seeds, seen + reached)
    ensures reached <= Universe(p, seeds) - seen
  {
    forall y | y in reached ensures JoinedToAny(p, seeds, y) && y in Universe(p, seeds) {
      var x: EntityId :| x in frontier && MergeEdge(p, x, y);
      var s :| s in seeds && Joined(p, s, x);
      JoinedStep(p, s, x, y);
      var m :| m in p && Between(m, None, x, y);
      assert y in Ends(m);
    }
  }

  lemma ClosedIsAll(p: set<Membership>, seeds: set<EntityId>, seen: set<EntityId>)
    requires seeds <= seen && Expanded(p, seen, {})
    ensures forall x :: JoinedToAny(p, seeds, x) ==> x in seen
  {
    forall x | JoinedToAny(p, seeds, x) ensures x in seen {
      var s :| s in seeds && Joined(p, s, x);
      var path :| Connects(p, path, s, x);
      ClosedHoldsPath(p, seen, path, |path| - 1);
    }
  }

  lemma SeedsAreJoined(p: set<Membership>, seeds: set<EntityId>)
    ensures AllJoined(p, seeds, seeds)
  {
    forall x | x in seeds ensures JoinedToAny(p, seeds, x) { JoinedReflexive(p, x); }
  }

  /** The seeds and every id merged with one, transitively: exactly the closure. The loop ends
      because `seen` grows inside the finite set of ids the projection mentions. */
  method Merged(seeds: set<EntityId>, edges: Edges, ghost p: set<Membership>) returns (seen: set<EntityId>)
    requires Faithful(edges, p)
    ensures forall x :: x in seen <==> JoinedToAny(p, seeds, x)
  {
    seen := seeds;
    var frontier := seeds;
    SeedsAreJoined(p, seeds);
    while frontier != {}
      invariant seeds <= seen && frontier <= seen <= Universe(p, seeds)
      invariant AllJoined(p, seeds, seen)
      invariant Expanded(p, seen, frontier)
      decreases Universe(p, seeds) - seen, frontier
    {
      var reached := Reach(frontier, seen, edges, p);
      ReachedIsJoined(p, seeds, seen, frontier, reached);
      ExpandStep(p, seen, frontier, reached);
      seen := seen + reached;
      frontier := reached;
    }
    ClosedIsAll(p, seeds, seen);
  }

  /** `x` belongs to a subject one current `r` relationship away from `a`, in either direction. */
  ghost predicate RelatedBy(p: set<Membership>, a: EntityId, x: EntityId, r: string) {
    exists u: EntityId, v: EntityId ::
      Joined(p, a, u) && RelationEdge(p, u, v, r) && !Joined(p, a, v) && Joined(p, v, x)
  }

  /** The answer `linked_entities` promises for `a`. */
  ghost predicate Answers(p: set<Membership>, a: EntityId, related: Option<string>,
                          linked: map<EntityId, Option<string>>) {
    && (forall x :: x in linked && linked[x].None? <==> Joined(p, a, x))
    && (forall x :: x in linked && linked[x].Some? <==> related.Some? && RelatedBy(p, a, x, related.value))
    && (forall x :: x in linked && linked[x].Some? ==> linked[x] == related)
  }

  /** The closure of the merges around an id and, when a type is asked for, the subjects it relates to. */
  method LinkedEntities(entity: EntityId, edges: Edges, related: Option<string>, ghost p: set<Membership>)
      returns (linked: map<EntityId, Option<string>>)
    requires Faithful(edges, p)
    ensures Answers(p, entity, related, linked)
  {
    var own := Merged({entity}, edges, p);
    assert forall x :: x in own <==> Joined(p, entity, x);
    linked := map x | x in own :: None;
    if related.None? { return; }
    var neighbors := Neighbors(own, edges, related.value, p);
    if neighbors != {} {
      var others := Merged(neighbors, edges, p);
      NeighborsAreOthers(p, entity, related.value, own, neighbors, others);
      AnsweredTogether(p, entity, related.value, own, others);
      linked := linked + map x | x in others - own :: related;
    } else {
      NeighborsAreOthers(p, entity, related.value, own, {}, {});
    }
  }

  lemma AnsweredTogether(p: set<Membership>, a: EntityId, r: string, own: set<EntityId>, others: set<EntityId>)
    requires (forall x :: x in own <==> Joined(p, a, x)) && (forall x :: x in others <==> RelatedBy(p, a, x, r))
    requires own !! others
    ensures Answers(p, a, Some(r), (map x | x in own :: None) + map x | x in others - own :: Some(r))
  {
  }

  /** The ids outside `own` one current relationship of the type away from it. */
  method Neighbors(own: set<EntityId>, edges: Edges, r: string, ghost p: set<Membership>)
      returns (neighbors: set<EntityId>)
    requires Faithful(edges, p)
    ensures forall v :: v in neighbors <==> v !in own && exists u: EntityId :: u in own && RelationEdge(p, u, v, r)
  {
    neighbors := {};
    var intervals := edges(own);
    var i := 0;
    while i < |intervals|
      invariant 0 <= i <= |intervals|
      invariant forall v :: v in neighbors ==> v !in own && exists u: EntityId :: u in own && RelationEdge(p, u, v, r)
      invariant forall j :: 0 <= j < i && Follows(intervals[j], Some(r), own) ==> Ends(intervals[j]) <= own + neighbors
    {
      var interval := intervals[i];
      i := i + 1;
      if !interval.Current() || interval.relationship != Some(r) { continue; }
      var ends := Ends(interval);
      if ends * own != {} {
        assert interval in edges(own) && interval in p;
        forall v | v in ends - own ensures exists u: EntityId :: u in own && RelationEdge(p, u, v, r) {
          var u :| u in ends * own;
          assert ends == {u, v};
          assert RelationEdge(p, u, v, r);
        }
        neighbors := neighbors + (ends - own);
      }
    }
    forall u: EntityId, v: EntityId | u in own && RelationEdge(p, u, v, r) && v !in own ensures v in neighbors {
      var m :| m in p && Between(m, Some(r), u, v);
      assert u in Ends(m) * own;
      var j :| 0 <= j < |intervals| && intervals[j] == m;
    }
  }

  /** What the neighbors join is what the subject is related to, and none of it is the subject's:
      the final subtraction removes nothing. */
  lemma NeighborsAreOthers(p: set<Membership>, a: EntityId, r: string, own: set<EntityId>, neighbors: set<EntityId>,
                           others: set<EntityId>)
    requires forall x :: x in own <==> Joined(p, a, x)
    requires forall v :: v in neighbors <==> v !in own && exists u: EntityId :: u in own && RelationEdge(p, u, v, r)
    requires forall x :: x in others <==> JoinedToAny(p, neighbors, x)
    ensures forall x :: x in others <==> RelatedBy(p, a, x, r)
    ensures own !! others
  {
    forall x ensures x in others <==> RelatedBy(p, a, x, r) {
      if x in others {
        var v :| v in neighbors && Joined(p, v, x);
        var u :| u in own && RelationEdge(p, u, v, r);
        assert Joined(p, a, u) && RelationEdge(p, u, v, r) && !Joined(p, a, v) && Joined(p, v, x);
      }
      if RelatedBy(p, a, x, r) {
        var u: EntityId, v: EntityId :| Joined(p, a, u) && RelationEdge(p, u, v, r) && !Joined(p, a, v) &&
          Joined(p, v, x);
        assert v in neighbors;
      }
    }
    forall x | x in others ensures x !in own { RelatedIsNotOwn(p, a, x, r); }
  }

  lemma RelatedIsNotOwn(p: set<Membership>, a: EntityId, x: EntityId, r: string)
    requires RelatedBy(p, a, x, r)
    ensures !Joined(p, a, x)
  {
    var u: EntityId, v: EntityId :| Joined(p, a, u) && RelationEdge(p, u, v, r) && !Joined(p, a, v) && Joined(p, v, x);
    JoinedSymmetric(p, v, x);
    if Joined(p, a, x) { JoinedTransitive(p, a, x, v); }
  }

  /** "Linked by type `r`" is symmetric between identity classes. */
  lemma RelatedSymmetric(p: set<Membership>, a: EntityId, x: EntityId, r: string)
    requires RelatedBy(p, a, x, r)
    ensures RelatedBy(p, x, a, r)
  {
    RelatedIsNotOwn(p, a, x, r);
    var u: EntityId, v: EntityId :| Joined(p, a, u) && RelationEdge(p, u, v, r) && !Joined(p, a, v) && Joined(p, v, x);
    JoinedSymmetric(p, v, x);
    JoinedSymmetric(p, a, u);
    assert RelationEdge(p, v, u, r) by {
      var m :| m in p && Between(m, Some(r), u, v);
      assert Between(m, Some(r), v, u);
    }
    assert !Joined(p, x, u) by {
      if Joined(p, x, u) {
        JoinedTransitive(p, x, u, a);
        JoinedSymmetric(p, x, a);
      }
    }
  }

  lemma RelatedFromMerged(p: set<Membership>, a: EntityId, b: EntityId, x: EntityId, r: string)
    requires Joined(p, a, b) && RelatedBy(p, a, x, r)
    ensures RelatedBy(p, b, x, r)
  {
    var u: EntityId, v: EntityId :| Joined(p, a, u) && RelationEdge(p, u, v, r) && !Joined(p, a, v) && Joined(p, v, x);
    JoinedSymmetric(p, a, b);
    JoinedTransitive(p, b, a, u);
    if Joined(p, b, v) { JoinedTransitive(p, a, b, v); }
  }

  /** The answer is the same map from any id merged with the subject. */
  lemma AnswerIsPerClass(p: set<Membership>, a: EntityId, b: EntityId, related: Option<string>,
                         fromA: map<EntityId, Option<string>>, fromB: map<EntityId, Option<string>>)
    requires Joined(p, a, b) && Answers(p, a, related, fromA) && Answers(p, b, related, fromB)
    ensures fromA == fromB
  {
    JoinedSymmetric(p, a, b);
    forall x ensures Joined(p, a, x) <==> Joined(p, b, x) {
      if Joined(p, a, x) { JoinedTransitive(p, b, a, x); }
      if Joined(p, b, x) { JoinedTransitive(p, a, b, x); }
    }
    if related.Some? {
      forall x ensures RelatedBy(p, a, x, related.value) <==> RelatedBy(p, b, x, related.value) {
        if RelatedBy(p, a, x, related.value) { RelatedFromMerged(p, a, b, x, related.value); }
        if RelatedBy(p, b, x, related.value) { RelatedFromMerged(p, b, a, x, related.value); }
      }
    }
    forall x ensures x in fromA <==> x in fromB { SameKey(p, a, b, related, fromA, fromB, x); }
  }

  lemma SameKey(p: set<Membership>, a: EntityId, b: EntityId, related: Option<string>,
                fromA: map<EntityId, Option<string>>, fromB: map<EntityId, Option<string>>, x: EntityId)
    requires Answers(p, a, related, fromA) && Answers(p, b, related, fromB)
    requires Joined(p, a, x) <==> Joined(p, b, x)
    requires related.Some? ==> (RelatedBy(p, a, x, related.value) <==> RelatedBy(p, b, x, related.value))
    ensures x in fromA <==> x in fromB
    ensures x in fromA ==> fromA[x] == fromB[x]
  {
    assert x in fromA ==> fromA[x].None? || fromA[x].Some?;
    assert x in fromB ==> fromB[x].None? || fromB[x].Some?;
  }
}

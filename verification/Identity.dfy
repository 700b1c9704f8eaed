/** The identity contract's data: resolved identities, journal events, the membership intervals
    they fold into, and the fold's operations with their order. An id is a UUID, modelled as the
    128-bit number it is: canonical UUID text orders exactly as those numbers do. */
module Identity {
  import opened Wrappers

  type EntityId = nat
  type Instant = int

  datatype IdentityMethod = Deterministic | Probabilistic | Unresolved

  /** A subject related to a decision's subject, under one relationship type. */
  datatype RelatedEntity = RelatedEntity(relationshipType: string, entityType: string, entityId: EntityId)

  /** A decision's subject, as its resolver established it at `resolvedAt`. */
  datatype ResolvedIdentity = ResolvedIdentity(
    entityId: EntityId, entityType: string, resolvedAt: Instant, how: IdentityMethod,
    related: seq<RelatedEntity>)
  {
    /** The model validator: no relationships without a resolved subject, none to the subject itself,
        and no (type, id) pair twice. */
    ghost predicate Valid() {
      && (related != [] ==> how != Unresolved)
      && (forall r :: r in related ==> r.entityId != entityId && r.relationshipType != "")
      && (forall i, j :: 0 <= i < j < |related| ==> PairOf(related[i]) != PairOf(related[j]))
    }
  }

  function PairOf(r: RelatedEntity): (string, EntityId) { (r.relationshipType, r.entityId) }

  datatype EventKind = Merge | Detach | Relate | Unrelate

  /** A journal entry: two ids merged or detached, or related or unrelated under a type. */
  datatype EntityEvent = EntityEvent(
    kind: EventKind, subject: EntityId, other: EntityId, relationship: Option<string>, effectiveAt: Instant)
  {
    /** The model validator: a type on relationships and only there, and two different ids. */
    ghost predicate Valid() {
      && ((kind.Relate? || kind.Unrelate?) <==> relationship.Some?)
      && relationship != Some("")
      && subject != other
    }
  }

  /** What an interval is about: a typed relationship, or an unordered pair of merged ids. */
  datatype Link = Typed(subject: EntityId, other: EntityId, relationship: Option<string>) | Merged(ids: set<EntityId>)

  function LinkOf(subject: EntityId, other: EntityId, relationship: Option<string>): Link {
    if relationship.Some? then Typed(subject, other, relationship) else Merged({subject, other})
  }

  /** How long a link held; `validTo` is absent while it still does. */
  datatype Membership = Membership(
    subject: EntityId, related: EntityId, relationship: Option<string>, validFrom: Instant, validTo: Option<Instant>)
  {
    /** The model validator: not empty, and between different ids. */
    predicate Valid() {
      && (validTo.Some? ==> validFrom < validTo.value)
      && subject != related
      && relationship != Some("")
    }

    predicate Current() { validTo.None? }

    function Link(): Link { LinkOf(subject, related, relationship) }

    function Start(): RunStart { RunStart(subject, related, relationship, validFrom) }

    /** Half-open: the instant it ends is not covered. */
    predicate Covers(t: Instant) { validFrom <= t && (validTo.Some? ==> t < validTo.value) }
  }

  /** Where an open interval began, in the orientation of the operation that opened it. */
  datatype RunStart = RunStart(subject: EntityId, other: EntityId, relationship: Option<string>, at: Instant) {
    function Until(end: Option<Instant>): Membership { Membership(subject, other, relationship, at, end) }
  }

  /** An operation of the fold, ordered by (at, rank, position). Asserted relationships have
      rank 0, journal events rank 1. */
  datatype Operation = Operation(
    at: Instant, rank: nat, position: nat, kind: EventKind, subject: EntityId, other: EntityId,
    relationship: Option<string>)
  {
    predicate Opens() { kind.Relate? || kind.Merge? }

    predicate IsTyped() { kind.Relate? || kind.Unrelate? }

    function Link(): Link {
      if IsTyped() then Typed(subject, other, relationship) else Merged({subject, other})
    }

    function Start(): RunStart { RunStart(subject, other, relationship, at) }

    ghost predicate Valid() {
      subject != other && (IsTyped() <==> relationship.Some?) && relationship != Some("")
    }
  }

  /** Strict order of the fold's keys. */
  predicate Before(a: Operation, b: Operation) {
    || a.at < b.at
    || (a.at == b.at && a.rank < b.rank)
    || (a.at == b.at && a.rank == b.rank && a.position < b.position)
  }

  predicate KeyLeq(a: Operation, b: Operation) { !Before(b, a) }

  function RelateOp(position: nat, identity: ResolvedIdentity, r: RelatedEntity): Operation {
    Operation(identity.resolvedAt, 0, position, Relate, identity.entityId, r.entityId, Some(r.relationshipType))
  }

  function RelateOps(position: nat, identity: ResolvedIdentity): seq<Operation> {
    seq(|identity.related|, i requires 0 <= i < |identity.related| => RelateOp(position, identity, identity.related[i]))
  }

  function AssertedOps(identities: seq<ResolvedIdentity>): seq<Operation> {
    if identities == [] then []
    else
      var last := |identities| - 1;
      AssertedOps(identities[..last]) + RelateOps(last, identities[last])
  }

  function JournalOp(position: nat, e: EntityEvent): Operation {
    Operation(e.effectiveAt, 1, position, e.kind, e.subject, e.other, e.relationship)
  }

  function JournalOps(events: seq<EntityEvent>): seq<Operation> {
    seq(|events|, p requires 0 <= p < |events| => JournalOp(p, events[p]))
  }

  /** Every operation of the fold: asserted relationships, then journal events. */
  function Operations(events: seq<EntityEvent>, identities: seq<ResolvedIdentity>): seq<Operation> {
    AssertedOps(identities) + JournalOps(events)
  }

  ghost function OperationSet(events: seq<EntityEvent>, identities: seq<ResolvedIdentity>): set<Operation> {
    set o | o in Operations(events, identities)
  }

  ghost predicate AllValid(events: seq<EntityEvent>, identities: seq<ResolvedIdentity>) {
    && (forall e :: e in events ==> e.Valid())
    && (forall i :: i in identities ==> i.Valid())
  }

  // --- the meaning of the projection, free of any order of processing ---------------------

  ghost predicate OpensLink(ops: set<Operation>, l: Link, o: Operation) {
    o in ops && o.Link() == l && o.Opens()
  }

  ghost predicate ClosesLink(ops: set<Operation>, l: Link, c: Operation) {
    c in ops && c.Link() == l && !c.Opens()
  }

  /** The link is closed by some operation strictly between `a` and `b`. */
  ghost predicate ClosedBetween(ops: set<Operation>, l: Link, a: Operation, b: Operation) {
    exists c :: ClosesLink(ops, l, c) && Before(a, c) && Before(c, b)
  }

  /** Nothing before `o` opened the run of openings `o` belongs to at another start. */
  ghost predicate StartsRun(ops: set<Operation>, l: Link, o: Operation) {
    && OpensLink(ops, l, o)
    && forall o' :: OpensLink(ops, l, o') && Before(o', o) ==> o'.Start() == o.Start() || ClosedBetween(ops, l, o', o)
  }

  /** The first closing of the link after `o` is at `end`, or there is none. */
  ghost predicate EndsRun(ops: set<Operation>, l: Link, o: Operation, end: Option<Instant>) {
    if end.None? then forall c :: ClosesLink(ops, l, c) ==> !Before(o, c)
    else exists c :: ClosesLink(ops, l, c) && c.at == end.value && Before(o, c) && !ClosedBetween(ops, l, o, c)
  }

  /** `m` runs from the first opening of its link after a closing to the next closing. */
  ghost predicate IsInterval(ops: set<Operation>, m: Membership) {
    && (m.validTo.Some? ==> m.validFrom < m.validTo.value)
    && exists o :: StartsRun(ops, m.Link(), o) && o.Start() == m.Start() && EndsRun(ops, m.Link(), o, m.validTo)
  }

  /** The last operation on `l` at or before `t` relates or merges. */
  ghost predicate HoldsAt(ops: set<Operation>, l: Link, t: Instant) {
    exists o :: OpensLink(ops, l, o) && o.at <= t &&
                forall c :: c in ops && c.Link() == l && c.at <= t ==> c == o || Before(c, o)
  }
}

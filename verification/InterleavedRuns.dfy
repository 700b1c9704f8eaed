/** Runs of processes that store bundles and open their rows in separate statements, with rebuilds and
    journal appends between. */
module InterleavedRuns {
  import opened Wrappers
  import opened Identity
  import opened MembershipTables
  import opened MembershipBatches
  import opened Interleaving

  type Process = nat

  /** The tables, and the rows each process has still to open for the bundle it stored. */
  datatype Shared = Shared(t: Tables, pending: map<Process, seq<Membership>>)

  datatype WriteStep = Store(p: Process, b: BundleRow) | OpenNext(p: Process) | Refold(events: seq<EntityEvent>)

  function PendingOf(s: Shared, p: Process): seq<Membership> { if p in s.pending then s.pending[p] else [] }

  /** The bundle a step stores, if its id is new and its process is free. */
  function StoredBy(s: Shared, step: WriteStep): seq<BundleRow> {
    if step.Store? && PendingOf(s, step.p) == [] && !HasBundle(s.t.bundles, step.b.decisionId) then [step.b] else []
  }

  function OpenedBy(s: Shared, step: WriteStep): seq<Membership> {
    if step.OpenNext? && PendingOf(s, step.p) != [] then [PendingOf(s, step.p)[0]] else []
  }

  /** One step of one process; an append refolds the journal and the stored bundles, and so does a
      rebuild, which appends nothing. */
  ghost predicate StepTo(s: Shared, step: WriteStep, s': Shared) {
    match step
    case Store(p, b) =>
      if StoredBy(s, step) == [] then s' == s
      else s' == Shared(Plus(s.t, [b]), s.pending[p := RelationshipRows(b)])
    case OpenNext(p) =>
      if OpenedBy(s, step) == [] then s' == s
      else s' == Shared(s.t.(membership := InsertOpen(s.t.membership, s.pending[p][0])),
                        s.pending[p := s.pending[p][1..]])
    case Refold(es) =>
      && s'.pending == s.pending && s'.t.bundles == s.t.bundles && s'.t.events == s.t.events + es && InSync(s'.t)
  }

  ghost predicate ValidWrite(step: WriteStep) {
    && (step.Store? && step.b.identity.Some? ==> step.b.identity.value.Valid())
    && (step.Refold? ==> forall e :: e in step.events ==> e.Valid())
  }

  ghost predicate IsRun(states: seq<Shared>, steps: seq<WriteStep>) {
    && |states| == |steps| + 1
    && (forall i :: 0 <= i < |steps| ==> ValidWrite(steps[i]) && StepTo(states[i], steps[i], states[i + 1]))
  }

  function Stored(states: seq<Shared>, steps: seq<WriteStep>): seq<BundleRow>
    requires |states| == |steps| + 1
  {
    var n := |steps|;
    if n == 0 then [] else Stored(states[..n], steps[..n - 1]) + StoredBy(states[n - 1], steps[n - 1])
  }

  function Opened(states: seq<Shared>, steps: seq<WriteStep>): seq<Membership>
    requires |states| == |steps| + 1
  {
    var n := |steps|;
    if n == 0 then [] else Opened(states[..n], steps[..n - 1]) + OpenedBy(states[n - 1], steps[n - 1])
  }

  /** The steps a process takes to write a bundle: it stores it and opens its rows one by one. */
  function WriteSteps(p: Process, b: BundleRow): seq<WriteStep> {
    [Store(p, b)] + seq(|RelationshipRows(b)|, _ => OpenNext(p))
  }

  /** Undisturbed, they leave the tables one write leaves, and nothing to open. */
  lemma AloneIsWrite(states: seq<Shared>, p: Process, b: BundleRow)
    requires IsRun(states, WriteSteps(p, b)) && PendingOf(states[0], p) == []
    ensures var last := states[|WriteSteps(p, b)|];
            last.t == AfterWrite(states[0].t, b) && PendingOf(last, p) == []
  {
    var steps, rows := WriteSteps(p, b), RelationshipRows(b);
    assert steps[0] == Store(p, b) && StepTo(states[0], steps[0], states[1]);
    forall i | 1 <= i < |steps| ensures StepTo(states[i], OpenNext(p), states[i + 1]) {
      assert StepTo(states[i], steps[i], states[i + 1]);
    }
    if HasBundle(states[0].t.bundles, b.decisionId) {
      NothingOpens(states[1..], p, |rows|);
    } else {
      OpensEach(states[1..], p, rows, |rows|);
      assert rows[..|rows|] == rows;
    }
  }

  lemma {:induction false} NothingOpens(states: seq<Shared>, p: Process, k: nat)
    requires k < |states| && PendingOf(states[0], p) == []
    requires forall i :: 0 <= i < k ==> StepTo(states[i], OpenNext(p), states[i + 1])
    ensures states[k] == states[0]
  {
    if k > 0 {
      NothingOpens(states, p, k - 1);
      assert StepTo(states[k - 1], OpenNext(p), states[k]);
    }
  }

  lemma {:induction false} OpensEach(states: seq<Shared>, p: Process, rows: seq<Membership>, k: nat)
    requires k < |states| && k <= |rows| && PendingOf(states[0], p) == rows
    requires forall i :: 0 <= i < k ==> StepTo(states[i], OpenNext(p), states[i + 1])
    ensures states[k].t == states[0].t.(membership := InsertAll(states[0].t.membership, rows[..k]))
    ensures PendingOf(states[k], p) == rows[k..]
  {
    if k > 0 {
      OpensEach(states, p, rows, k - 1);
      assert StepTo(states[k - 1], OpenNext(p), states[k]);
      assert rows[..k][..k - 1] == rows[..k - 1] && rows[k - 1..][1..] == rows[k..];
    }
  }

  /** A row still to be opened is asserted by a stored bundle. */
  ghost predicate PendingAsserted(s: Shared) {
    forall p, row :: p in s.pending && row in s.pending[p] ==> row in AllRows(s.t.bundles)
  }

  lemma AllRowsAppend(bundles: seq<BundleRow>, b: BundleRow)
    ensures AllRows(bundles + [b]) == AllRows(bundles) + RelationshipRows(b)
  {
    assert (bundles + [b])[..|bundles|] == bundles;
  }

  lemma StepKeepsAsserted(s: Shared, step: WriteStep, s': Shared)
    requires PendingAsserted(s) && ValidTables(s.t) && ValidWrite(step) && StepTo(s, step, s')
    ensures PendingAsserted(s') && ValidTables(s'.t)
  {
    if step.Store? { AllRowsAppend(s.t.bundles, step.b); }
    if step.OpenNext? && OpenedBy(s, step) != [] {
      assert forall row :: row in s.pending[step.p][1..] ==> row in s.pending[step.p];
    }
  }

  lemma {:induction false} RunKeepsAsserted(states: seq<Shared>, steps: seq<WriteStep>, k: nat)
    requires IsRun(states, steps) && PendingAsserted(states[0]) && ValidTables(states[0].t) && k <= |steps|
    ensures PendingAsserted(states[k]) && ValidTables(states[k].t)
  {
    if k > 0 {
      RunKeepsAsserted(states, steps, k - 1);
      StepKeepsAsserted(states[k - 1], steps[k - 1], states[k]);
    }
  }

  /** Every asserted row of the stretch is opened or pending, and every opened or pending row asserted. */
  ghost predicate Accounted(t: Tables, more: seq<BundleRow>, rows: seq<Membership>, s: Shared) {
    && s.t == Ended(t, more, rows)
    && (forall row :: row in AllRows(more) ==> row in rows || exists p :: p in s.pending && row in s.pending[p])
    && (forall row :: row in rows ==> row in AllRows(t.bundles) || row in AllRows(more))
    && (forall p, row :: p in s.pending && row in s.pending[p] ==> row in AllRows(t.bundles) || row in AllRows(more))
  }

  lemma {:induction false} RunIsAccounted(states: seq<Shared>, steps: seq<WriteStep>)
    requires IsRun(states, steps) && (forall step :: step in steps ==> !step.Refold?)
    requires PendingAsserted(states[0])
    ensures Accounted(states[0].t, Stored(states, steps), Opened(states, steps), states[|steps|])
  {
    var n := |steps|;
    if n == 0 {
      PlusNone(states[0].t);
    } else {
      RunIsAccounted(states[..n], steps[..n - 1]);
      var more, rows := Stored(states[..n], steps[..n - 1]), Opened(states[..n], steps[..n - 1]);
      assert steps[n - 1] in steps;
      StepIsAccounted(states[0].t, more, rows, states[n - 1], steps[n - 1], states[n]);
    }
  }

  lemma StepIsAccounted(t: Tables, more: seq<BundleRow>, rows: seq<Membership>, s: Shared, step: WriteStep, s': Shared)
    requires Accounted(t, more, rows, s) && !step.Refold? && StepTo(s, step, s')
    ensures Accounted(t, more + StoredBy(s, step), rows + OpenedBy(s, step), s')
  {
    if step.Store? {
      StoreIsAccounted(t, more, rows, s, step, s');
    } else {
      OpenIsAccounted(t, more, rows, s, step, s');
    }
  }

  lemma StoreIsAccounted(t: Tables, more: seq<BundleRow>, rows: seq<Membership>, s: Shared, step: WriteStep, s': Shared)
    requires Accounted(t, more, rows, s) && step.Store? && StepTo(s, step, s')
    ensures Accounted(t, more + StoredBy(s, step), rows + [], s')
  {
    assert rows + [] == rows;
    if StoredBy(s, step) == [] {
      assert more + [] == more;
    } else {
      AllRowsAppend(more, step.b);
      assert t.bundles + (more + [step.b]) == t.bundles + more + [step.b];
      forall row | row in AllRows(more + [step.b]) && row !in rows
        ensures exists p :: p in s'.pending && row in s'.pending[p]
      {
        StoredIsPending(more, rows, s, step, s', row);
      }
    }
  }

  lemma StoredIsPending(more: seq<BundleRow>, rows: seq<Membership>, s: Shared, step: WriteStep, s': Shared,
                        row: Membership)
    requires step.Store? && StoredBy(s, step) != [] && StepTo(s, step, s')
    requires row in RelationshipRows(step.b) || (row in AllRows(more) && row !in rows)
    requires forall x :: x in AllRows(more) ==> x in rows || exists p :: p in s.pending && x in s.pending[p]
    ensures exists p :: p in s'.pending && row in s'.pending[p]
  {
    if row in RelationshipRows(step.b) {
      assert step.p in s'.pending && row in s'.pending[step.p];
    } else {
      var p :| p in s.pending && row in s.pending[p];
      assert p in s'.pending && row in s'.pending[p];
    }
  }

  lemma OpenIsAccounted(t: Tables, more: seq<BundleRow>, rows: seq<Membership>, s: Shared, step: WriteStep, s': Shared)
    requires Accounted(t, more, rows, s) && step.OpenNext? && StepTo(s, step, s')
    ensures Accounted(t, more + [], rows + OpenedBy(s, step), s')
  {
    assert more + [] == more;
    if OpenedBy(s, step) == [] {
      assert rows + [] == rows;
    } else {
      var queue := s.pending[step.p];
      var grown := rows + [queue[0]];
      assert queue == [queue[0]] + queue[1..];
      assert grown[..|grown| - 1] == rows;
      forall row | row in AllRows(more) && row !in grown ensures exists p :: p in s'.pending && row in s'.pending[p] {
        var p :| p in s.pending && row in s.pending[p];
        assert p in s'.pending && row in s'.pending[p];
      }
    }
  }

  /** A run of interleaved writes, rebuilds and appends that ends with nothing left to open is in sync at
      the end exactly when what was stored and opened since a rebuild is serial on every link. */
  lemma RunEndsInSync(states: seq<Shared>, steps: seq<WriteStep>, k: nat)
    requires IsRun(states, steps) && PendingAsserted(states[0]) && ValidTables(states[0].t)
    requires k <= |steps| && InSync(states[k].t) && (forall step :: step in steps[k..] ==> !step.Refold?)
    requires forall p :: p in states[|steps|].pending ==> states[|steps|].pending[p] == []
    ensures InSync(states[|steps|].t) <==>
            AllSerial(states[k].t, Stored(states[k..], steps[k..]), Opened(states[k..], steps[k..]))
  {
    RunKeepsAsserted(states, steps, k);
    RunKeepsAsserted(states, steps, |steps|);
    RunIsAccounted(states[k..], steps[k..]);
    InterleavedEndsInSync(states[k].t, Stored(states[k..], steps[k..]), Opened(states[k..], steps[k..]));
  }

  // --- the condition can fail ----------------------------------------------------------------------------

  function RelatedAt(id: DecisionId, at: Instant): BundleRow {
    BundleRow(id, at, Some(ResolvedIdentity(1, "person", at, Deterministic, [RelatedEntity("r", "person", 2)])))
  }

  lemma PairRowsAre(a: BundleRow, b: BundleRow)
    ensures AllRows([a, b]) == RelationshipRows(a) + RelationshipRows(b)
  {
    AllRowsAppend([], a);
    AllRowsAppend([a], b);
    assert [] + [a] == [a] && [a] + [b] == [a, b];
  }

  const EARLY := RelatedAt(7, 1)
  const LATE := RelatedAt(8, 2)
  const EARLY_ROW := Membership(1, 2, Some("r"), 1, None)
  const LATE_ROW := Membership(1, 2, Some("r"), 2, None)

  /** Both bundles are stored, and the second process opens its row before the first. */
  const OVERTAKING := [Store(1, EARLY), Store(2, LATE), OpenNext(2), OpenNext(1)]

  const OVERTAKEN :=
    [ Shared(EMPTY_TABLES, map[]),
      Shared(Tables([EARLY], [], {}), map[1 := [EARLY_ROW]]),
      Shared(Tables([EARLY, LATE], [], {}), map[1 := [EARLY_ROW], 2 := [LATE_ROW]]),
      Shared(Tables([EARLY, LATE], [], {LATE_ROW}), map[1 := [EARLY_ROW], 2 := []]),
      Shared(Tables([EARLY, LATE], [], {LATE_ROW}), map[1 := [], 2 := []]) ]

  /** The condition can fail: these are the states of a run from empty tables that leaves nothing to open
      and ends out of sync, the stored interval beginning at 2 and the folded one at 1. */
  lemma OvertakenWriteFails()
    ensures IsRun(OVERTAKEN, OVERTAKING) && InSync(OVERTAKEN[0].t)
    ensures forall p :: p in OVERTAKEN[4].pending ==> OVERTAKEN[4].pending[p] == []
    ensures !InSync(OVERTAKEN[4].t)
  {
    OvertakingStores();
    OvertakingOpens();
    OvertakenEnds();
    forall i | 0 <= i < 4 ensures ValidWrite(OVERTAKING[i]) && StepTo(OVERTAKEN[i], OVERTAKING[i], OVERTAKEN[i + 1]) {
      assert i == 0 || i == 1 || i == 2 || i == 3;
    }
  }

  lemma OvertakingStores()
    ensures ValidWrite(OVERTAKING[0]) && StepTo(OVERTAKEN[0], OVERTAKING[0], OVERTAKEN[1])
    ensures ValidWrite(OVERTAKING[1]) && StepTo(OVERTAKEN[1], OVERTAKING[1], OVERTAKEN[2])
  {
    assert [] + [EARLY] == [EARLY] && [EARLY] + [LATE] == [EARLY, LATE];
    assert RelationshipRows(EARLY) == [EARLY_ROW] && RelationshipRows(LATE) == [LATE_ROW];
  }

  lemma OvertakingOpens()
    ensures StepTo(OVERTAKEN[2], OVERTAKING[2], OVERTAKEN[3])
    ensures StepTo(OVERTAKEN[3], OVERTAKING[3], OVERTAKEN[4])
  {
    assert [EARLY_ROW][1..] == [] && [LATE_ROW][1..] == [];
    assert EARLY_ROW.Link() == LATE_ROW.Link() && LATE_ROW in {LATE_ROW};
    assert OpenFor({LATE_ROW}, EARLY_ROW.Link());
  }

  lemma OvertakenEnds()
    ensures !InSync(OVERTAKEN[4].t) && InSync(EMPTY_TABLES)
  {
    var more, rows := [EARLY, LATE], [LATE_ROW, EARLY_ROW];
    OvertakenStretch();
    OvertakenIsNotSerial();
    InterleavedEndsInSync(EMPTY_TABLES, more, rows);
    assert rows[..1] == [LATE_ROW] && [LATE_ROW][..0] == [];
    assert InsertAll({}, [LATE_ROW]) == {LATE_ROW};
    assert LATE_ROW in {LATE_ROW} && OpenFor({LATE_ROW}, EARLY_ROW.Link());
    assert InsertAll({}, rows) == {LATE_ROW} && [] + more == more;
    assert Ended(EMPTY_TABLES, more, rows) == Tables(more, [], {LATE_ROW});
  }

  lemma OvertakenStretch()
    ensures AllRows([EARLY, LATE]) == [EARLY_ROW, LATE_ROW]
    ensures Stretch(EMPTY_TABLES, [EARLY, LATE], [LATE_ROW, EARLY_ROW]) && Sources(EMPTY_TABLES) == {}
  {
    PairRowsAre(EARLY, LATE);
    assert RelationshipRows(EARLY) == [EARLY_ROW] && RelationshipRows(LATE) == [LATE_ROW];
  }

  lemma OvertakenIsNotSerial()
    ensures !AllSerial(EMPTY_TABLES, [EARLY, LATE], [LATE_ROW, EARLY_ROW])
  {
    var l := Typed(1, 2, Some("r"));
    OvertakenStretch();
    assert EARLY_ROW in [EARLY_ROW, LATE_ROW] && EARLY_ROW.Link() == l == LATE_ROW.Link();
    assert FirstOn([LATE_ROW, EARLY_ROW], l) == Some(LATE_ROW);
    assert !Serial({}, l, [EARLY_ROW, LATE_ROW], [LATE_ROW, EARLY_ROW]);
  }
}

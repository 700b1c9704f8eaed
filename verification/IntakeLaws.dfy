/** Laws of a whole decision: mandating gates, the short-circuit, failed gates, and citations. */
module IntakeLaws {
  import opened Wrappers
  import opened Sorting
  import opened Combinator
  import opened Predicates
  import opened Submissions
  import opened Enforcement
  import opened EnforcementLaws
  import opened Intake

  // --- the records of the two phases ----------------------------------------------------------

  function RecordOf(d: Deployment, b: GateBinding, answers: string -> Invocation,
                    groups: seq<set<string>>): GateRecord {
    RunGate(b, Invoke(d, answers, b.gateId), groups)
  }

  lemma RanElements(d: Deployment, bindings: seq<GateBinding>, answers: string -> Invocation,
                    groups: seq<set<string>>, x: GateRecord)
    ensures x in RunGates(d, bindings, answers, groups) <==>
            exists b :: b in bindings && x == RecordOf(d, b, answers, groups)
  {
    var ran := RunGates(d, bindings, answers, groups);
    forall i | 0 <= i < |bindings| ensures ran[i] == RecordOf(d, bindings[i], answers, groups) { }
    if b :| b in bindings && x == RecordOf(d, b, answers, groups) {
      var i :| 0 <= i < |bindings| && bindings[i] == b;
      assert ran[i] == x;
    }
  }

  /** Whether the advisory phase runs. */
  ghost predicate AdvisoryRuns(d: Deployment, mode: Mode, gateSet: seq<GateBinding>, answers: string -> Invocation,
                               groups: seq<set<string>>) {
    mode == Gate && !Blocks(RunGates(d, Bound(gateSet, true), answers, groups))
  }

  lemma PhaseRecords(d: Deployment, mode: Mode, gateSet: seq<GateBinding>, answers: string -> Invocation,
                     groups: seq<set<string>>, x: GateRecord)
    ensures x in Select(GateRecords(d, mode, gateSet, answers, groups), true) <==>
            exists b :: b in Bound(gateSet, true) && x == RecordOf(d, b, answers, groups)
    ensures x in Select(GateRecords(d, mode, gateSet, answers, groups), false) <==>
            AdvisoryRuns(d, mode, gateSet, answers, groups) &&
            exists b :: b in Bound(gateSet, false) && x == RecordOf(d, b, answers, groups)
  {
    RanElements(d, Bound(gateSet, true), answers, groups, x);
    RanElements(d, Bound(gateSet, false), answers, groups, x);
    var skipped := SkipGates(Bound(gateSet, false));
    assert forall y :: y in skipped ==> !Enforced(y);
  }

  lemma PhaseBlocks(d: Deployment, mode: Mode, gateSet: seq<GateBinding>, answers: string -> Invocation,
                    groups: seq<set<string>>)
    ensures Blocks(Select(GateRecords(d, mode, gateSet, answers, groups), true)) <==>
            Blocks(RunGates(d, Bound(gateSet, true), answers, groups))
  {
    var first := RunGates(d, Bound(gateSet, true), answers, groups);
    forall x ensures x in Select(GateRecords(d, mode, gateSet, answers, groups), true) <==> x in first {
      PhaseRecords(d, mode, gateSet, answers, groups, x);
      RanElements(d, Bound(gateSet, true), answers, groups, x);
    }
  }

  // --- the short-circuit ----------------------------------------------------------------------------

  /** The records had the advisory gates run regardless. */
  function Unskipped(d: Deployment, gateSet: seq<GateBinding>, answers: string -> Invocation,
                     groups: seq<set<string>>): seq<GateRecord> {
    RunGates(d, Bound(gateSet, true), answers, groups) + RunGates(d, Bound(gateSet, false), answers, groups)
  }

  /** Once a mandatory gate blocks, whatever the advisory records are, the decision is BLOCK with no
      decision-level rule. */
  lemma BlockAbsorbs(s: Submission, records: seq<GateRecord>, r: Registration)
    requires s.mode == Gate && Blocks(Select(records, true))
    ensures Combined(s, records, r, None, []) == Ok(Decision(BLOCK, None))
  {
    var terms := DecisionTerms(s.mode, s.context, records, r.novelFeature, None, []);
    BlockTerms(s.context, records, r.novelFeature, terms);
    CombineBlocks(s.proposed, terms);
    assert Combined(s, records, r, None, []) == Combine(s.proposed, terms);
  }

  lemma CombineBlocks(proposed: Option<Action>, terms: Terms)
    requires BLOCK in terms.actions
    ensures Combine(proposed, terms) == Ok(Decision(BLOCK, terms.rule))
  {
    assert BLOCK in Candidates(proposed, terms.actions);
    assert Severity(MostRestrictive(proposed, terms.actions).value) >= 3;
  }

  lemma BlockTerms(context: Subject, records: seq<GateRecord>, feature: Option<string>, terms: Terms)
    requires Blocks(Select(records, true)) && terms == DecisionTerms(Gate, context, records, feature, None, [])
    ensures terms.rule == None && BLOCK in terms.actions
  {
    assert BLOCK in ActionsOf(Select(records, true));
  }

  /** Running the advisory gates the short-circuit skipped, whatever they would answer, leaves the
      action and the decision-level rule as they are. */
  lemma ShortCircuitIsInvisible(d: Deployment, s: Submission, r: Registration, gateSet: seq<GateBinding>,
                                answers: string -> Invocation)
    requires s.mode == Gate
    ensures Combined(s, GateRecords(d, Gate, gateSet, answers, r.conflictGroups), r, None, []) ==
            Combined(s, Unskipped(d, gateSet, answers, r.conflictGroups), r, None, [])
  {
    var first := RunGates(d, Bound(gateSet, true), answers, r.conflictGroups);
    if Blocks(first) {
      PhaseBlocks(d, Gate, gateSet, answers, r.conflictGroups);
      BlockAbsorbs(s, GateRecords(d, Gate, gateSet, answers, r.conflictGroups), r);
      MandatoryPhase(d, gateSet, answers, r.conflictGroups);
      BlockStays(first, RunGates(d, Bound(gateSet, false), answers, r.conflictGroups));
      BlockAbsorbs(s, Unskipped(d, gateSet, answers, r.conflictGroups), r);
    }
  }

  lemma MandatoryPhase(d: Deployment, gateSet: seq<GateBinding>, answers: string -> Invocation,
                       groups: seq<set<string>>)
    ensures forall x :: x in RunGates(d, Bound(gateSet, true), answers, groups) ==> x.mandatory
  {
    forall x | x in RunGates(d, Bound(gateSet, true), answers, groups) ensures x.mandatory {
      RanElements(d, Bound(gateSet, true), answers, groups, x);
    }
  }

  lemma BlockStays(first: seq<GateRecord>, rest: seq<GateRecord>)
    requires Blocks(first) && forall x :: x in first ==> x.mandatory
    ensures Blocks(Select(first + rest, true))
  {
    var x :| x in first && Enforced(x) && ActionOf(x) == BLOCK;
    assert x in Select(first + rest, true);
  }

  /** Any gate that failed, and so was not skipped, forces at least HOLD. */
  lemma FailedGateHolds(d: Deployment, s: Submission, r: Registration, answers: string -> Invocation, b: Bundle,
                        x: GateRecord)
    requires Decided(d, s, r, answers, b.decisionId, b.identity, b.registrationVersion.GetOr("")) == Ok(b)
    requires x in b.gates && x.status == Failed
    ensures AtLeast(b.action, HOLD)
  {
    var gateSet := EffectiveGateSet(r, d.mandated);
    FailedIsHeld(d, s.mode, gateSet, answers, r.conflictGroups, x);
    NothingRelaxes(s, b.gates, r, b.check, b.otherChecks, x);
    if s.mode == Gate && Novel(s.context, r.novelFeature) { NovelHolds(s, b.gates, r, b.check, b.otherChecks); }
  }

  lemma FailedIsHeld(d: Deployment, mode: Mode, gateSet: seq<GateBinding>, answers: string -> Invocation,
                     groups: seq<set<string>>, x: GateRecord)
    requires x in GateRecords(d, mode, gateSet, answers, groups) && x.status == Failed
    ensures Enforced(x) && ActionOf(x) == HOLD
    ensures mode == Record ==> x.mandatory
  {
    RanElements(d, Bound(gateSet, true), answers, groups, x);
    RanElements(d, Bound(gateSet, false), answers, groups, x);
    assert forall y :: y in SkipGates(Bound(gateSet, false)) ==> y.status == Skipped;
  }

  lemma NovelHolds(s: Submission, records: seq<GateRecord>, r: Registration, cited: Option<BypassCheck>,
                   competing: seq<BypassCheck>)
    requires s.mode == Gate && Novel(s.context, r.novelFeature) && Combined(s, records, r, cited, competing).Ok?
    ensures AtLeast(Combined(s, records, r, cited, competing).value.action, HOLD)
  {
    var terms := DecisionTerms(s.mode, s.context, records, r.novelFeature, cited, competing);
    NovelTerm(s.context, records, r.novelFeature, cited, competing);
    var x :| x in terms.actions && AtLeast(x, HOLD);
    assert x in Candidates(s.proposed, terms.actions);
  }

  lemma NovelTerm(context: Subject, records: seq<GateRecord>, feature: Option<string>, cited: Option<BypassCheck>,
                  competing: seq<BypassCheck>)
    requires Novel(context, feature)
    ensures exists x ::
              x in DecisionTerms(Gate, context, records, feature, cited, competing).actions && AtLeast(x, HOLD)
  {
    var actions := DecisionTerms(Gate, context, records, feature, cited, competing).actions;
    if Blocks(Select(records, true)) {
      BlocksIn(Select(records, true));
      assert BLOCK in actions;
    } else {
      var action := NovelSide(Select(records, false));
      assert action in actions;
    }
  }

  lemma NovelSide(advisory: seq<GateRecord>) returns (action: Action)
    requires forall x :: x in advisory ==> Enforced(x)
    ensures AdvisorySide(advisory, true).action == Some(action) && AtLeast(action, HOLD)
  {
    action := AdvisorySide(advisory, true).action.value;
  }

  // --- mandating more gates ---------------------------------------------------------------------------

  /** How the gate set changes when more gates are mandated: no mandatory gate leaves, every advisory
      gate stays or is upgraded, and none appears. */
  lemma GateSetGrows(r: Registration, less: set<string>, more: set<string>, b: GateBinding)
    requires less <= more
    ensures b in EffectiveGateSet(r, less) && b.mandatory ==>
              exists c :: c in EffectiveGateSet(r, more) && c.mandatory && c.gateId == b.gateId
    ensures b in EffectiveGateSet(r, less) && !b.mandatory ==>
              b in EffectiveGateSet(r, more) ||
              exists c :: c in EffectiveGateSet(r, more) && c.mandatory && c.gateId == b.gateId
    ensures b in EffectiveGateSet(r, more) && !b.mandatory ==> b in EffectiveGateSet(r, less)
  {
    var upLess, upMore := UpgradeAll(r.gates, less), UpgradeAll(r.gates, more);
    var newLess, newMore := SortedTexts(less - r.GateIds()), SortedTexts(more - r.GateIds());
    if b in upLess {
      var i :| 0 <= i < |upLess| && upLess[i] == b;
      assert upMore[i] in EffectiveGateSet(r, more) && upMore[i].gateId == b.gateId;
    } else if b in Unbound(newLess) {
      var i :| 0 <= i < |newLess| && Unbound(newLess)[i] == b;
      assert newLess[i] in newLess && newLess[i] in more - r.GateIds();
      var j :| 0 <= j < |newMore| && newMore[j] == newLess[i];
      assert Unbound(newMore)[j] in EffectiveGateSet(r, more);
    }
    if b in upMore && !b.mandatory {
      var i :| 0 <= i < |upMore| && upMore[i] == b;
      assert upLess[i] == b;
    }
  }

  /** The same deployment with other gates mandated. */
  ghost predicate MandatesMore(d: Deployment, e: Deployment) {
    d.composed == e.composed && d.mandated <= e.mandated && d.refuses == e.refuses && d.derive == e.derive
  }

  lemma MandatoryStays(d: Deployment, e: Deployment, mode: Mode, r: Registration, answers: string -> Invocation,
                       x: GateRecord)
    requires MandatesMore(d, e)
    requires x in Select(GateRecords(d, mode, EffectiveGateSet(r, d.mandated), answers, r.conflictGroups), true)
    ensures exists y :: y in Select(GateRecords(e, mode, EffectiveGateSet(r, e.mandated), answers, r.conflictGroups),
                                    true) &&
                        y.enforcement == x.enforcement
  {
    var G, H := EffectiveGateSet(r, d.mandated), EffectiveGateSet(r, e.mandated);
    PhaseRecords(d, mode, G, answers, r.conflictGroups, x);
    var b :| b in Bound(G, true) && x == RecordOf(d, b, answers, r.conflictGroups);
    GateSetGrows(r, d.mandated, e.mandated, b);
    var c :| c in H && c.mandatory && c.gateId == b.gateId;
    var y := RecordOf(e, c, answers, r.conflictGroups);
    PhaseRecords(e, mode, H, answers, r.conflictGroups, y);
    assert y.enforcement == x.enforcement;
  }

  lemma AdvisoryStays(d: Deployment, e: Deployment, r: Registration, answers: string -> Invocation, x: GateRecord)
    requires MandatesMore(d, e)
    requires AdvisoryRuns(e, Gate, EffectiveGateSet(r, e.mandated), answers, r.conflictGroups)
    requires x in Select(GateRecords(d, Gate, EffectiveGateSet(r, d.mandated), answers, r.conflictGroups), false)
    ensures exists y :: y in GateRecords(e, Gate, EffectiveGateSet(r, e.mandated), answers, r.conflictGroups) &&
                        y.enforcement == x.enforcement
  {
    var G, H := EffectiveGateSet(r, d.mandated), EffectiveGateSet(r, e.mandated);
    PhaseRecords(d, Gate, G, answers, r.conflictGroups, x);
    var b :| b in Bound(G, false) && x == RecordOf(d, b, answers, r.conflictGroups);
    GateSetGrows(r, d.mandated, e.mandated, b);
    if b in H {
      PhaseRecords(e, Gate, H, answers, r.conflictGroups, x);
    } else {
      var c :| c in H && c.mandatory && c.gateId == b.gateId;
      var y := RecordOf(e, c, answers, r.conflictGroups);
      PhaseRecords(e, Gate, H, answers, r.conflictGroups, y);
      assert y.enforcement == x.enforcement;
    }
  }

  ghost predicate Bounded(x: Action, ys: seq<Action>) {
    exists y :: y in ys && AtLeast(y, x)
  }

  lemma CombineMonotone(p: Option<Action>, t: Terms, u: Terms)
    requires forall x :: x in t.actions ==> Bounded(x, u.actions)
    requires Combine(p, t).Ok? && Combine(p, u).Ok?
    ensures AtLeast(Combine(p, u).value.action, Combine(p, t).value.action)
  {
    var x := Combine(p, t).value.action;
    if x in t.actions {
      var y :| y in u.actions && AtLeast(y, x);
      assert y in Candidates(p, u.actions);
    } else {
      assert p == Some(x) && x in Candidates(p, u.actions);
    }
  }

  ghost predicate SameEnforcement(x: GateRecord, ys: seq<GateRecord>) {
    exists y :: y in ys && y.enforcement == x.enforcement
  }

  /** `b` is at least as tight as `a`: each mandatory record stays mandatory, and, unless `b` is
      blocked already, each advisory one stays. */
  ghost predicate Tightens(a: seq<GateRecord>, b: seq<GateRecord>) {
    && (forall x :: x in Select(a, true) ==> SameEnforcement(x, Select(b, true)))
    && (!Blocks(Select(b, true)) ==> forall x :: x in Select(a, false) ==> SameEnforcement(x, b))
  }

  ghost predicate ProbesBlock(records: seq<GateRecord>) {
    forall x :: x in records && Enforced(x) && x.enforcement.value.rule == Some(Tier2AdversarialProbe) ==>
      ActionOf(x) == BLOCK
  }

  lemma MandatoryBounded(a: seq<GateRecord>, b: seq<GateRecord>, x: Action)
    requires Tightens(a, b) && x in ActionsOf(Select(a, true))
    ensures x in ActionsOf(Select(b, true))
  {
    var g :| g in Select(a, true) && Enforced(g) && ActionOf(g) == x;
    var y :| y in Select(b, true) && y.enforcement == g.enforcement;
    assert ActionOf(y) == x;
  }

  lemma MandatoryCounted(records: seq<GateRecord>, y: GateRecord)
    requires y in records && Enforced(y) && y.mandatory
    ensures ActionOf(y) in ActionsOf(Select(records, true))
  {
    assert y in Select(records, true);
  }

  lemma AdvisoryCounted(records: seq<GateRecord>, y: GateRecord)
    requires y in records && Enforced(y) && !y.mandatory
    ensures Select(records, false) != [] && AtLeast(Strictest(ActionsOf(Select(records, false))), ActionOf(y))
  {
    assert y in Select(records, false);
    assert ActionOf(y) in ActionsOf(Select(records, false));
  }

  lemma RecordBounded(records: seq<GateRecord>, y: GateRecord, actions: seq<Action>)
    requires y in records && Enforced(y)
    requires actions == ActionsOf(Select(records, true)) +
                        (if Select(records, false) == [] then [] else [Strictest(ActionsOf(Select(records, false)))])
    ensures Bounded(ActionOf(y), actions)
  {
    if y.mandatory {
      MandatoryCounted(records, y);
      assert ActionOf(y) in actions;
    } else {
      AdvisoryCounted(records, y);
      assert Strictest(ActionsOf(Select(records, false))) in actions;
    }
  }

  /** The advisory side of the looser records is bounded by the tighter ones'. */
  lemma SideBounded(a: seq<GateRecord>, b: seq<GateRecord>, novel: bool, x: Action, actions: seq<Action>)
    requires Tightens(a, b) && ProbesBlock(a) && !Blocks(Select(b, true))
    requires AdvisorySide(Select(a, false), novel).action == Some(x)
    requires actions == OpenActions(b, novel)
    ensures Bounded(x, actions)
  {
    var advisory := Select(a, false);
    if !novel {
      var g :| g in advisory && Enforced(g) && ActionOf(g) == x;
      var y :| y in b && y.enforcement == g.enforcement;
      RecordBounded(b, y, actions);
    } else if AnyRule(advisory, Tier2AdversarialProbe) {
      var g :| g in advisory && Enforced(g) && g.enforcement.value.rule == Some(Tier2AdversarialProbe);
      var y :| y in b && y.enforcement == g.enforcement;
      assert y.mandatory ==> y in Select(b, true);
      assert y in Select(b, false);
      assert BLOCK in actions;
    } else {
      assert AdvisorySide(Select(b, false), novel).action.value in actions;
    }
  }

  lemma GatedTermsBounded(context: Subject, feature: Option<string>, a: seq<GateRecord>, b: seq<GateRecord>, x: Action)
    requires Tightens(a, b) && ProbesBlock(a)
    requires x in DecisionTerms(Gate, context, a, feature, None, []).actions
    ensures Bounded(x, DecisionTerms(Gate, context, b, feature, None, []).actions)
  {
    var u := DecisionTerms(Gate, context, b, feature, None, []);
    if Blocks(Select(b, true)) {
      BlockTerms(context, b, feature, u);
      BlockBounds(x, u.actions);
    } else {
      NotBlockedEither(a, b);
      OpenTerms(context, feature, a);
      OpenTerms(context, feature, b);
      if x in ActionsOf(Select(a, true)) {
        MandatoryBounded(a, b, x);
        assert x in u.actions && AtLeast(x, x);
      } else {
        SideBounded(a, b, Novel(context, feature), x, u.actions);
      }
    }
  }

  lemma BlockBounds(x: Action, actions: seq<Action>)
    requires BLOCK in actions
    ensures Bounded(x, actions)
  {
    assert AtLeast(BLOCK, x);
  }

  /** The actions of a gated decision no mandatory gate blocks. */
  function OpenActions(records: seq<GateRecord>, novel: bool): seq<Action> {
    var side := AdvisorySide(Select(records, false), novel);
    ActionsOf(Select(records, true)) + if side.action.Some? then [side.action.value] else []
  }

  lemma OpenTerms(context: Subject, feature: Option<string>, records: seq<GateRecord>)
    requires !Blocks(Select(records, true))
    ensures DecisionTerms(Gate, context, records, feature, None, []).actions ==
            OpenActions(records, Novel(context, feature))
  {
  }

  lemma NotBlockedEither(a: seq<GateRecord>, b: seq<GateRecord>)
    requires Tightens(a, b) && !Blocks(Select(b, true))
    ensures !Blocks(Select(a, true))
  {
    BlocksIn(Select(a, true));
    BlocksIn(Select(b, true));
    if BLOCK in ActionsOf(Select(a, true)) { MandatoryBounded(a, b, BLOCK); }
  }

  lemma BlocksIn(records: seq<GateRecord>)
    requires forall x :: x in records ==> Enforced(x)
    ensures Blocks(records) <==> BLOCK in ActionsOf(records)
  {
  }

  /** Tighter records never relax a decision, in either mode. */
  lemma TighterNeverRelaxes(s: Submission, r: Registration, a: seq<GateRecord>, b: seq<GateRecord>,
                            cited: Option<BypassCheck>, competing: seq<BypassCheck>)
    requires Tightens(a, b) && ProbesBlock(a) && (s.mode == Gate ==> cited.None? && competing == [])
    requires Combined(s, a, r, cited, competing).Ok? && Combined(s, b, r, cited, competing).Ok?
    ensures AtLeast(Combined(s, b, r, cited, competing).value.action, Combined(s, a, r, cited, competing).value.action)
  {
    var t := DecisionTerms(s.mode, s.context, a, r.novelFeature, cited, competing);
    var u := DecisionTerms(s.mode, s.context, b, r.novelFeature, cited, competing);
    forall x | x in t.actions ensures Bounded(x, u.actions) {
      if s.mode == Gate {
        GatedTermsBounded(s.context, r.novelFeature, a, b, x);
      } else {
        RecordTermsBounded(s.context, r.novelFeature, a, b, cited.value, competing, x);
      }
    }
    CombineMonotone(s.proposed, t, u);
  }

  lemma RecordTermsBounded(context: Subject, feature: Option<string>, a: seq<GateRecord>, b: seq<GateRecord>,
                           cited: BypassCheck, competing: seq<BypassCheck>, x: Action)
    requires Tightens(a, b) && x in DecisionTerms(Record, context, a, feature, Some(cited), competing).actions
    ensures Bounded(x, DecisionTerms(Record, context, b, feature, Some(cited), competing).actions)
  {
    if x in ActionsOf(Select(a, true)) { MandatoryBounded(a, b, x); }
    assert x in DecisionTerms(Record, context, b, feature, Some(cited), competing).actions && AtLeast(x, x);
  }

  lemma MandatingTightens(d: Deployment, e: Deployment, mode: Mode, r: Registration, answers: string -> Invocation)
    requires MandatesMore(d, e)
    ensures Tightens(GateRecords(d, mode, EffectiveGateSet(r, d.mandated), answers, r.conflictGroups),
                     GateRecords(e, mode, EffectiveGateSet(r, e.mandated), answers, r.conflictGroups))
  {
    var G, H := EffectiveGateSet(r, d.mandated), EffectiveGateSet(r, e.mandated);
    var a, b := GateRecords(d, mode, G, answers, r.conflictGroups), GateRecords(e, mode, H, answers, r.conflictGroups);
    forall x | x in Select(a, true) ensures SameEnforcement(x, Select(b, true)) {
      MandatoryStays(d, e, mode, r, answers, x);
    }
    if !Blocks(Select(b, true)) {
      PhaseBlocks(e, mode, H, answers, r.conflictGroups);
      forall x | x in Select(a, false) ensures SameEnforcement(x, b) {
        PhaseRecords(d, mode, G, answers, r.conflictGroups, x);
        AdvisoryStays(d, e, r, answers, x);
      }
    }
  }

  lemma EnforcedWasRun(d: Deployment, mode: Mode, gateSet: seq<GateBinding>, answers: string -> Invocation,
                       groups: seq<set<string>>, x: GateRecord) returns (b: GateBinding)
    requires x in GateRecords(d, mode, gateSet, answers, groups) && Enforced(x)
    ensures x == RecordOf(d, b, answers, groups)
  {
    RanElements(d, Bound(gateSet, true), answers, groups, x);
    RanElements(d, Bound(gateSet, false), answers, groups, x);
    assert forall y :: y in SkipGates(Bound(gateSet, false)) ==> !Enforced(y);
    b :| x == RecordOf(d, b, answers, groups);
  }

  lemma RanProbesBlock(d: Deployment, mode: Mode, gateSet: seq<GateBinding>, answers: string -> Invocation,
                       groups: seq<set<string>>)
    ensures ProbesBlock(GateRecords(d, mode, gateSet, answers, groups))
  {
    forall x | x in GateRecords(d, mode, gateSet, answers, groups) && Enforced(x) &&
      x.enforcement.value.rule == Some(Tier2AdversarialProbe)
      ensures ActionOf(x) == BLOCK
    {
      var b := EnforcedWasRun(d, mode, gateSet, answers, groups, x);
      ProbeBlocks(Output(Invoke(d, answers, b.gateId)), groups);
    }
  }

  lemma ProbeBlocks(output: Option<GateOutput>, groups: seq<set<string>>)
    ensures ResolveGateOutput(output, groups).rule == Some(Tier2AdversarialProbe) ==>
              ResolveGateOutput(output, groups).action == BLOCK
  {
  }

  /** What a decided bundle is made of. */
  lemma DecidedParts(d: Deployment, s: Submission, r: Registration, answers: string -> Invocation, b: Bundle)
    requires Decided(d, s, r, answers, b.decisionId, b.identity, b.registrationVersion.GetOr("")) == Ok(b) && s.Valid()
    ensures Accept(d, s, r).Ok? && Accept(d, s, r) == ValidateCitation(s, r)
    ensures b.gates == GateRecords(d, s.mode, EffectiveGateSet(r, d.mandated), answers, r.conflictGroups)
    ensures b.check == Checked(ValidateCitation(s, r).value, s) &&
            b.otherChecks == CheckedOthers(ValidateCitation(s, r).value, s, r)
    ensures s.mode == Gate ==> b.check == None && b.otherChecks == []
    ensures Combined(s, b.gates, r, b.check, b.otherChecks) == Ok(Decision(b.action, b.rule))
  {
  }

  lemma DecidedSubmission(d: Deployment, s: Submission, r: Registration, answers: string -> Invocation, b: Bundle)
    requires Decided(d, s, r, answers, b.decisionId, b.identity, b.registrationVersion.GetOr("")) == Ok(b)
    ensures b.submission == s && b.registrationVersion.Some?
  {
  }

  /** Mandating more gates never relaxes a decision: with each gate's answer fixed, and both
      submissions accepted, the action is kept or raised, in both modes. */
  lemma MandatingNeverRelaxes(d: Deployment, e: Deployment, s: Submission, r: Registration,
                              answers: string -> Invocation, a: Bundle, b: Bundle)
    requires MandatesMore(d, e) && s.Valid()
    requires Decided(d, s, r, answers, a.decisionId, a.identity, a.registrationVersion.GetOr("")) == Ok(a)
    requires Decided(e, s, r, answers, b.decisionId, b.identity, b.registrationVersion.GetOr("")) == Ok(b)
    ensures AtLeast(b.action, a.action)
  {
    DecidedParts(d, s, r, answers, a);
    DecidedParts(e, s, r, answers, b);
    MandatingTightens(d, e, s.mode, r, answers);
    RanProbesBlock(d, s.mode, EffectiveGateSet(r, d.mandated), answers, r.conflictGroups);
    TighterNeverRelaxes(s, r, a.gates, b.gates, a.check, a.otherChecks);
  }

  // --- citations ------------------------------------------------------------------------------------

  /** Whichever rule a valid record cites, the action is at least that of the rule
      `matching_bypass_rule` would choose. */
  lemma LenientCitationGainsNothing(d: Deployment, s: Submission, r: Registration, answers: string -> Invocation,
                                    b: Bundle, best: BypassRule)
    requires s.Valid() && r.Valid() && s.mode == Record
    requires Decided(d, s, r, answers, b.decisionId, b.identity, b.registrationVersion.GetOr("")) == Ok(b)
    requires MatchingBypassRule(r.bypassRules, s.context) == Some(best)
    ensures AtLeast(b.action, best.action)
  {
    DecidedParts(d, s, r, answers, b);
    CitationFloor(s, r, b.gates, Accept(d, s, r).value.value, best);
  }

  lemma CitationFloor(s: Submission, r: Registration, gates: seq<GateRecord>, cited: BypassRule, best: BypassRule)
    requires r.Valid() && s.mode == Record && s.proposed == Some(cited.action)
    requires cited in r.bypassRules && best in r.bypassRules && CheckOf(best, s.context).holds
    requires Combined(s, gates, r, Checked(Some(cited), s), CheckedOthers(Some(cited), s, r)).Ok?
    ensures AtLeast(Combined(s, gates, r, Checked(Some(cited), s), CheckedOthers(Some(cited), s, r)).value.action,
                    best.action)
  {
    var mine, others := CheckOf(cited, s.context), CompetingChecks(r.bypassRules, cited, s.context);
    var terms := DecisionTerms(Record, s.context, gates, r.novelFeature, Some(mine), others);
    if AtLeast(cited.action, best.action) {
      TermCounts(s.proposed, terms, cited.action);
    } else {
      RulesById(r, cited, best);
      var check := CheckOf(best, s.context);
      assert check in others;
      var floor := StricterFloors(mine, others, check);
      TermCounts(s.proposed, terms, floor);
    }
  }

  lemma TermCounts(proposed: Option<Action>, terms: Terms, x: Action)
    requires Combine(proposed, terms).Ok? && (x in terms.actions || proposed == Some(x))
    ensures AtLeast(Combine(proposed, terms).value.action, x)
  {
    assert x in Candidates(proposed, terms.actions);
  }

  /** A competing rule that holds and is stricter sets a floor no milder than its action. */
  lemma StricterFloors(cited: BypassCheck, competing: seq<BypassCheck>, check: BypassCheck) returns (floor: Action)
    requires check in competing && check.holds && !AtLeast(cited.rule.action, check.rule.action)
    ensures floor in BypassFloors(cited, competing).actions && AtLeast(floor, check.rule.action)
  {
    var stricter := StricterActions(competing, cited.rule.action);
    assert check.rule.action in stricter;
    floor := Strictest(stricter);
  }

  lemma NoMembers(s: seq<GateRecord>)
    requires forall x :: x !in s
    ensures s == []
  {
    if s != [] { HasMember(s); }
  }

  lemma HasMember<T>(s: seq<T>)
    requires s != []
    ensures exists x :: x in s
  {
    assert s[0] in s;
  }

  lemma RulesById(r: Registration, a: BypassRule, b: BypassRule)
    requires r.Valid() && a in r.bypassRules && b in r.bypassRules
    ensures a.ruleId == b.ruleId ==> a == b
  {
    var i :| 0 <= i < |r.bypassRules| && r.bypassRules[i] == a;
    var j :| 0 <= j < |r.bypassRules| && r.bypassRules[j] == b;
  }

  /** Citing the matching rule itself adds no floor, and with no mandatory gate in the set the
      recorded action is the decision. */
  lemma MatchingCitationAddsNoFloor(d: Deployment, s: Submission, r: Registration, answers: string -> Invocation,
                                    b: Bundle, best: BypassRule)
    requires s.Valid() && r.Valid() && s.mode == Record
    requires Decided(d, s, r, answers, b.decisionId, b.identity, b.registrationVersion.GetOr("")) == Ok(b)
    requires MatchingBypassRule(r.bypassRules, s.context) == Some(best) && Accept(d, s, r).value == Some(best)
    ensures BypassFloors(b.check.value, b.otherChecks) == Floors(None, []) && b.rule == None
    ensures Bound(EffectiveGateSet(r, d.mandated), true) == [] ==> b.action == best.action
  {
    DecidedParts(d, s, r, answers, b);
    MatchingHasNoFloor(r.bypassRules, s.context, best);
    if Bound(EffectiveGateSet(r, d.mandated), true) == [] {
      var mandatory := Select(b.gates, true);
      forall x ensures x !in mandatory {
        PhaseRecords(d, Record, EffectiveGateSet(r, d.mandated), answers, r.conflictGroups, x);
      }
      NoMembers(mandatory);
      assert Candidates(s.proposed, []) == [best.action];
    }
  }

  /** No competing rule that holds is stricter than the matching one. */
  lemma MatchingHasNoFloor(rules: seq<BypassRule>, context: Subject, best: BypassRule)
    requires MatchingBypassRule(rules, context) == Some(best)
    ensures BypassFloors(CheckOf(best, context), CompetingChecks(rules, best, context)) == Floors(None, [])
  {
    var stricter := StricterActions(CompetingChecks(rules, best, context), best.action);
    if stricter != [] { HasMember(stricter); }
  }
}

/** Enforcement: what each gate's output comes to on its own, and what the decision makes of them all. */
module Enforcement {
  import opened Wrappers
  import opened Texts
  import opened Combinator
  import opened Predicates
  import opened Submissions

  datatype GateVerdict = GateVerdict(
    permitted: seq<Action>, controls: seq<string>, confidence: real, escalate: bool, reason: Option<string>)

  datatype EvidenceRef = EvidenceRef(
    sourceId: string, jurisdictions: set<string>, contentHash: Option<string>, artifactHash: Option<string>)

  datatype GateOutput = GateOutput(
    gateId: string, deterministic: bool, verdict: Option<GateVerdict>, evidence: seq<EvidenceRef>)

  datatype Rule =
    | Tier1SchemaFailure | Tier2AdversarialProbe | Tier3NovelEntity | Tier4LowConfidence
    | Tier5JurisdictionConflict | BypassRuleNotSatisfied | BypassRuleSuperseded

  datatype Decision = Decision(action: Action, rule: Option<Rule>)

  datatype Status = Ran | Skipped | Failed

  /** A gate of the set: whether it ran, what it said, and what that was enforced as. */
  datatype GateRecord = GateRecord(
    gateId: string, mandatory: bool, status: Status, output: Option<GateOutput>, enforcement: Option<Decision>)

  const LOW_CONFIDENCE_THRESHOLD := 0.60
  const ADVERSARIAL_CONTROL := "adversarial_probe_detected"
  const JURISDICTION_CONFLICT_CTL := "jurisdiction_conflict"

  // --- gate level ---------------------------------------------------------------------------

  /** The union of jurisdictions across the references. */
  function Jurisdictions(evidence: seq<EvidenceRef>): (r: set<string>)
    ensures forall j :: j in r <==> exists e :: e in evidence && j in e.jurisdictions
  {
    if evidence == [] then {}
    else
      assert evidence == [evidence[0]] + evidence[1..];
      evidence[0].jurisdictions + Jurisdictions(evidence[1..])
  }

  /** The gate itself flags a jurisdiction conflict: by control, or by a conflict-worded escalation. */
  predicate FlagsConflict(v: GateVerdict) {
    || JURISDICTION_CONFLICT_CTL in v.controls
    || (v.escalate && v.reason.Some? &&
        (Contains(Lower(v.reason.value), "jurisdiction") || Contains(Lower(v.reason.value), "conflict")))
  }

  function GroupsTouched(jurisdictions: set<string>, groups: seq<set<string>>): set<set<string>> {
    set g | g in groups && jurisdictions * g != {}
  }

  predicate HasJurisdictionConflict(v: GateVerdict, jurisdictions: set<string>, groups: seq<set<string>>) {
    FlagsConflict(v) || |GroupsTouched(jurisdictions, groups)| >= 2
  }

  function MostConservative(actions: seq<Action>): Action {
    if actions == [] then HOLD else Strictest(actions)
  }

  predicate HighRisk(a: Action) { a == HOLD || a == BLOCK }

  /** Tiers 1, 2, 4, 5 and 6 on one gate's output, the first that fires deciding. */
  function ResolveGateOutput(output: Option<GateOutput>, groups: seq<set<string>>): Decision {
    if output.None? || output.value.verdict.None? then Decision(HOLD, Some(Tier1SchemaFailure))
    else
      var v, deterministic := output.value.verdict.value, output.value.deterministic;
      if !deterministic && ADVERSARIAL_CONTROL in v.controls then Decision(BLOCK, Some(Tier2AdversarialProbe))
      else
        var conservative := MostConservative(v.permitted);
        if !deterministic && v.confidence < LOW_CONFIDENCE_THRESHOLD && HighRisk(conservative) then
          Decision(HOLD, Some(Tier4LowConfidence))
        else
          var jurisdictions := Jurisdictions(output.value.evidence);
          if jurisdictions != {} && HasJurisdictionConflict(v, jurisdictions, groups) then
            Decision(HOLD, Some(Tier5JurisdictionConflict))
          else Decision(conservative, None)
  }

  // --- decision level -------------------------------------------------------------------------

  predicate Enforced(r: GateRecord) { r.enforcement.Some? }

  function ActionOf(r: GateRecord): Action
    requires Enforced(r)
  {
    r.enforcement.value.action
  }

  function Select(records: seq<GateRecord>, mandatory: bool): (r: seq<GateRecord>)
    ensures forall x :: x in r <==> x in records && Enforced(x) && x.mandatory == mandatory
  {
    if records == [] then []
    else
      assert records == [records[0]] + records[1..];
      (if Enforced(records[0]) && records[0].mandatory == mandatory then [records[0]] else []) +
      Select(records[1..], mandatory)
  }

  function ActionsOf(records: seq<GateRecord>): (r: seq<Action>)
    requires forall x :: x in records ==> Enforced(x)
    ensures |r| == |records|
    ensures forall a :: a in r <==> exists x :: x in records && Enforced(x) && ActionOf(x) == a
  {
    if records == [] then []
    else
      assert records == [records[0]] + records[1..];
      assert records[0] in records;
      [ActionOf(records[0])] + ActionsOf(records[1..])
  }

  /** Python truthiness of a feature value. */
  predicate Truthy(s: Scalar) {
    match s
    case Bool(b) => b
    case Num(n) => n.Value() != 0.0
    case Text(t) => t != ""
  }

  /** The evidence holds a truthy value for the feature that marks a novel entity, if one is configured. */
  predicate Novel(context: Subject, feature: Option<string>) {
    feature.Some? && feature.value in context.features && Truthy(context.features[feature.value])
  }

  predicate AnyRule(records: seq<GateRecord>, rule: Rule) {
    exists r :: r in records && Enforced(r) && r.enforcement.value.rule == Some(rule)
  }

  predicate AllRule(records: seq<GateRecord>, rule: Rule) {
    forall r :: r in records ==> Enforced(r) && r.enforcement.value.rule == Some(rule)
  }

  datatype Side = Side(rule: Option<Rule>, action: Option<Action>)

  /** What the advisory records add when no mandatory gate blocks, Tier 3 included. */
  function AdvisorySide(advisory: seq<GateRecord>, novel: bool): Side
    requires forall x :: x in advisory ==> Enforced(x)
  {
    if !novel then Side(None, if advisory == [] then None else Some(Strictest(ActionsOf(advisory))))
    else if AnyRule(advisory, Tier2AdversarialProbe) then Side(None, Some(BLOCK))
    else if advisory != [] && AllRule(advisory, Tier1SchemaFailure) then Side(None, Some(HOLD))
    else Side(Some(Tier3NovelEntity), Some(HOLD))
  }

  datatype Floors = Floors(rule: Option<Rule>, actions: seq<Action>)

  /** The actions of competing rules that hold and are stricter than the cited one. */
  function StricterActions(competing: seq<BypassCheck>, cited: Action): (r: seq<Action>)
    ensures forall a :: a in r <==> exists c :: c in competing && c.holds && c.rule.action == a && !AtLeast(cited, a)
  {
    if competing == [] then []
    else
      assert competing == [competing[0]] + competing[1..];
      (if competing[0].holds && !AtLeast(cited, competing[0].rule.action) then [competing[0].rule.action] else []) +
      StricterActions(competing[1..], cited)
  }

  /** The record-mode floors, and the rule they credit: the stricter, the failed citation on a tie. */
  function BypassFloors(cited: BypassCheck, competing: seq<BypassCheck>): Floors {
    var unmet := if cited.holds then [] else [HOLD];
    var stricter := StricterActions(competing, cited.rule.action);
    var superseding := if stricter == [] then [] else [Strictest(stricter)];
    Floors(
      if superseding != [] && (unmet == [] || !AtLeast(HOLD, superseding[0])) then Some(BypassRuleSuperseded)
      else if unmet != [] then Some(BypassRuleNotSatisfied)
      else None,
      unmet + superseding)
  }

  /** A competing rule that holds and is stricter than the cited one. */
  predicate Supersedes(c: BypassCheck, cited: BypassCheck) {
    c.holds && !AtLeast(cited.rule.action, c.rule.action)
  }

  /** What the floors of a record promise: HOLD for an unmet citation, a floor no milder than any
      superseding rule, nothing else, and the credit to the stricter, to the unmet citation on a tie. */
  ghost predicate IsFloored(cited: BypassCheck, competing: seq<BypassCheck>, added: seq<Action>, rule: Option<Rule>) {
    && (!cited.holds ==> HOLD in added)
    && (forall c :: c in competing && Supersedes(c, cited) ==> exists a :: a in added && AtLeast(a, c.rule.action))
    && (forall a :: a in added ==>
          (a == HOLD && !cited.holds) || exists c :: c in competing && Supersedes(c, cited) && c.rule.action == a)
    && (rule == Some(BypassRuleSuperseded) <==>
          exists c :: c in competing && Supersedes(c, cited) && (cited.holds || !AtLeast(HOLD, c.rule.action)))
    && (rule == Some(BypassRuleNotSatisfied) <==>
          !cited.holds && forall c :: c in competing && Supersedes(c, cited) ==> AtLeast(HOLD, c.rule.action))
    && (rule == None <==> cited.holds && forall c :: c in competing ==> !Supersedes(c, cited))
  }

  lemma FloorsMeaning(cited: BypassCheck, competing: seq<BypassCheck>)
    ensures IsFloored(cited, competing, BypassFloors(cited, competing).actions, BypassFloors(cited, competing).rule)
  {
    var stricter := StricterActions(competing, cited.rule.action);
    if stricter == [] {
      NoneSupersedes(cited, competing);
    } else {
      StrictestSupersedes(cited, competing);
      assert Strictest(stricter) in BypassFloors(cited, competing).actions;
    }
  }

  lemma NoneSupersedes(cited: BypassCheck, competing: seq<BypassCheck>)
    requires StricterActions(competing, cited.rule.action) == []
    ensures forall c :: c in competing ==> !Supersedes(c, cited)
  {
    SupersedingIsStricter(cited, competing);
  }

  lemma SupersedingIsStricter(cited: BypassCheck, competing: seq<BypassCheck>)
    ensures forall c :: c in competing && Supersedes(c, cited) ==>
              c.rule.action in StricterActions(competing, cited.rule.action)
  {
  }

  lemma StrictestSupersedes(cited: BypassCheck, competing: seq<BypassCheck>)
    requires StricterActions(competing, cited.rule.action) != []
    ensures var strictest := Strictest(StricterActions(competing, cited.rule.action));
            && (exists c :: c in competing && Supersedes(c, cited) && c.rule.action == strictest)
            && (forall c :: c in competing && Supersedes(c, cited) ==> AtLeast(strictest, c.rule.action))
  {
    var stricter := StricterActions(competing, cited.rule.action);
    forall c | c in competing && Supersedes(c, cited) ensures AtLeast(Strictest(stricter), c.rule.action) {
      assert c.rule.action in stricter;
    }
    assert Strictest(stricter) in stricter;
    var c :| c in competing && c.rule.action == Strictest(stricter) && Supersedes(c, cited);
  }

  lemma FlooredAs(cited: BypassCheck, competing: seq<BypassCheck>, terms: seq<Action>, extended: seq<Action>,
                  rule: Option<Rule>)
    requires extended == terms + BypassFloors(cited, competing).actions && rule == BypassFloors(cited, competing).rule
    ensures terms <= extended && IsFloored(cited, competing, extended[|terms|..], rule)
  {
    FloorsMeaning(cited, competing);
    assert extended[|terms|..] == BypassFloors(cited, competing).actions;
  }

  predicate Blocks(records: seq<GateRecord>) {
    exists r :: r in records && Enforced(r) && ActionOf(r) == BLOCK
  }

  datatype EnforcementError = MissingBypassCheck | NothingToCombine

  /** The rule credited above the gates, and the actions combined with the proposal. */
  datatype Terms = Terms(rule: Option<Rule>, actions: seq<Action>)

  function DecisionTerms(mode: Mode, context: Subject, records: seq<GateRecord>, novelFeature: Option<string>,
                         cited: Option<BypassCheck>, competing: seq<BypassCheck>): Terms
    requires mode == Record ==> cited.Some?
  {
    var mandatory, advisory := Select(records, true), Select(records, false);
    if mode == Record then
      var floors := BypassFloors(cited.value, competing);
      Terms(floors.rule, ActionsOf(mandatory) + floors.actions)
    else if Blocks(mandatory) then Terms(None, ActionsOf(mandatory) + ActionsOf(advisory))
    else
      var side := AdvisorySide(advisory, Novel(context, novelFeature));
      Terms(side.rule, ActionsOf(mandatory) + (if side.action.Some? then [side.action.value] else []))
  }

  /** What the decision level makes of a decision's records. */
  function Combined(s: Submission, records: seq<GateRecord>, r: Registration, cited: Option<BypassCheck>,
                    competing: seq<BypassCheck>): Result<Decision, EnforcementError>
  {
    if s.mode == Record && cited.None? then Err(MissingBypassCheck)
    else
      Combine(s.proposed, DecisionTerms(s.mode, s.context, records, r.novelFeature, cited, competing))
  }

  function Combine(proposed: Option<Action>, terms: Terms): Result<Decision, EnforcementError> {
    var final := MostRestrictive(proposed, terms.actions);
    if final.None? then Err(NothingToCombine) else Ok(Decision(final.value, terms.rule))
  }

  /** Add the record-mode floors to the combinator's terms; the rule they credit. */
  method BypassRules(cited: BypassCheck, competing: seq<BypassCheck>, terms: seq<Action>)
      returns (rule: Option<Rule>, extended: seq<Action>)
    ensures rule == BypassFloors(cited, competing).rule
    ensures extended == terms + BypassFloors(cited, competing).actions
    ensures terms <= extended && IsFloored(cited, competing, extended[|terms|..], rule)
  {
    var notSatisfied: Option<Action> := None;
    extended := terms;
    if !cited.holds {
      notSatisfied := Some(HOLD);
      extended := extended + [HOLD];
    }
    var stricter := StricterActions(competing, cited.rule.action);
    var superseded: Option<Action> := None;
    if stricter != [] {
      superseded := Some(Strictest(stricter));
      extended := extended + [superseded.value];
    }
    if superseded.Some? && (notSatisfied.None? || Severity(superseded.value) > Severity(notSatisfied.value)) {
      rule := Some(BypassRuleSuperseded);
    } else {
      rule := if notSatisfied.Some? then Some(BypassRuleNotSatisfied) else None;
    }
    FlooredAs(cited, competing, terms, extended, rule);
  }

  /** The decision, its terms collected one after another and combined at the end. */
  method ResolveDecision(s: Submission, records: seq<GateRecord>, r: Registration, cited: Option<BypassCheck>,
                         competing: seq<BypassCheck>) returns (d: Result<Decision, EnforcementError>)
    ensures d == Combined(s, records, r, cited, competing)
  {
    var rule: Option<Rule> := None;
    var mandatory, advisory := Select(records, true), Select(records, false);
    var terms := ActionsOf(mandatory);
    if s.mode == Record {
      if cited.None? { return Err(MissingBypassCheck); }
      rule, terms := BypassRules(cited.value, competing, terms);
    } else if Blocks(mandatory) {
      terms := terms + ActionsOf(advisory);
    } else {
      var side := AdvisorySide(advisory, Novel(s.context, r.novelFeature));
      rule := side.rule;
      if side.action.Some? { terms := terms + [side.action.value]; }
    }
    assert Terms(rule, terms).actions ==
      DecisionTerms(s.mode, s.context, records, r.novelFeature, cited, competing).actions;
    var final := MostRestrictive(s.proposed, terms);
    d := if final.None? then Err(NothingToCombine) else Ok(Decision(final.value, rule));
  }

  // --- the credited rule --------------------------------------------------------------------------

  predicate Credits(x: GateRecord, final: Action) { Enforced(x) && ActionOf(x) == final }

  predicate CreditsFirst(records: seq<GateRecord>, final: Action, k: int) {
    0 <= k < |records| && Credits(records[k], final) && forall j :: 0 <= j < k ==> !Credits(records[j], final)
  }

  /** The rule of the first record whose enforced action is the final one; none without such a record. */
  function FirstCredit(records: seq<GateRecord>, final: Action): (r: Option<Rule>)
    ensures forall k :: CreditsFirst(records, final, k) ==> r == records[k].enforcement.value.rule
    ensures (forall k :: 0 <= k < |records| ==> !Credits(records[k], final)) ==> r == None
  {
    if records == [] then None
    else if Credits(records[0], final) then records[0].enforcement.value.rule
    else FirstCredit(records[1..], final)
  }

  /** The one rule that answers for the final action, if any. */
  function CreditedRule(d: Decision, records: seq<GateRecord>, cited: Option<BypassCheck>,
                        other: seq<BypassCheck>): Option<Rule> {
    if d.rule in {Some(Tier3NovelEntity), Some(BypassRuleNotSatisfied)} && d.action == HOLD then d.rule
    else if d.rule == Some(BypassRuleSuperseded) && cited.Some? &&
            var floors := StricterActions(other, cited.value.rule.action);
            floors != [] && Strictest(floors) == d.action then d.rule
    else FirstCredit(records, d.action)
  }
}

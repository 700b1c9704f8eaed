/** Submission intake: validation, the gate set in its two phases, enforcement, the bundle. */
module Intake {
  import opened Wrappers
  import opened Combinator
  import opened Identity
  import opened Submissions
  import opened Enforcement

  /** The outcome of invoking a gate: a usable output, or a failure that fails closed. */
  datatype Invocation = Answered(output: GateOutput) | Unusable

  /** The composed gates, those the deployment mandates, how each judges a configuration for a
      reasoner, and the derivation of entity ids. */
  datatype Deployment = Deployment(
    composed: set<string>, mandated: set<string>,
    refuses: (string, Config, string) -> Option<ContractCode>,
    derive: (EntityId, string) -> EntityId)

  datatype Bundle = Bundle(
    decisionId: nat, submission: Submission, identity: Option<ResolvedIdentity>, gates: seq<GateRecord>,
    action: Action, rule: Option<Rule>, check: Option<BypassCheck>, otherChecks: seq<BypassCheck>,
    registrationVersion: Option<string>)

  datatype IntakeError = Contract(code: ContractCode) | Internal(error: EnforcementError)

  // --- the gate phases ------------------------------------------------------------------------

  /** What invoking a gate comes to: an uncomposed gate cannot answer. */
  function Invoke(d: Deployment, answers: string -> Invocation, gateId: string): Invocation {
    if gateId in d.composed then answers(gateId) else Unusable
  }

  function Output(i: Invocation): Option<GateOutput> { if i.Answered? then Some(i.output) else None }

  function RunGate(b: GateBinding, i: Invocation, groups: seq<set<string>>): GateRecord {
    GateRecord(b.gateId, b.mandatory, if i.Answered? then Ran else Failed, Output(i),
               Some(ResolveGateOutput(Output(i), groups)))
  }

  function SkipGate(b: GateBinding): GateRecord { GateRecord(b.gateId, b.mandatory, Skipped, None, None) }

  function RunGates(d: Deployment, bindings: seq<GateBinding>, answers: string -> Invocation,
                    groups: seq<set<string>>): seq<GateRecord> {
    seq(|bindings|,
        i requires 0 <= i < |bindings| => RunGate(bindings[i], Invoke(d, answers, bindings[i].gateId), groups))
  }

  function SkipGates(bindings: seq<GateBinding>): seq<GateRecord> {
    seq(|bindings|, i requires 0 <= i < |bindings| => SkipGate(bindings[i]))
  }

  function Bound(bindings: seq<GateBinding>, mandatory: bool): (r: seq<GateBinding>)
    ensures forall b :: b in r <==> b in bindings && b.mandatory == mandatory
  {
    if bindings == [] then []
    else
      var init, last := bindings[..|bindings| - 1], bindings[|bindings| - 1];
      assert bindings == init + [last];
      Bound(init, mandatory) + if last.mandatory == mandatory then [last] else []
  }

  /** Mandatory gates always; advisory gates only on a gated decision no mandatory gate blocks. */
  function GateRecords(d: Deployment, mode: Mode, gateSet: seq<GateBinding>, answers: string -> Invocation,
                       groups: seq<set<string>>): seq<GateRecord>
  {
    var first := RunGates(d, Bound(gateSet, true), answers, groups);
    var advisory := Bound(gateSet, false);
    first + (if mode == Record || Blocks(first) then SkipGates(advisory) else RunGates(d, advisory, answers, groups))
  }

  // --- validation -------------------------------------------------------------------------------

  function ContextFor(s: Submission, gateId: string): Config {
    ContextIn(s.gateContexts, gateId)
  }

  function ContextIn(contexts: seq<GateContext>, gateId: string): Config {
    if contexts == [] then EMPTY_CONFIG
    else if contexts[0].gateId == gateId then contexts[0].config
    else ContextIn(contexts[1..], gateId)
  }

  /** The first composed gate of the set that refuses its context. */
  function ConfigProblem(d: Deployment, s: Submission, bindings: seq<GateBinding>): Option<ContractCode> {
    if bindings == [] then None
    else
      var id := bindings[0].gateId;
      var problem := if id in d.composed then d.refuses(id, ContextFor(s, id), s.reasonerId) else None;
      if problem.Some? then problem else ConfigProblem(d, s, bindings[1..])
  }

  /** Intake validation as a whole: the cited rule, or the first violation. */
  function Accept(d: Deployment, s: Submission, r: Registration): (v: Result<Option<BypassRule>, ContractCode>)
    ensures v.Ok? ==> v == ValidateSubmission(s, r, d.mandated, d.derive)
  {
    var v := ValidateSubmission(s, r, d.mandated, d.derive);
    if v.Err? then v
    else
      var problem := ConfigProblem(d, s, EffectiveGateSet(r, d.mandated));
      if problem.Some? then Err(problem.value) else v
  }

  // --- the decision -------------------------------------------------------------------------------

  function Checked(rule: Option<BypassRule>, s: Submission): Option<BypassCheck> {
    if rule.Some? then Some(CheckOf(rule.value, s.context)) else None
  }

  function CheckedOthers(rule: Option<BypassRule>, s: Submission, r: Registration): seq<BypassCheck> {
    if rule.Some? then CompetingChecks(r.bypassRules, rule.value, s.context) else []
  }

  /** The bundle a submission becomes under a registration, for given gate answers. */
  function Decided(d: Deployment, s: Submission, r: Registration, answers: string -> Invocation,
                   decisionId: nat, identity: Option<ResolvedIdentity>, version: string): Result<Bundle, IntakeError>
  {
    var rule := Accept(d, s, r);
    if rule.Err? then Err(Contract(rule.error))
    else
      var records := GateRecords(d, s.mode, EffectiveGateSet(r, d.mandated), answers, r.conflictGroups);
      var check, others := Checked(rule.value, s), CheckedOthers(rule.value, s, r);
      var decision := Combined(s, records, r, check, others);
      if decision.Err? then Err(Internal(decision.error))
      else Ok(Bundle(decisionId, s, identity, records, decision.value.action, decision.value.rule, check, others,
                     Some(version)))
  }

  /** Run the bindings' gates; records come back in binding order. */
  method RunGateSet(d: Deployment, bindings: seq<GateBinding>, answers: string -> Invocation, groups: seq<set<string>>)
      returns (records: seq<GateRecord>)
    ensures records == RunGates(d, bindings, answers, groups)
  {
    records := [];
    for i := 0 to |bindings|
      invariant records == RunGates(d, bindings, answers, groups)[..i]
    {
      var invocation := Invoke(d, answers, bindings[i].gateId);
      records := records + [RunGate(bindings[i], invocation, groups)];
    }
  }

  /** Decide a submission, phase by phase, unwritten. */
  method Decide(d: Deployment, s: Submission, r: Registration, answers: string -> Invocation,
                decisionId: nat, identity: Option<ResolvedIdentity>, version: string)
      returns (b: Result<Bundle, IntakeError>)
    ensures b == Decided(d, s, r, answers, decisionId, identity, version)
  {
    var rule := Accept(d, s, r);
    if rule.Err? { return Err(Contract(rule.error)); }
    var gateSet := EffectiveGateSet(r, d.mandated);
    var check: Option<BypassCheck> := None;
    var others: seq<BypassCheck> := [];
    if rule.value.Some? {
      var c := EvaluateBypass(rule.value.value, s.context);
      check, others := Some(c), CompetingChecks(r.bypassRules, rule.value.value, s.context);
    }
    var mandatory, advisory := Bound(gateSet, true), Bound(gateSet, false);
    var records := RunGateSet(d, mandatory, answers, r.conflictGroups);
    if s.mode == Record || Blocks(records) {
      records := records + SkipGates(advisory);
    } else {
      var more := RunGateSet(d, advisory, answers, r.conflictGroups);
      records := records + more;
    }
    assert records == GateRecords(d, s.mode, gateSet, answers, r.conflictGroups);
    var decision := ResolveDecision(s, records, r, check, others);
    if decision.Err? { return Err(Internal(decision.error)); }
    b := Ok(Bundle(decisionId, s, identity, records, decision.value.action, decision.value.rule, check, others,
                   Some(version)));
  }
}

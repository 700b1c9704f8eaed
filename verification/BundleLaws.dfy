/** What intake refuses, the gates a decision goes through and what each records, and what the bundle
    holds, over the submission, the registration and the gates' answers themselves. */
module BundleLaws {
  import opened Wrappers
  import opened Sorting
  import opened Combinator
  import opened Predicates
  import opened Identity
  import opened Submissions
  import opened Enforcement
  import opened GateLaws
  import opened DecisionLaws
  import opened Intake
  import IntakeLaws

  // --- refusals -----------------------------------------------------------------------------------

  ghost predicate RuleHasId(r: Registration, id: string) {
    exists rule :: rule in r.bypassRules && rule.ruleId == id
  }

  ghost predicate RuleActs(r: Registration, id: string, a: Action) {
    exists rule :: rule in r.bypassRules && rule.ruleId == id && rule.action == a
  }

  ghost function CitationViolation(s: Submission, r: Registration): Option<ContractCode>
    requires s.Valid() && s.mode == Record
  {
    var id, proposed := s.bypass.value.ruleId, s.proposed.value;
    if !RuleHasId(r, id) then Some(BypassRuleUnregistered)
    else if proposed !in r.recordable then Some(ActionNotRecordable)
    else if !RuleActs(r, id, proposed) then Some(BypassActionMismatch)
    else if !(exists rule :: Citable(s, r, rule)) then Some(BypassRuleVersionMismatch)
    else None
  }

  ghost predicate AddressesUnbound(s: Submission, r: Registration) {
    exists c :: c in s.gateContexts && forall b :: b in r.gates ==> b.gateId != c.gateId
  }

  ghost predicate LeavesUnaddressed(s: Submission, r: Registration) {
    exists b :: b in r.gates && forall c :: c in s.gateContexts ==> c.gateId != b.gateId
  }

  /** The first of the contract's conditions that fails, in the order they are checked. */
  ghost function Violation(s: Submission, r: Registration, mandated: set<string>,
                           derive: (EntityId, string) -> EntityId): Option<ContractCode>
    requires s.Valid()
  {
    if s.reasonerId != r.reasonerId then Some(SubmissionInvalid)
    else if s.mode == Record && CitationViolation(s, r).Some? then CitationViolation(s, r)
    else if !SubjectAgrees(s, r, derive) then Some(NativeSubjectMismatch)
    else if AddressesUnbound(s, r) then Some(GateNotBound)
    else if LeavesUnaddressed(s, r) then Some(GateContextMissing)
    else if s.mode == Gate && r.gates == [] && mandated == {} then Some(NoGates)
    else None
  }

  /** A submission is refused with the code of the first condition it fails. */
  lemma RefusedExactly(s: Submission, r: Registration, mandated: set<string>, derive: (EntityId, string) -> EntityId)
    requires s.Valid() && r.Valid()
    ensures Violation(s, r, mandated, derive) ==
            match ValidateSubmission(s, r, mandated, derive) case Ok(_) => None case Err(code) => Some(code)
  {
    if s.mode == Record { CitationRefused(s, r); }
    SubjectExactly(s, r, derive);
    GatesExactly(r, mandated);
    AddressedExactly(s, r);
  }

  lemma CitationRefused(s: Submission, r: Registration)
    requires s.Valid() && r.Valid() && s.mode == Record
    ensures CitationViolation(s, r) == match ValidateCitation(s, r) case Ok(_) => None case Err(code) => Some(code)
  {
    var id := s.bypass.value.ruleId;
    CitedExactly(s, r);
    if RuleHasId(r, id) {
      OneRuleById(r, id);
      var found := FindRule(r.bypassRules, id).value;
      assert RuleActs(r, id, s.proposed.value) <==> found.action == s.proposed.value;
    }
  }

  lemma OneRuleById(r: Registration, id: string)
    requires r.Valid() && RuleHasId(r, id)
    ensures FindRule(r.bypassRules, id).Some?
    ensures forall rule :: rule in r.bypassRules && rule.ruleId == id ==> Some(rule) == FindRule(r.bypassRules, id)
  {
    var found := FindRule(r.bypassRules, id);
    forall rule | rule in r.bypassRules && rule.ruleId == id ensures Some(rule) == found {
      var i :| 0 <= i < |r.bypassRules| && r.bypassRules[i] == rule;
      var j :| 0 <= j < |r.bypassRules| && r.bypassRules[j] == found.value;
      assert i == j;
    }
  }

  lemma AddressedExactly(s: Submission, r: Registration)
    ensures s.Addressed() <= r.GateIds() <==> !AddressesUnbound(s, r)
    ensures r.GateIds() <= s.Addressed() <==> !LeavesUnaddressed(s, r)
  {
    forall c | c in s.gateContexts ensures c.gateId in s.Addressed() {}
    forall b | b in r.gates ensures b.gateId in r.GateIds() {}
  }

  /** The configuration the submission sends a gate: its context's, and an empty one without a context. */
  ghost predicate Sends(s: Submission, id: string, config: Config) {
    || (exists c :: c in s.gateContexts && c.gateId == id && c.config == config)
    || (config.json == "{}" && forall c :: c in s.gateContexts ==> c.gateId != id)
  }

  ghost predicate GateRefuses(d: Deployment, s: Submission, id: string, code: ContractCode) {
    id in d.composed && exists config :: Sends(s, id, config) && d.refuses(id, config, s.reasonerId) == Some(code)
  }

  lemma {:induction false} ContextIsSent(contexts: seq<GateContext>, id: string)
    ensures (exists c :: c in contexts && c.gateId == id && c.config == ContextIn(contexts, id)) ||
            (ContextIn(contexts, id) == Config("{}") && forall c :: c in contexts ==> c.gateId != id)
  {
    if contexts != [] {
      assert contexts == [contexts[0]] + contexts[1..];
      ContextIsSent(contexts[1..], id);
      assert contexts[0] in contexts;
    }
  }

  lemma SentIsContext(s: Submission, id: string, config: Config)
    requires s.Valid()
    ensures Sends(s, id, config) <==> config == ContextFor(s, id)
  {
    ContextIsSent(s.gateContexts, id);
    if c, e :| c in s.gateContexts && c.gateId == id && c.config == config &&
               e in s.gateContexts && e.gateId == id && e.config == ContextFor(s, id) {
      var i :| 0 <= i < |s.gateContexts| && s.gateContexts[i] == c;
      var j :| 0 <= j < |s.gateContexts| && s.gateContexts[j] == e;
      assert i == j;
    }
  }

  ghost predicate FirstRefusal(d: Deployment, s: Submission, bindings: seq<GateBinding>, code: ContractCode, k: int) {
    0 <= k < |bindings| && GateRefuses(d, s, bindings[k].gateId, code) &&
    forall j, other :: 0 <= j < k ==> !GateRefuses(d, s, bindings[j].gateId, other)
  }

  /** The reported problem is that of the first composed gate of the set that refuses what it is sent. */
  lemma {:induction false} ProblemIsFirst(d: Deployment, s: Submission, bindings: seq<GateBinding>)
    requires s.Valid()
    ensures ConfigProblem(d, s, bindings).None? ==>
              forall b, code :: b in bindings ==> !GateRefuses(d, s, b.gateId, code)
    ensures ConfigProblem(d, s, bindings).Some? ==>
              exists k :: FirstRefusal(d, s, bindings, ConfigProblem(d, s, bindings).value, k)
  {
    if bindings != [] {
      var id, rest := bindings[0].gateId, bindings[1..];
      assert bindings == [bindings[0]] + rest;
      forall config ensures Sends(s, id, config) <==> config == ContextFor(s, id) { SentIsContext(s, id, config); }
      ProblemIsFirst(d, s, rest);
      var problem := ConfigProblem(d, s, bindings);
      if id in d.composed && d.refuses(id, ContextFor(s, id), s.reasonerId).Some? {
        assert FirstRefusal(d, s, bindings, problem.value, 0);
      } else if problem.Some? {
        var k :| FirstRefusal(d, s, rest, problem.value, k);
        RefusalShifts(d, s, bindings, problem.value, k);
      }
    }
  }

  lemma RefusalShifts(d: Deployment, s: Submission, bindings: seq<GateBinding>, code: ContractCode, k: int)
    requires bindings != [] && FirstRefusal(d, s, bindings[1..], code, k)
    requires forall other :: !GateRefuses(d, s, bindings[0].gateId, other)
    ensures FirstRefusal(d, s, bindings, code, k + 1)
  {
    forall j, other | 0 <= j < k + 1 ensures !GateRefuses(d, s, bindings[j].gateId, other) {
      if j > 0 { assert bindings[j] == bindings[1..][j - 1]; }
    }
  }

  /** Intake accepts exactly the submissions that violate nothing and that no composed gate, bound or
      mandated, refuses; the violation comes before a refusal. */
  lemma AcceptedByAll(d: Deployment, s: Submission, r: Registration)
    requires s.Valid() && r.Valid()
    ensures Accept(d, s, r).Ok? <==>
            && Violation(s, r, d.mandated, d.derive) == None
            && forall id, code :: id in d.mandated || HasGate(r.gates, id) ==> !GateRefuses(d, s, id, code)
    ensures Violation(s, r, d.mandated, d.derive).Some? ==>
              Accept(d, s, r) == Err(Violation(s, r, d.mandated, d.derive).value)
    ensures Accept(d, s, r).Err? && Violation(s, r, d.mandated, d.derive).None? ==>
              exists k :: FirstRefusal(d, s, EffectiveGateSet(r, d.mandated), Accept(d, s, r).error, k)
  {
    var gateSet := EffectiveGateSet(r, d.mandated);
    RefusedExactly(s, r, d.mandated, d.derive);
    ProblemIsFirst(d, s, gateSet);
    GateSetIs(r, d.mandated);
    if problem: ContractCode :| ConfigProblem(d, s, gateSet) == Some(problem) {
      var k :| FirstRefusal(d, s, gateSet, problem, k);
      assert gateSet[k] in gateSet;
    }
  }

  // --- the gate set -----------------------------------------------------------------------------------

  /** The registration's gates in order, mandatory if bound so or mandated, then, sorted, the other
      mandated gates, mandatory and without configuration. */
  ghost predicate IsGateSet(r: Registration, mandated: set<string>, gateSet: seq<GateBinding>) {
    var n := |r.gates|;
    && n <= |gateSet|
    && (forall i :: 0 <= i < n ==>
          gateSet[i] == r.gates[i].(mandatory := r.gates[i].mandatory || r.gates[i].gateId in mandated))
    && (forall i :: n <= i < |gateSet| ==> gateSet[i].mandatory && gateSet[i].config == Config("{}"))
    && (forall i, j :: n <= i < j < |gateSet| ==> TextLess(gateSet[i].gateId, gateSet[j].gateId))
    && (forall id :: HasGate(gateSet[n..], id) <==> id in mandated && !HasGate(r.gates, id))
  }

  ghost predicate HasGate(bindings: seq<GateBinding>, id: string) { exists b :: b in bindings && b.gateId == id }

  lemma ExtraGates(r: Registration, mandated: set<string>, id: string)
    ensures HasGate(Unbound(SortedTexts(mandated - r.GateIds())), id) <==> id in mandated && !HasGate(r.gates, id)
  {
    var extra := SortedTexts(mandated - r.GateIds());
    forall b | b in r.gates ensures b.gateId in r.GateIds() {}
    if id in extra {
      var k :| 0 <= k < |extra| && extra[k] == id;
      assert Unbound(extra)[k].gateId == id;
    }
  }

  lemma UpgradedGates(r: Registration, mandated: set<string>, id: string)
    ensures HasGate(UpgradeAll(r.gates, mandated), id) <==> HasGate(r.gates, id)
  {
    if b :| b in r.gates && b.gateId == id {
      var k :| 0 <= k < |r.gates| && r.gates[k] == b;
      assert UpgradeAll(r.gates, mandated)[k].gateId == id;
    }
  }

  lemma GateSetIs(r: Registration, mandated: set<string>)
    ensures IsGateSet(r, mandated, EffectiveGateSet(r, mandated))
    ensures forall id :: HasGate(EffectiveGateSet(r, mandated), id) <==> id in mandated || HasGate(r.gates, id)
  {
    var bound, extra := UpgradeAll(r.gates, mandated), Unbound(SortedTexts(mandated - r.GateIds()));
    assert EffectiveGateSet(r, mandated) == bound + extra && (bound + extra)[|bound|..] == extra;
    forall id ensures HasGate(extra, id) <==> id in mandated && !HasGate(r.gates, id) { ExtraGates(r, mandated, id); }
    forall id ensures HasGate(bound + extra, id) <==> id in mandated || HasGate(r.gates, id) {
      ExtraGates(r, mandated, id);
      UpgradedGates(r, mandated, id);
      assert HasGate(bound + extra, id) <==> HasGate(bound, id) || HasGate(extra, id);
    }
  }

  // --- the records --------------------------------------------------------------------------------------

  /** `at` lists the set's positions, mandatory gates first, each part in the set's order. */
  ghost predicate InPhases(gateSet: seq<GateBinding>, at: seq<nat>) {
    && |at| == |gateSet|
    && (forall n :: 0 <= n < |at| ==> at[n] < |gateSet|)
    && (forall i: nat :: i < |gateSet| ==> i in at)
    && (forall m, n :: 0 <= m < n < |at| ==>
          (gateSet[at[n]].mandatory ==> gateSet[at[m]].mandatory) &&
          (gateSet[at[m]].mandatory == gateSet[at[n]].mandatory ==> at[m] < at[n]))
  }

  /** A gate that ran: its own answer and what that is enforced as; uncomposed or unusable, it failed. */
  ghost predicate RanAs(d: Deployment, b: GateBinding, answers: string -> Invocation, groups: seq<set<string>>,
                        x: GateRecord) {
    && x.gateId == b.gateId && x.mandatory == b.mandatory && x.enforcement == Some(Reference(x.output, groups))
    && if b.gateId in d.composed && answers(b.gateId).Answered?
       then x.status == Ran && x.output == Some(answers(b.gateId).output)
       else x.status == Failed && x.output == None
  }

  predicate SkippedAs(b: GateBinding, x: GateRecord) {
    && x.gateId == b.gateId && x.mandatory == b.mandatory
    && x.status == Skipped && x.output == None && x.enforcement == None
  }

  /** Every mandatory gate ran, and the advisory ones exactly when the decision is gated and no mandatory
      gate blocks. */
  ghost predicate RecordsOf(d: Deployment, mode: Mode, gateSet: seq<GateBinding>, answers: string -> Invocation,
                            groups: seq<set<string>>, records: seq<GateRecord>, at: seq<nat>) {
    && InPhases(gateSet, at) && |records| == |at|
    && forall n :: 0 <= n < |at| ==>
         if gateSet[at[n]].mandatory || (mode == Gate && !Acted(records, true, BLOCK))
         then RanAs(d, gateSet[at[n]], answers, groups, records[n])
         else SkippedAs(gateSet[at[n]], records[n])
  }

  ghost predicate Picks(gateSet: seq<GateBinding>, mandatory: bool, at: seq<nat>) {
    && (forall n :: 0 <= n < |at| ==> at[n] < |gateSet| && gateSet[at[n]].mandatory == mandatory)
    && (forall m, n :: 0 <= m < n < |at| ==> at[m] < at[n])
    && (forall i: nat :: i < |gateSet| && gateSet[i].mandatory == mandatory ==> i in at)
  }

  ghost predicate Listed(gateSet: seq<GateBinding>, at: seq<nat>, bindings: seq<GateBinding>) {
    |bindings| == |at| && forall n :: 0 <= n < |at| ==> at[n] < |gateSet| && bindings[n] == gateSet[at[n]]
  }

  lemma {:induction false} BoundPicks(gateSet: seq<GateBinding>, mandatory: bool) returns (at: seq<nat>)
    ensures Picks(gateSet, mandatory, at) && Listed(gateSet, at, Bound(gateSet, mandatory))
  {
    if gateSet == [] { return []; }
    var n := |gateSet| - 1;
    var init := gateSet[..n];
    var rest := BoundPicks(init, mandatory);
    at := if gateSet[n].mandatory == mandatory then rest + [n] else rest;
    PicksExtend(gateSet, mandatory, rest, at);
    ListedExtend(gateSet, rest, at, Bound(init, mandatory), Bound(gateSet, mandatory));
  }

  lemma PicksExtend(gateSet: seq<GateBinding>, mandatory: bool, rest: seq<nat>, at: seq<nat>)
    requires gateSet != [] && Picks(gateSet[..|gateSet| - 1], mandatory, rest)
    requires at == if gateSet[|gateSet| - 1].mandatory == mandatory then rest + [|gateSet| - 1] else rest
    ensures Picks(gateSet, mandatory, at)
  {
    var n := |gateSet| - 1;
    forall m | 0 <= m < |at| ensures at[m] < |gateSet| && gateSet[at[m]].mandatory == mandatory {
      if m < |rest| { assert at[m] == rest[m] && gateSet[..n][rest[m]] == gateSet[rest[m]]; }
    }
    forall m, k | 0 <= m < k < |at| ensures at[m] < at[k] {
      assert at[m] == rest[m] && rest[m] < n;
      if k < |rest| { assert at[k] == rest[k]; }
    }
    forall i: nat | i < |gateSet| && gateSet[i].mandatory == mandatory ensures i in at {
      if i < n {
        assert gateSet[..n][i] == gateSet[i];
        assert i in rest;
        var k :| 0 <= k < |rest| && rest[k] == i;
        assert at[k] == i;
      } else {
        assert at[|rest|] == n;
      }
    }
  }

  lemma ListedExtend(gateSet: seq<GateBinding>, rest: seq<nat>, at: seq<nat>, earlier: seq<GateBinding>,
                     bindings: seq<GateBinding>)
    requires gateSet != [] && Listed(gateSet[..|gateSet| - 1], rest, earlier)
    requires || (at == rest && bindings == earlier)
             || (at == rest + [|gateSet| - 1] && bindings == earlier + [gateSet[|gateSet| - 1]])
    ensures Listed(gateSet, at, bindings)
  {
  }

  lemma PhasesJoin(gateSet: seq<GateBinding>, first: seq<nat>, second: seq<nat>)
    requires Picks(gateSet, true, first) && Picks(gateSet, false, second)
    requires |first| + |second| == |gateSet|
    ensures InPhases(gateSet, first + second)
  {
    var at := first + second;
    forall i: nat | i < |gateSet| ensures i in at { assert i in first || i in second; }
  }

  lemma {:induction false} BoundSplits(gateSet: seq<GateBinding>)
    ensures |Bound(gateSet, true)| + |Bound(gateSet, false)| == |gateSet|
  {
    if gateSet != [] { BoundSplits(gateSet[..|gateSet| - 1]); }
  }

  /** The records of a decision are exactly those. */
  lemma RecordsAre(d: Deployment, mode: Mode, gateSet: seq<GateBinding>, answers: string -> Invocation,
                   groups: seq<set<string>>) returns (at: seq<nat>)
    ensures RecordsOf(d, mode, gateSet, answers, groups, GateRecords(d, mode, gateSet, answers, groups), at)
  {
    var mandatory, advisory := Bound(gateSet, true), Bound(gateSet, false);
    var first := BoundPicks(gateSet, true);
    var second := BoundPicks(gateSet, false);
    BoundSplits(gateSet);
    at := first + second;
    var ran := RunGates(d, mandatory, answers, groups);
    var rest := if mode == Record || Blocks(ran) then SkipGates(advisory) else RunGates(d, advisory, answers, groups);
    forall n | 0 <= n < |ran| ensures RanAs(d, mandatory[n], answers, groups, ran[n]) {
      RunsAs(d, mandatory[n], answers, groups);
    }
    BlockedPhase(d, gateSet, answers, groups, rest);
    forall n | 0 <= n < |rest|
      ensures if mode == Gate && !Blocks(ran) then RanAs(d, advisory[n], answers, groups, rest[n])
              else SkippedAs(advisory[n], rest[n])
    {
      RunsAs(d, advisory[n], answers, groups);
    }
    RecordsJoin(d, mode, gateSet, answers, groups, first, second, mandatory, advisory, ran, rest);
  }

  lemma RecordsJoin(d: Deployment, mode: Mode, gateSet: seq<GateBinding>, answers: string -> Invocation,
                    groups: seq<set<string>>, first: seq<nat>, second: seq<nat>, mandatory: seq<GateBinding>,
                    advisory: seq<GateBinding>, ran: seq<GateRecord>, rest: seq<GateRecord>)
    requires Picks(gateSet, true, first) && Listed(gateSet, first, mandatory) && |ran| == |mandatory|
    requires Picks(gateSet, false, second) && Listed(gateSet, second, advisory) && |rest| == |advisory|
    requires |first| + |second| == |gateSet|
    requires forall n :: 0 <= n < |ran| ==> RanAs(d, mandatory[n], answers, groups, ran[n])
    requires forall n :: 0 <= n < |rest| ==>
               if mode == Gate && !Acted(ran + rest, true, BLOCK) then RanAs(d, advisory[n], answers, groups, rest[n])
               else SkippedAs(advisory[n], rest[n])
    ensures RecordsOf(d, mode, gateSet, answers, groups, ran + rest, first + second)
  {
    PhasesJoin(gateSet, first, second);
    var at, records := first + second, ran + rest;
    forall n | 0 <= n < |at|
      ensures if gateSet[at[n]].mandatory || (mode == Gate && !Acted(records, true, BLOCK))
              then RanAs(d, gateSet[at[n]], answers, groups, records[n])
              else SkippedAs(gateSet[at[n]], records[n])
    {
      if n < |first| {
        assert records[n] == ran[n] && gateSet[at[n]] == mandatory[n];
      } else {
        assert records[n] == rest[n - |first|] && gateSet[at[n]] == advisory[n - |first|];
      }
    }
  }

  lemma RunsAs(d: Deployment, b: GateBinding, answers: string -> Invocation, groups: seq<set<string>>)
    ensures RanAs(d, b, answers, groups, RunGate(b, Invoke(d, answers, b.gateId), groups))
  {
    GateIsExact(Output(Invoke(d, answers, b.gateId)), groups);
  }

  lemma BlockedPhase(d: Deployment, gateSet: seq<GateBinding>, answers: string -> Invocation, groups: seq<set<string>>,
                     rest: seq<GateRecord>)
    requires forall x :: x in rest ==> !x.mandatory
    ensures var ran := RunGates(d, Bound(gateSet, true), answers, groups);
            Acted(ran + rest, true, BLOCK) <==> Blocks(ran)
  {
    var ran := RunGates(d, Bound(gateSet, true), answers, groups);
    forall x | x in ran ensures x.mandatory {
      var i :| 0 <= i < |ran| && ran[i] == x;
      assert Bound(gateSet, true)[i] in Bound(gateSet, true);
    }
    if x :| x in ran && Enforced(x) && ActionOf(x) == BLOCK { assert x in ran + rest && x.mandatory; }
  }

  // --- the bundle ----------------------------------------------------------------------------------------

  /** A check says what the evidence makes of its rule. */
  ghost predicate Checks(c: BypassCheck, context: Subject) {
    && (c.holds <==> Evaluate(c.rule.predicate_, context) == Ok(true))
    && (forall e :: c.error == Some(e) <==> Evaluate(c.rule.predicate_, context) == Err(e))
    && ObservesMentioned(c.observed, c.rule.predicate_, context)
  }

  /** The bundle of an accepted submission: what came in; the record of every gate of the set; for a
      record a check of the rule it may cite and one of every other rule; and the decision they come to. */
  lemma BundleIs(d: Deployment, s: Submission, r: Registration, answers: string -> Invocation, b: Bundle)
      returns (at: seq<nat>)
    requires s.Valid() && r.Valid()
    requires Decided(d, s, r, answers, b.decisionId, b.identity, b.registrationVersion.GetOr("")) == Ok(b)
    ensures b.submission == s && b.registrationVersion.Some?
    ensures exists gateSet :: IsGateSet(r, d.mandated, gateSet) &&
                              RecordsOf(d, s.mode, gateSet, answers, r.conflictGroups, b.gates, at)
    ensures if s.mode == Gate then b.check == None && b.otherChecks == []
            else b.check.Some? && Citable(s, r, b.check.value.rule) && Checks(b.check.value, s.context) &&
                 (forall c :: c in b.otherChecks ==>
                    c.rule in r.bypassRules && c.rule.ruleId != s.bypass.value.ruleId && Checks(c, s.context)) &&
                 forall rule :: rule in r.bypassRules && rule.ruleId != s.bypass.value.ruleId ==>
                   exists c :: c in b.otherChecks && c.rule == rule
    ensures IsDecision(s, b.gates, r, b.check, b.otherChecks, Decision(b.action, b.rule))
  {
    IntakeLaws.DecidedParts(d, s, r, answers, b);
    IntakeLaws.DecidedSubmission(d, s, r, answers, b);
    GateSetIs(r, d.mandated);
    at := RecordsAre(d, s.mode, EffectiveGateSet(r, d.mandated), answers, r.conflictGroups);
    CitedExactly(s, r);
    if s.mode == Record { CheckedAll(s, r, ValidateCitation(s, r).value.value); }
    Decides(s, b.gates, r, b.check, b.otherChecks, Decision(b.action, b.rule));
  }

  lemma Decides(s: Submission, records: seq<GateRecord>, r: Registration, cited: Option<BypassCheck>,
                competing: seq<BypassCheck>, d: Decision)
    requires (s.mode == Gate || cited.Some?) && Combined(s, records, r, cited, competing) == Ok(d)
    ensures IsDecision(s, records, r, cited, competing, d)
  {
    DecisionIsExact(s, records, r, cited, competing);
  }

  lemma CheckedAll(s: Submission, r: Registration, cited: BypassRule)
    ensures Checks(CheckOf(cited, s.context), s.context)
    ensures forall c :: c in CompetingChecks(r.bypassRules, cited, s.context) ==>
              c.rule in r.bypassRules && c.rule.ruleId != cited.ruleId && Checks(c, s.context)
    ensures forall rule :: rule in r.bypassRules && rule.ruleId != cited.ruleId ==>
              exists c :: c in CompetingChecks(r.bypassRules, cited, s.context) && c.rule == rule
  {
    forall rule ensures Checks(CheckOf(rule, s.context), s.context) && CheckOf(rule, s.context).rule == rule {
      ObservedAreMentioned(rule.predicate_, s.context);
    }
    forall rule | rule in r.bypassRules && rule.ruleId != cited.ruleId
      ensures exists c :: c in CompetingChecks(r.bypassRules, cited, s.context) && c.rule == rule
    {
      assert CheckOf(rule, s.context) in CompetingChecks(r.bypassRules, cited, s.context);
    }
  }
}

/** Registrations, submissions, the gate set a decision goes through, and bypass rules. */
module Submissions {
  import opened Wrappers
  import opened Sorting
  import opened Combinator
  import opened Predicates
  import opened PredicateLaws
  import opened Identity

  /** A gate's configuration for a reasoner or for one decision: JSON the framework never reads. */
  datatype Config = Config(json: string)

  const EMPTY_CONFIG := Config("{}")

  datatype GateBinding = GateBinding(gateId: string, mandatory: bool, config: Config)

  datatype BypassRule = BypassRule(ruleId: string, version: string, predicate_: Predicate, action: Action)

  datatype NativeNamespace = NativeNamespace(name: string, namespaceUuid: EntityId, entityType: string)

  datatype Registration = Registration(
    reasonerId: string, gates: seq<GateBinding>, bypassRules: seq<BypassRule>, recordable: set<Action>,
    namespaces: seq<NativeNamespace>, novelFeature: Option<string>, conflictGroups: seq<set<string>>)
  {
    /** The model validator: gates and rules are unique by id, every rule's action is recordable. */
    ghost predicate Valid() {
      && (forall i, j :: 0 <= i < j < |gates| ==> gates[i].gateId != gates[j].gateId)
      && (forall i, j :: 0 <= i < j < |bypassRules| ==> bypassRules[i].ruleId != bypassRules[j].ruleId)
      && (forall i, j :: 0 <= i < j < |namespaces| ==> namespaces[i].name != namespaces[j].name)
      && (forall r :: r in bypassRules ==> r.action in recordable)
    }

    function GateIds(): set<string> { set b | b in gates :: b.gateId }
  }

  datatype Mode = Record | Gate

  datatype BypassCitation = BypassCitation(ruleId: string, ruleVersion: Option<string>)

  datatype GateContext = GateContext(gateId: string, config: Config)

  datatype NativeSubject = NativeSubject(namespace: string, key: string)

  datatype Submission = Submission(
    reasonerId: string, eventId: string, entityId: EntityId, entityType: string, native: Option<NativeSubject>,
    mode: Mode, proposed: Option<Action>, bypass: Option<BypassCitation>, context: Subject,
    gateContexts: seq<GateContext>)
  {
    /** The model validators: a record carries an action and a citation, a gate request no citation. */
    ghost predicate Valid() {
      && (mode == Record ==> bypass.Some? && proposed.Some?)
      && (mode == Gate ==> bypass.None?)
      && (forall i, j :: 0 <= i < j < |gateContexts| ==> gateContexts[i].gateId != gateContexts[j].gateId)
    }

    function Addressed(): set<string> { set c | c in gateContexts :: c.gateId }
  }

  // --- bypass rules ---------------------------------------------------------------------------

  /** One registered rule as the ledger evaluated it for a record. */
  datatype BypassCheck = BypassCheck(
    rule: BypassRule, observed: map<Field, Scalar>, holds: bool, error: Option<PredicateError>)

  /** The evidence's values for the given fields; fields it lacks are omitted. */
  function Observe(fields: set<Field>, subject: Subject): map<Field, Scalar> {
    map f | f in fields && Resolve(f, subject).Ok? :: Resolve(f, subject).value
  }

  function CheckOf(rule: BypassRule, subject: Subject): (c: BypassCheck) {
    var v := Evaluate(rule.predicate_, subject);
    var observed := Observe(ReferencedFields(rule.predicate_), subject);
    if v.Err? then BypassCheck(rule, observed, false, Some(v.error)) else BypassCheck(rule, observed, v.value, None)
  }

  /** The values observed are exactly those the subject carries in the fields the predicate mentions. */
  ghost predicate ObservesMentioned(observed: map<Field, Scalar>, p: Predicate, subject: Subject) {
    forall f, v :: ObservesRightly(observed, p, subject, f, v)
  }

  ghost predicate ObservesRightly(observed: map<Field, Scalar>, p: Predicate, subject: Subject, f: Field, v: Scalar) {
    f in observed && observed[f] == v <==> Mentions(p, f) && Carries(subject, f, v)
  }

  lemma ObservedAreMentioned(p: Predicate, subject: Subject)
    ensures ObservesMentioned(Observe(ReferencedFields(p), subject), p, subject)
  {
    forall f, v ensures ObservesRightly(Observe(ReferencedFields(p), subject), p, subject, f, v) {
      ReferencedAreMentioned(p, f);
      CarriedIsObserved(ReferencedFields(p), subject, f, v);
    }
  }

  lemma CarriedIsObserved(fields: set<Field>, subject: Subject, f: Field, v: Scalar)
    ensures f in Observe(fields, subject) && Observe(fields, subject)[f] == v <==> f in fields && Carries(subject, f, v)
  {
    assert Carries(subject, f, v) <==> Resolve(f, subject) == Ok(v);
  }

  /** Evaluate a rule, collecting the observed values field by field. */
  method EvaluateBypass(rule: BypassRule, subject: Subject) returns (check: BypassCheck)
    ensures check == CheckOf(rule, subject)
    ensures check.rule == rule && (check.holds <==> Evaluate(rule.predicate_, subject) == Ok(true))
    ensures forall e :: check.error == Some(e) <==> Evaluate(rule.predicate_, subject) == Err(e)
    ensures ObservesMentioned(check.observed, rule.predicate_, subject)
  {
    ObservedAreMentioned(rule.predicate_, subject);
    var observed: map<Field, Scalar> := map[];
    var fields := ReferencedFields(rule.predicate_);
    var rest := fields;
    while rest != {}
      invariant rest <= fields
      invariant observed == Observe(fields - rest, subject)
      decreases |rest|
    {
      var field :| field in rest;
      var value := Resolve(field, subject);
      rest := rest - {field};
      if value.Err? { continue; }
      observed := observed[field := value.value];
    }
    assert fields - rest == fields;
    var verdict := Evaluate(rule.predicate_, subject);
    if verdict.Err? {
      check := BypassCheck(rule, observed, false, Some(verdict.error));
    } else {
      check := BypassCheck(rule, observed, verdict.value, None);
    }
  }

  /** A subject holding exactly the recorded observations; `unread` stands in for a prediction the
      rule did not read. */
  function FromObserved(observed: map<Field, Scalar>, unread: Scalar): Subject {
    Subject(if Label in observed then observed[Label] else unread,
            map f | f in observed && f.Feature? :: f.name := observed[f])
  }

  /** The recorded observations suffice: re-evaluating the rule on them alone, in place of the
      evidence, gives the same check, `holds` and `error` included. */
  lemma ObservationsSuffice(rule: BypassRule, subject: Subject, unread: Scalar)
    ensures CheckOf(rule, FromObserved(CheckOf(rule, subject).observed, unread)) == CheckOf(rule, subject)
  {
    var fields := ReferencedFields(rule.predicate_);
    var observed := Observe(fields, subject);
    var again := FromObserved(observed, unread);
    forall f | f in fields ensures Resolve(f, subject) == Resolve(f, again) {
      if f.Feature? && f.name in again.features { assert f in observed; }
    }
    VerdictIsLocal(rule.predicate_, subject, again);
    assert Observe(fields, again) == observed;
  }

  /** What the rules not cited come to on the same evidence, one check each. */
  function CompetingChecks(rules: seq<BypassRule>, cited: BypassRule, subject: Subject): (r: seq<BypassCheck>)
    ensures forall c :: c in r <==> exists x :: x in rules && x.ruleId != cited.ruleId && c == CheckOf(x, subject)
  {
    if rules == [] then []
    else
      var init, last := rules[..|rules| - 1], rules[|rules| - 1];
      assert rules == init + [last];
      CompetingChecks(init, cited, subject) + if last.ruleId != cited.ruleId then [CheckOf(last, subject)] else []
  }

  /** `at` lists, in order, the positions of the rules other than the cited one. */
  ghost predicate OtherPositions(rules: seq<BypassRule>, cited: BypassRule, at: seq<nat>) {
    && (forall n :: 0 <= n < |at| ==> at[n] < |rules| && rules[at[n]].ruleId != cited.ruleId)
    && (forall m, n :: 0 <= m < n < |at| ==> at[m] < at[n])
    && (forall i: nat :: i < |rules| && rules[i].ruleId != cited.ruleId ==> i in at)
  }

  /** One check per other rule, in registration order. */
  lemma {:induction false} CompetingInOrder(rules: seq<BypassRule>, cited: BypassRule, subject: Subject)
      returns (at: seq<nat>)
    ensures OtherPositions(rules, cited, at) && ChecksAt(rules, at, CompetingChecks(rules, cited, subject), subject)
  {
    if rules == [] { return []; }
    var n := |rules| - 1;
    var init := rules[..n];
    var rest := CompetingInOrder(init, cited, subject);
    at := if rules[n].ruleId != cited.ruleId then rest + [n] else rest;
    PositionsExtend(rules, cited, rest, at);
    ChecksExtend(rules, rest, at, CompetingChecks(init, cited, subject), CompetingChecks(rules, cited, subject),
                 subject);
  }

  ghost predicate ChecksAt(rules: seq<BypassRule>, at: seq<nat>, checks: seq<BypassCheck>, subject: Subject) {
    |checks| == |at| && forall n :: 0 <= n < |at| ==> at[n] < |rules| && checks[n] == CheckOf(rules[at[n]], subject)
  }

  lemma PositionsExtend(rules: seq<BypassRule>, cited: BypassRule, rest: seq<nat>, at: seq<nat>)
    requires rules != [] && OtherPositions(rules[..|rules| - 1], cited, rest)
    requires at == if rules[|rules| - 1].ruleId != cited.ruleId then rest + [|rules| - 1] else rest
    ensures OtherPositions(rules, cited, at)
  {
    var n := |rules| - 1;
    forall i: nat | i < |rules| && rules[i].ruleId != cited.ruleId ensures i in at {
      if i < n {
        assert rules[..n][i] == rules[i];
        assert i in rest;
      } else {
        assert at[|rest|] == n;
      }
    }
  }

  lemma ChecksExtend(rules: seq<BypassRule>, rest: seq<nat>, at: seq<nat>, earlier: seq<BypassCheck>,
                     checks: seq<BypassCheck>, subject: Subject)
    requires rules != [] && ChecksAt(rules[..|rules| - 1], rest, earlier, subject)
    requires || (at == rest && checks == earlier)
             || (at == rest + [|rules| - 1] && checks == earlier + [CheckOf(rules[|rules| - 1], subject)])
    ensures ChecksAt(rules, at, checks, subject)
  {
  }

  /** The strictest rule that holds, the first registered among equals. */
  function MatchingBypassRule(rules: seq<BypassRule>, subject: Subject): (r: Option<BypassRule>)
    ensures r.None? <==> forall x :: x in rules ==> !CheckOf(x, subject).holds
    ensures r.Some? ==> r.value in rules && CheckOf(r.value, subject).holds
    ensures r.Some? ==> forall x :: x in rules && CheckOf(x, subject).holds ==> AtLeast(r.value.action, x.action)
  {
    if rules == [] then None
    else
      assert rules == [rules[0]] + rules[1..];
      var rest := MatchingBypassRule(rules[1..], subject);
      if !CheckOf(rules[0], subject).holds then rest
      else if rest.None? || AtLeast(rules[0].action, rest.value.action) then Some(rules[0])
      else rest
  }

  /** The rule stands before every other that holds and is as strict. */
  lemma {:induction false} MatchingIsFirst(rules: seq<BypassRule>, subject: Subject) returns (k: nat)
    requires MatchingBypassRule(rules, subject).Some?
    ensures k < |rules| && rules[k] == MatchingBypassRule(rules, subject).value
    ensures forall j :: 0 <= j < k && CheckOf(rules[j], subject).holds ==> !AtLeast(rules[j].action, rules[k].action)
  {
    if MatchingBypassRule(rules, subject) == Some(rules[0]) {
      k := 0;
    } else {
      k := MatchingIsFirst(rules[1..], subject);
      forall j | 0 <= j <= k && CheckOf(rules[j], subject).holds
        ensures !AtLeast(rules[j].action, rules[k + 1].action)
      {
        if j > 0 { assert rules[j] == rules[1..][j - 1]; }
      }
      k := k + 1;
    }
  }

  // --- the gate set ------------------------------------------------------------------------------

  function Upgrade(b: GateBinding, mandated: set<string>): GateBinding {
    if b.mandatory || b.gateId !in mandated then b else GateBinding(b.gateId, true, b.config)
  }

  function UpgradeAll(bindings: seq<GateBinding>, mandated: set<string>): seq<GateBinding> {
    seq(|bindings|, i requires 0 <= i < |bindings| => Upgrade(bindings[i], mandated))
  }

  function Unbound(ids: seq<string>): seq<GateBinding> {
    seq(|ids|, i requires 0 <= i < |ids| => GateBinding(ids[i], true, EMPTY_CONFIG))
  }

  /** The bound gates, those the deployment mandates upgraded, then every other mandated gate. */
  function EffectiveGateSet(r: Registration, mandated: set<string>): seq<GateBinding> {
    UpgradeAll(r.gates, mandated) + Unbound(SortedTexts(mandated - r.GateIds()))
  }

  // --- intake validation --------------------------------------------------------------------------

  datatype ContractCode =
    | SubmissionInvalid | BypassRuleUnregistered | ActionNotRecordable | BypassActionMismatch
    | BypassRuleVersionMismatch | NativeSubjectMismatch | GateNotBound | GateContextMissing | NoGates
    | GateConfigInvalid | GateConfigUnauthorized

  function FindRule(rules: seq<BypassRule>, id: string): (r: Option<BypassRule>)
    ensures r.Some? ==> r.value in rules && r.value.ruleId == id
    ensures r.None? ==> forall x :: x in rules ==> x.ruleId != id
  {
    if rules == [] then None
    else if rules[0].ruleId == id then Some(rules[0])
    else FindRule(rules[1..], id)
  }

  function FindNamespace(ns: seq<NativeNamespace>, name: string): Option<NativeNamespace> {
    if ns == [] then None else if ns[0].name == name then Some(ns[0]) else FindNamespace(ns[1..], name)
  }

  function ValidateCitation(s: Submission, r: Registration): Result<Option<BypassRule>, ContractCode> {
    if s.mode != Record || s.bypass.None? then Ok(None)
    else
      var cited := FindRule(r.bypassRules, s.bypass.value.ruleId);
      if cited.None? then Err(BypassRuleUnregistered)
      else if s.proposed.None? || s.proposed.value !in r.recordable then Err(ActionNotRecordable)
      else if s.proposed.value != cited.value.action then Err(BypassActionMismatch)
      else if s.bypass.value.ruleVersion.Some? && s.bypass.value.ruleVersion.value != cited.value.version then
        Err(BypassRuleVersionMismatch)
      else Ok(cited)
  }

  /** The submission names the entity its namespace's declaration derives; undeclared ones are free. */
  predicate NativeSubjectAgrees(s: Submission, r: Registration, derive: (EntityId, string) -> EntityId) {
    s.native.Some? ==>
      var ns := FindNamespace(r.namespaces, s.native.value.namespace);
      ns.Some? ==>
        s.entityId == derive(ns.value.namespaceUuid, s.native.value.key) && s.entityType == ns.value.entityType
  }

  /** A rule the record may cite: registered under the cited id, recordable, of the proposed action and,
      when the citation pins a version, of that version. */
  predicate Citable(s: Submission, r: Registration, rule: BypassRule)
    requires s.bypass.Some?
  {
    && rule in r.bypassRules && rule.ruleId == s.bypass.value.ruleId
    && s.proposed == Some(rule.action) && rule.action in r.recordable
    && (s.bypass.value.ruleVersion.Some? ==> s.bypass.value.ruleVersion.value == rule.version)
  }

  /** In a namespace the registration declares, the subject is the entity derived there, of its type. */
  ghost predicate SubjectAgrees(s: Submission, r: Registration, derive: (EntityId, string) -> EntityId) {
    s.native.Some? ==>
      forall ns :: ns in r.namespaces && ns.name == s.native.value.namespace ==>
        s.entityId == derive(ns.namespaceUuid, s.native.value.key) && s.entityType == ns.entityType
  }

  /** Every gate context addresses a bound gate, and every bound gate has one. */
  ghost predicate EachAddressed(s: Submission, r: Registration) {
    && (forall c :: c in s.gateContexts ==> exists b :: b in r.gates && b.gateId == c.gateId)
    && (forall b :: b in r.gates ==> exists c :: c in s.gateContexts && c.gateId == b.gateId)
  }

  /** What an accepted submission promises. */
  ghost predicate Acceptable(s: Submission, r: Registration, mandated: set<string>,
                             derive: (EntityId, string) -> EntityId) {
    && s.reasonerId == r.reasonerId
    && (s.mode == Record && s.bypass.Some? ==> exists rule :: Citable(s, r, rule))
    && SubjectAgrees(s, r, derive)
    && EachAddressed(s, r)
    && (s.mode == Gate ==> r.gates != [] || mandated != {})
  }

  /** A submission is accepted exactly when every condition holds, with the rule it may cite. */
  lemma AcceptedExactly(s: Submission, r: Registration, mandated: set<string>, derive: (EntityId, string) -> EntityId)
    requires s.Valid() && r.Valid()
    ensures ValidateSubmission(s, r, mandated, derive).Ok? <==> Acceptable(s, r, mandated, derive)
    ensures ValidateSubmission(s, r, mandated, derive).Ok? ==>
              var rule := ValidateSubmission(s, r, mandated, derive).value;
              if s.mode == Record then rule.Some? && Citable(s, r, rule.value) else rule.None?
  {
    CitedExactly(s, r);
    SubjectExactly(s, r, derive);
    ContextsExactly(s, r);
    GatesExactly(r, mandated);
  }

  lemma CitedExactly(s: Submission, r: Registration)
    requires s.Valid() && r.Valid()
    ensures s.mode == Record ==>
              (ValidateCitation(s, r).Ok? <==> exists rule :: Citable(s, r, rule)) &&
              (ValidateCitation(s, r).Ok? ==>
                 ValidateCitation(s, r).value.Some? && Citable(s, r, ValidateCitation(s, r).value.value))
    ensures s.mode == Gate ==> ValidateCitation(s, r) == Ok(None)
  {
    if s.mode == Record {
      var found := FindRule(r.bypassRules, s.bypass.value.ruleId);
      if rule :| Citable(s, r, rule) {
        var i :| 0 <= i < |r.bypassRules| && r.bypassRules[i] == rule;
        var j :| 0 <= j < |r.bypassRules| && r.bypassRules[j] == found.value;
        assert i == j;
      }
      if ValidateCitation(s, r).Ok? { assert Citable(s, r, found.value); }
    }
  }

  lemma SubjectExactly(s: Submission, r: Registration, derive: (EntityId, string) -> EntityId)
    requires r.Valid()
    ensures NativeSubjectAgrees(s, r, derive) <==> SubjectAgrees(s, r, derive)
  {
    if s.native.Some? {
      var name := s.native.value.namespace;
      FindsNamespace(r.namespaces, name);
      var found := FindNamespace(r.namespaces, name);
      forall ns | ns in r.namespaces && ns.name == name ensures found == Some(ns) {
        var i :| 0 <= i < |r.namespaces| && r.namespaces[i] == ns;
        var j :| 0 <= j < |r.namespaces| && r.namespaces[j] == found.value;
        assert i == j;
      }
    }
  }

  lemma {:induction false} FindsNamespace(ns: seq<NativeNamespace>, name: string)
    ensures FindNamespace(ns, name).Some? ==>
              FindNamespace(ns, name).value in ns && FindNamespace(ns, name).value.name == name
    ensures FindNamespace(ns, name).None? ==> forall n :: n in ns ==> n.name != name
  {
    if ns != [] {
      assert ns == [ns[0]] + ns[1..];
      FindsNamespace(ns[1..], name);
    }
  }

  lemma ContextsExactly(s: Submission, r: Registration)
    ensures s.Addressed() == r.GateIds() <==> EachAddressed(s, r)
  {
    forall c | c in s.gateContexts ensures c.gateId in s.Addressed() {}
    forall b | b in r.gates ensures b.gateId in r.GateIds() {}
    if EachAddressed(s, r) {
      forall id ensures id in s.Addressed() <==> id in r.GateIds() {}
    }
  }

  lemma GatesExactly(r: Registration, mandated: set<string>)
    ensures EffectiveGateSet(r, mandated) != [] <==> r.gates != [] || mandated != {}
  {
    var extra := SortedTexts(mandated - r.GateIds());
    if r.gates == [] {
      assert r.GateIds() == {} && mandated - r.GateIds() == mandated;
      if mandated != {} {
        var id :| id in mandated;
        assert id in extra;
      }
      if extra != [] { assert extra[0] in extra; }
    }
  }

  /** The checks in their order: the first that fails, or else the citation's rule. */
  function ValidateSubmission(s: Submission, r: Registration, mandated: set<string>,
                              derive: (EntityId, string) -> EntityId)
      : (v: Result<Option<BypassRule>, ContractCode>)
    ensures v.Ok? && s.mode == Record && s.bypass.Some? ==>
              v.value.Some? && v.value.value in r.bypassRules && s.proposed == Some(v.value.value.action)
    ensures v.Ok? && s.mode == Gate ==> v.value.None? && EffectiveGateSet(r, mandated) != []
  {
    if r.reasonerId != s.reasonerId then Err(SubmissionInvalid)
    else
      var cited := ValidateCitation(s, r);
      if cited.Err? then cited
      else if !NativeSubjectAgrees(s, r, derive) then Err(NativeSubjectMismatch)
      else if !(s.Addressed() <= r.GateIds()) then Err(GateNotBound)
      else if !(r.GateIds() <= s.Addressed()) then Err(GateContextMissing)
      else if s.mode == Gate && EffectiveGateSet(r, mandated) == [] then Err(NoGates)
      else cited
  }
}

/** Replay: what enforcement makes, today, of the records and checks a bundle stored. */
module Replay {
  import opened Wrappers
  import opened Combinator
  import opened Predicates
  import opened Submissions
  import opened Enforcement
  import opened Intake
  import opened IntakeLaws

  datatype GateReplay = GateReplay(gateId: string, original: Option<Action>, replayed: Option<Action>)

  datatype ReplayResult = ReplayResult(
    original: Action, replayed: Action, originalHolds: Option<bool>, replayedHolds: Option<bool>,
    gates: seq<GateReplay>, competingMatch: bool, rule: Option<Rule>)
  {
    /** Nothing came out differently the second time. */
    predicate Matched() {
      original == replayed && originalHolds == replayedHolds && competingMatch &&
      forall g :: g in gates ==> g.original == g.replayed
    }
  }

  function Reenforce(record: GateRecord, groups: seq<set<string>>): GateRecord {
    if !Enforced(record) then record else record.(enforcement := Some(ResolveGateOutput(record.output, groups)))
  }

  function ReenforceAll(records: seq<GateRecord>, groups: seq<set<string>>): seq<GateRecord> {
    seq(|records|, i requires 0 <= i < |records| => Reenforce(records[i], groups))
  }

  function ActionIfAny(record: GateRecord): Option<Action> {
    if Enforced(record) then Some(ActionOf(record)) else None
  }

  function GateReplays(records: seq<GateRecord>, groups: seq<set<string>>): seq<GateReplay> {
    seq(|records|, i requires 0 <= i < |records| =>
          GateReplay(records[i].gateId, ActionIfAny(records[i]), ActionIfAny(Reenforce(records[i], groups))))
  }

  function Recheck(check: Option<BypassCheck>, evidence: Subject): Option<BypassCheck> {
    if check.Some? then Some(CheckOf(check.value.rule, evidence)) else None
  }

  function RecheckAll(checks: seq<BypassCheck>, evidence: Subject): seq<BypassCheck> {
    seq(|checks|, i requires 0 <= i < |checks| => CheckOf(checks[i].rule, evidence))
  }

  predicate SameVerdicts(a: seq<BypassCheck>, b: seq<BypassCheck>) {
    |a| == |b| && forall i :: 0 <= i < |a| ==> a[i].holds == b[i].holds
  }

  function HoldsOf(check: Option<BypassCheck>): Option<bool> {
    if check.Some? then Some(check.value.holds) else None
  }

  function Replayed(b: Bundle, r: Registration): Result<ReplayResult, EnforcementError> {
    var evidence := b.submission.context;
    var check, others := Recheck(b.check, evidence), RecheckAll(b.otherChecks, evidence);
    var decision := Combined(b.submission, ReenforceAll(b.gates, r.conflictGroups), r, check, others);
    if decision.Err? then Err(decision.error)
    else Ok(ReplayResult(b.action, decision.value.action, HoldsOf(b.check), HoldsOf(check),
                         GateReplays(b.gates, r.conflictGroups), SameVerdicts(others, b.otherChecks),
                         decision.value.rule))
  }

  /** Re-run the gate-level tiers, gate record by gate record; a skipped gate enforced nothing. */
  method ReplayGates(gates: seq<GateRecord>, groups: seq<set<string>>)
      returns (records: seq<GateRecord>, replays: seq<GateReplay>)
    ensures records == ReenforceAll(gates, groups) && replays == GateReplays(gates, groups)
  {
    records, replays := [], [];
    for i := 0 to |gates|
      invariant records == ReenforceAll(gates, groups)[..i]
      invariant replays == GateReplays(gates, groups)[..i]
    {
      var record := gates[i];
      if !Enforced(record) {
        records := records + [record];
        replays := replays + [GateReplay(record.gateId, None, None)];
        continue;
      }
      var enforcement := ResolveGateOutput(record.output, groups);
      records := records + [record.(enforcement := Some(enforcement))];
      replays := replays + [GateReplay(record.gateId, Some(ActionOf(record)), Some(enforcement.action))];
    }
  }

  method RecheckRules(checks: seq<BypassCheck>, evidence: Subject) returns (again: seq<BypassCheck>)
    ensures again == RecheckAll(checks, evidence)
  {
    again := [];
    for i := 0 to |checks|
      invariant again == RecheckAll(checks, evidence)[..i]
    {
      var c := EvaluateBypass(checks[i].rule, evidence);
      again := again + [c];
    }
  }

  /** Gates, then rules, then the decision, each computed again from what the bundle stored. */
  method ReplayBundle(b: Bundle, r: Registration) returns (result: Result<ReplayResult, EnforcementError>)
    ensures result == Replayed(b, r)
  {
    var records, replays := ReplayGates(b.gates, r.conflictGroups);
    var evidence := b.submission.context;
    var check: Option<BypassCheck> := None;
    if b.check.Some? {
      var c := EvaluateBypass(b.check.value.rule, evidence);
      check := Some(c);
    }
    var others := RecheckRules(b.otherChecks, evidence);
    var decision := ResolveDecision(b.submission, records, r, check, others);
    if decision.Err? { return Err(decision.error); }
    result := Ok(ReplayResult(b.action, decision.value.action, HoldsOf(b.check), HoldsOf(check), replays,
                              SameVerdicts(others, b.otherChecks), decision.value.rule));
  }

  // --- replay reproduces ------------------------------------------------------------------------

  /** The registration's enforcement profile: all replay reads of it. */
  ghost predicate SameProfile(a: Registration, b: Registration) {
    a.novelFeature == b.novelFeature && a.conflictGroups == b.conflictGroups
  }

  lemma RecordsReenforce(d: Deployment, mode: Mode, gateSet: seq<GateBinding>, answers: string -> Invocation,
                         groups: seq<set<string>>)
    ensures var records := GateRecords(d, mode, gateSet, answers, groups); ReenforceAll(records, groups) == records
  {
    var records := GateRecords(d, mode, gateSet, answers, groups);
    forall i | 0 <= i < |records| ensures Reenforce(records[i], groups) == records[i] {
      if Enforced(records[i]) {
        var b := EnforcedWasRun(d, mode, gateSet, answers, groups, records[i]);
      }
    }
  }

  lemma ChecksRecheck(checks: seq<BypassCheck>, evidence: Subject)
    requires forall c :: c in checks ==> c == CheckOf(c.rule, evidence)
    ensures RecheckAll(checks, evidence) == checks
  {
    forall i | 0 <= i < |checks| ensures RecheckAll(checks, evidence)[i] == checks[i] {
      assert checks[i] in checks;
    }
  }

  /** Replaying a decided bundle against a registration with the same profile reproduces the action,
      the decision-level rule, every gate's action and every bypass check. */
  lemma ReplayReproduces(d: Deployment, s: Submission, r: Registration, answers: string -> Invocation, b: Bundle,
                         p: Registration)
    requires Decided(d, s, r, answers, b.decisionId, b.identity, b.registrationVersion.GetOr("")) == Ok(b)
    requires s.Valid() && SameProfile(r, p)
    ensures Replayed(b, p).Ok? && Replayed(b, p).value.Matched() && Replayed(b, p).value.rule == b.rule
  {
    DecidedParts(d, s, r, answers, b);
    DecidedSubmission(d, s, r, answers, b);
    RecordsReenforce(d, s.mode, EffectiveGateSet(r, d.mandated), answers, r.conflictGroups);
    OthersAreChecks(s, r, b);
    ChecksRecheck(b.otherChecks, s.context);
    ReplaySame(b, r, p);
  }

  lemma OthersAreChecks(s: Submission, r: Registration, b: Bundle)
    requires ValidateCitation(s, r).Ok? && b.otherChecks == CheckedOthers(ValidateCitation(s, r).value, s, r)
    ensures forall c :: c in b.otherChecks ==> c == CheckOf(c.rule, s.context)
  {
  }

  lemma ReplaySame(b: Bundle, r: Registration, p: Registration)
    requires SameProfile(r, p) &&
             Combined(b.submission, b.gates, r, b.check, b.otherChecks) == Ok(Decision(b.action, b.rule))
    requires ReenforceAll(b.gates, p.conflictGroups) == b.gates
    requires Recheck(b.check, b.submission.context) == b.check
    requires RecheckAll(b.otherChecks, b.submission.context) == b.otherChecks
    ensures Replayed(b, p).Ok? && Replayed(b, p).value.Matched() && Replayed(b, p).value.rule == b.rule
  {
    assert Combined(b.submission, b.gates, p, b.check, b.otherChecks) ==
      Combined(b.submission, b.gates, r, b.check, b.otherChecks);
    var replays := GateReplays(b.gates, p.conflictGroups);
    forall i | 0 <= i < |replays| ensures replays[i].original == replays[i].replayed {
      assert ReenforceAll(b.gates, p.conflictGroups)[i] == b.gates[i];
    }
  }
}

/** What replay computes again, and what it then compares, over the bundle's own records and checks. */
module ReplayLaws {
  import opened Wrappers
  import opened Combinator
  import opened Predicates
  import opened Submissions
  import opened Enforcement
  import opened GateLaws
  import opened DecisionLaws
  import opened Intake
  import opened BundleLaws
  import opened Replay

  /** The record, its stored output enforced afresh; a skipped gate stays as it is. */
  ghost predicate RunAgain(x: GateRecord, groups: seq<set<string>>, y: GateRecord) {
    y == if x.enforcement.None? then x else x.(enforcement := Some(Reference(x.output, groups)))
  }

  /** The check's rule on the stored evidence. */
  ghost predicate CheckedAgain(x: BypassCheck, context: Subject, y: BypassCheck) {
    y.rule == x.rule && Checks(y, context)
  }

  /** Every record, the cited check and every other check, computed afresh from what the bundle stored. */
  ghost predicate Rerun(b: Bundle, groups: seq<set<string>>, records: seq<GateRecord>, check: Option<BypassCheck>,
                        others: seq<BypassCheck>) {
    && |records| == |b.gates|
    && (forall i :: 0 <= i < |records| ==> RunAgain(b.gates[i], groups, records[i]))
    && (check.Some? <==> b.check.Some?)
    && (check.Some? ==> CheckedAgain(b.check.value, b.submission.context, check.value))
    && |others| == |b.otherChecks|
    && forall i :: 0 <= i < |others| ==> CheckedAgain(b.otherChecks[i], b.submission.context, others[i])
  }

  /** A gate's replay: its stored action, and its stored output's enforcement under the groups; nothing
      of a gate that was skipped. */
  ghost predicate GateReplayed(x: GateRecord, groups: seq<set<string>>, g: GateReplay) {
    g.gateId == x.gateId &&
    if x.enforcement.None? then g.original == None && g.replayed == None
    else g.original == Some(x.enforcement.value.action) && g.replayed == Some(Reference(x.output, groups).action)
  }

  lemma RerunIs(b: Bundle, r: Registration)
      returns (records: seq<GateRecord>, check: Option<BypassCheck>, others: seq<BypassCheck>)
    ensures Rerun(b, r.conflictGroups, records, check, others)
    ensures records == ReenforceAll(b.gates, r.conflictGroups)
    ensures check == Recheck(b.check, b.submission.context)
    ensures others == RecheckAll(b.otherChecks, b.submission.context)
  {
    records := ReenforceAll(b.gates, r.conflictGroups);
    check, others := Recheck(b.check, b.submission.context), RecheckAll(b.otherChecks, b.submission.context);
    forall x: GateRecord ensures RunAgain(x, r.conflictGroups, Reenforce(x, r.conflictGroups)) {
      GateIsExact(x.output, r.conflictGroups);
    }
    forall x: BypassCheck ensures CheckedAgain(x, b.submission.context, CheckOf(x.rule, b.submission.context)) {
      ObservedAreMentioned(x.rule.predicate_, b.submission.context);
    }
  }

  /** Replay computes every gate, every check and the decision again, from the stored outputs, evidence
      and proposal, and reports the stored results beside them. */
  lemma ReplayRecomputes(b: Bundle, r: Registration)
      returns (records: seq<GateRecord>, check: Option<BypassCheck>, others: seq<BypassCheck>)
    requires Replayed(b, r).Ok?
    ensures Rerun(b, r.conflictGroups, records, check, others)
    ensures var v := Replayed(b, r).value;
            && IsDecision(b.submission, records, r, check, others, Decision(v.replayed, v.rule))
            && v.original == b.action
            && |v.gates| == |b.gates|
            && (forall i :: 0 <= i < |b.gates| ==> GateReplayed(b.gates[i], r.conflictGroups, v.gates[i]))
            && v.originalHolds == (if b.check.Some? then Some(b.check.value.holds) else None)
            && v.replayedHolds == (if check.Some? then Some(check.value.holds) else None)
            && (v.competingMatch <==>
                  forall i :: 0 <= i < |others| ==> others[i].holds == b.otherChecks[i].holds)
  {
    records, check, others := RerunIs(b, r);
    DecisionIsExact(b.submission, records, r, check, others);
    forall i | 0 <= i < |b.gates| ensures GateReplayed(b.gates[i], r.conflictGroups, Replayed(b, r).value.gates[i]) {
      GateIsExact(b.gates[i].output, r.conflictGroups);
    }
  }

  ghost predicate Holds(rule: BypassRule, context: Subject) { Evaluate(rule.predicate_, context) == Ok(true) }

  /** Replay matches exactly when every stored gate action, the cited verdict, every other verdict and
      the action are those the stored outputs and evidence give. */
  lemma MatchedExactly(b: Bundle, r: Registration)
    requires Replayed(b, r).Ok?
    ensures Replayed(b, r).value.Matched() <==>
            && (forall x :: x in b.gates && x.enforcement.Some? ==>
                  x.enforcement.value.action == Reference(x.output, r.conflictGroups).action)
            && (b.check.Some? ==> (b.check.value.holds <==> Holds(b.check.value.rule, b.submission.context)))
            && (forall c :: c in b.otherChecks ==> (c.holds <==> Holds(c.rule, b.submission.context)))
            && b.action == Replayed(b, r).value.replayed
  {
    var records, check, others := ReplayRecomputes(b, r);
    var v := Replayed(b, r).value;
    GatesMatch(b.gates, r.conflictGroups, v.gates);
    ChecksMatch(b.otherChecks, others, b.submission.context);
  }

  lemma GatesMatch(records: seq<GateRecord>, groups: seq<set<string>>, gates: seq<GateReplay>)
    requires |gates| == |records| && forall i :: 0 <= i < |gates| ==> GateReplayed(records[i], groups, gates[i])
    ensures (forall g :: g in gates ==> g.original == g.replayed) <==>
            forall x :: x in records && x.enforcement.Some? ==>
              x.enforcement.value.action == Reference(x.output, groups).action
  {
    if forall g :: g in gates ==> g.original == g.replayed {
      forall x | x in records && x.enforcement.Some?
        ensures x.enforcement.value.action == Reference(x.output, groups).action
      {
        var i :| 0 <= i < |records| && records[i] == x;
        assert GateReplayed(records[i], groups, gates[i]) && gates[i] in gates;
      }
    } else {
      var g :| g in gates && g.original != g.replayed;
      var i :| 0 <= i < |gates| && gates[i] == g;
      assert GateReplayed(records[i], groups, gates[i]) && records[i] in records;
    }
  }

  lemma ChecksMatch(checks: seq<BypassCheck>, again: seq<BypassCheck>, context: Subject)
    requires |again| == |checks| && forall i :: 0 <= i < |again| ==> CheckedAgain(checks[i], context, again[i])
    ensures (forall i :: 0 <= i < |again| ==> again[i].holds == checks[i].holds) <==>
            forall c :: c in checks ==> (c.holds <==> Holds(c.rule, context))
  {
    forall i | 0 <= i < |again| ensures again[i].holds <==> Holds(checks[i].rule, context) {
      assert CheckedAgain(checks[i], context, again[i]);
    }
    if forall i :: 0 <= i < |again| ==> again[i].holds == checks[i].holds {
      forall c | c in checks ensures c.holds <==> Holds(c.rule, context) {
        var i :| 0 <= i < |checks| && checks[i] == c;
        assert again[i].holds == checks[i].holds;
      }
    } else {
      var i :| 0 <= i < |again| && again[i].holds != checks[i].holds;
      assert checks[i] in checks;
    }
  }

  /** Replay fails only where the decision itself would: for a record stored without its check, and when
      nothing is left to combine. */
  lemma ReplayFails(b: Bundle, r: Registration)
      returns (records: seq<GateRecord>, check: Option<BypassCheck>, others: seq<BypassCheck>)
    requires Replayed(b, r).Err?
    ensures Rerun(b, r.conflictGroups, records, check, others)
    ensures if b.submission.mode == Record && b.check.None? then Replayed(b, r) == Err(MissingBypassCheck)
            else Replayed(b, r) == Err(NothingToCombine) &&
                 forall a :: !Enters(b.submission, records, r, check, others, a)
  {
    records, check, others := RerunIs(b, r);
    DecisionIsExact(b.submission, records, r, check, others);
  }

  /** An advisory gate that allows, flags a conflict and cites evidence in the EU, stored as allowed. */
  const ALTERED_RECORD := GateRecord(
    "policy", false, Ran,
    Some(GateOutput("policy", false, Some(GateVerdict([ALLOW], ["jurisdiction_conflict"], 0.9, false, None)),
                    [EvidenceRef("doc", {"EU"}, None, None)])),
    Some(Decision(ALLOW, None)))

  const ALTERED := Bundle(
    1, Submission("r", "e", 1, "person", None, Gate, None, None, Subject(Bool(false), map[]), []), None,
    [ALTERED_RECORD], ALLOW, None, None, [], Some("v1"))

  /** Replay does not match it, under any registration: the gate is enforced again, as HOLD. */
  lemma AlteredDoesNotMatch(r: Registration)
    ensures Replayed(ALTERED, r).Ok? && !Replayed(ALTERED, r).value.Matched()
    ensures Replayed(ALTERED, r).value.gates == [GateReplay("policy", Some(ALLOW), Some(HOLD))]
  {
    var o := ALTERED_RECORD.output.value;
    assert "EU" in o.evidence[0].jurisdictions && o.evidence[0] in o.evidence;
    assert Reference(ALTERED_RECORD.output, r.conflictGroups).action == HOLD;
    assert ALTERED.gates[0] == ALTERED_RECORD;
    if Replayed(ALTERED, r).Err? {
      var records, check, others := ReplayFails(ALTERED, r);
      assert RunAgain(ALTERED.gates[0], r.conflictGroups, records[0]) && records[0] in records;
      assert Acted(records, false, HOLD) || Acted(records, false, BLOCK);
      assert Enters(ALTERED.submission, records, r, check, others, HOLD);
    }
    var records, check, others := ReplayRecomputes(ALTERED, r);
    MatchedExactly(ALTERED, r);
    assert ALTERED_RECORD in ALTERED.gates;
    assert GateReplayed(ALTERED.gates[0], r.conflictGroups, Replayed(ALTERED, r).value.gates[0]);
  }
}

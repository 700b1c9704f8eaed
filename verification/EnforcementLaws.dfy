/** Laws of the two enforcement levels: the single-gate cascade they refine, what the decision
    depends on, and what can never lower it. */
module EnforcementLaws {
  import opened Wrappers
  import opened Combinator
  import opened Predicates
  import opened Submissions
  import opened Enforcement
  import opened GateLaws

  // --- the cascade the two levels refine -------------------------------------------------------

  /** Tiers 1 to 6 in order on one output, the novel-entity tier third. */
  ghost function Cascade(output: Option<GateOutput>, novel: bool, groups: seq<set<string>>): Decision {
    if output.None? || output.value.verdict.None? then Decision(HOLD, Some(Tier1SchemaFailure))
    else
      var o, v := output.value, output.value.verdict.value;
      if Probed(o, v) then Decision(BLOCK, Some(Tier2AdversarialProbe))
      else if novel then Decision(HOLD, Some(Tier3NovelEntity))
      else if Unsure(o, v) then Decision(HOLD, Some(Tier4LowConfidence))
      else if Located(o.evidence) && (Flagged(v) || Spans(o.evidence, groups)) then
        Decision(HOLD, Some(Tier5JurisdictionConflict))
      else Decision(Strict(v.permitted), None)
  }

  /** When a lone advisory gate decides, with nothing proposed, both levels together come to the
      cascade's action and credit the cascade's rule. */
  lemma TwoLevelsRefineCascade(s: Submission, record: GateRecord, r: Registration)
    requires s.mode == Gate && s.proposed.None? && !record.mandatory
    requires record.enforcement == Some(ResolveGateOutput(record.output, r.conflictGroups))
    ensures var d := Combined(s, [record], r, None, []);
            d.Ok? && Decision(d.value.action, CreditedRule(d.value, [record], None, [])) ==
                     Cascade(record.output, Marked(s.context, r.novelFeature), r.conflictGroups)
  {
    GateIsExact(record.output, r.conflictGroups);
    NovelIsMarked(s.context, r.novelFeature);
    LoneAdvisory(s, record, r);
    OneAdvisory(record);
  }

  /** What the decision level makes of one advisory record. */
  lemma LoneAdvisory(s: Submission, record: GateRecord, r: Registration)
    requires s.mode == Gate && s.proposed.None? && !record.mandatory && Enforced(record)
    ensures var side := AdvisorySide([record], Novel(s.context, r.novelFeature));
            && side.action.Some?
            && Combined(s, [record], r, None, []) == Ok(Decision(side.action.value, side.rule))
    ensures Novel(s.context, r.novelFeature) ==>
              AdvisorySide([record], true) ==
              match record.enforcement.value.rule
              case Some(Tier2AdversarialProbe) => Side(None, Some(BLOCK))
              case Some(Tier1SchemaFailure) => Side(None, Some(HOLD))
              case _ => Side(Some(Tier3NovelEntity), Some(HOLD))
    ensures FirstCredit([record], ActionOf(record)) == record.enforcement.value.rule
  {
    OneAdvisory(record);
    assert record in [record];
  }

  lemma OneAdvisory(record: GateRecord)
    requires Enforced(record) && !record.mandatory
    ensures Select([record], true) == [] && Select([record], false) == [record]
    ensures ActionsOf([record]) == [ActionOf(record)]
  {
    assert [record][1..] == [];
  }

  /** The older resolver in one pass: its jurisdiction tier does not ask for evidence. */
  function SinglePass(verdict: Option<GateVerdict>, jurisdictions: set<string>, novel: bool,
                      groups: seq<set<string>>): Decision {
    if verdict.None? then Decision(HOLD, Some(Tier1SchemaFailure))
    else
      var v := verdict.value;
      if "adversarial_probe_detected" in v.controls then Decision(BLOCK, Some(Tier2AdversarialProbe))
      else if novel then Decision(HOLD, Some(Tier3NovelEntity))
      else if v.confidence < 0.60 && Strict(v.permitted) in {HOLD, BLOCK} then
        Decision(HOLD, Some(Tier4LowConfidence))
      else if Flagged(v) || |set g | g in groups && jurisdictions * g != {}| >= 2 then
        Decision(HOLD, Some(Tier5JurisdictionConflict))
      else Decision(Strict(v.permitted), None)
  }

  /** The evidence rule decides the output: without jurisdictions a flagged conflict is not read. */
  ghost predicate EvidenceRuleApplies(o: GateOutput, novel: bool) {
    && o.verdict.Some? && !Probed(o, o.verdict.value) && !novel && !Unsure(o, o.verdict.value)
    && !Located(o.evidence) && Flagged(o.verdict.value)
  }

  /** A non-deterministic gate keeps the single-pass action and rule exactly when the evidence rule
      does not apply. */
  lemma CascadeMatchesSinglePass(o: GateOutput, novel: bool, groups: seq<set<string>>)
    requires !o.deterministic
    ensures Cascade(Some(o), novel, groups) == SinglePass(o.verdict, Jurisdictions(o.evidence), novel, groups) <==>
            !EvidenceRuleApplies(o, novel)
  {
    ConflictsRead(o.evidence, groups);
  }

  lemma ConflictsRead(evidence: seq<EvidenceRef>, groups: seq<set<string>>)
    ensures |set g | g in groups && Jurisdictions(evidence) * g != {}| >= 2 <==> Spans(evidence, groups)
    ensures Spans(evidence, groups) ==> Located(evidence)
  {
    EvidenceIsRead(evidence, groups);
    assert GroupsTouched(Jurisdictions(evidence), groups) == (set g | g in groups && Jurisdictions(evidence) * g != {});
  }

  /** An output without any jurisdiction in its evidence, flagging a conflict all the same. */
  const FLAGGED := GateOutput(
    "policy", false, Some(GateVerdict([ALLOW], ["jurisdiction_conflict"], 1.0, false, None)), [])

  /** The condition can fail: the single pass holds that output, the cascade allows it. */
  lemma EvidenceRuleDiffers(groups: seq<set<string>>)
    ensures Cascade(Some(FLAGGED), false, groups) == Decision(ALLOW, None)
    ensures SinglePass(FLAGGED.verdict, Jurisdictions(FLAGGED.evidence), false, groups) ==
            Decision(HOLD, Some(Tier5JurisdictionConflict))
  {
  }

  // --- what the decision depends on ---------------------------------------------------------------

  ghost predicate SameRecords(a: seq<GateRecord>, b: seq<GateRecord>) {
    forall x :: x in a <==> x in b
  }

  lemma SelectionSame(a: seq<GateRecord>, b: seq<GateRecord>, mandatory: bool)
    requires SameRecords(a, b)
    ensures SameRecords(Select(a, mandatory), Select(b, mandatory))
    ensures forall x :: x in ActionsOf(Select(a, mandatory)) <==> x in ActionsOf(Select(b, mandatory))
  {
  }

  lemma SideSame(a: seq<GateRecord>, b: seq<GateRecord>, novel: bool)
    requires SameRecords(a, b) && (forall x :: x in a ==> Enforced(x)) && (forall x :: x in b ==> Enforced(x))
    requires forall x :: x in ActionsOf(a) <==> x in ActionsOf(b)
    ensures AdvisorySide(a, novel) == AdvisorySide(b, novel)
  {
    EmptySame(a, b);
    if novel {
      RulesSame(a, b, Tier2AdversarialProbe);
      RulesSame(a, b, Tier1SchemaFailure);
    } else if a != [] {
      StrictestSame(ActionsOf(a), ActionsOf(b));
    }
  }

  lemma EmptySame(a: seq<GateRecord>, b: seq<GateRecord>)
    requires SameRecords(a, b)
    ensures a == [] <==> b == []
  {
    assert a != [] ==> a[0] in b;
    assert b != [] ==> b[0] in a;
  }

  lemma RulesSame(a: seq<GateRecord>, b: seq<GateRecord>, rule: Rule)
    requires SameRecords(a, b)
    ensures AnyRule(a, rule) <==> AnyRule(b, rule)
    ensures AllRule(a, rule) <==> AllRule(b, rule)
  {
  }

  lemma StrictestSame(a: seq<Action>, b: seq<Action>)
    requires a != [] && b != [] && forall x :: x in a <==> x in b
    ensures Strictest(a) == Strictest(b)
  {
    assert Strictest(a) in b && Strictest(b) in a;
  }

  lemma TermsSame(mode: Mode, context: Subject, a: seq<GateRecord>, b: seq<GateRecord>, feature: Option<string>,
                  cited: Option<BypassCheck>, competing: seq<BypassCheck>)
    requires SameRecords(a, b) && (mode == Record ==> cited.Some?)
    ensures var ta := DecisionTerms(mode, context, a, feature, cited, competing);
            var tb := DecisionTerms(mode, context, b, feature, cited, competing);
            ta.rule == tb.rule && forall x :: x in ta.actions <==> x in tb.actions
  {
    SelectionSame(a, b, true);
    SelectionSame(a, b, false);
    SideSame(Select(a, false), Select(b, false), Novel(context, feature));
    assert Blocks(Select(a, true)) <==> Blocks(Select(b, true));
  }

  /** Gate order cannot change a decision: any records with the same members, so any permutation of
      them, give the same action and the same decision-level rule. */
  lemma OrderIsInvisible(s: Submission, a: seq<GateRecord>, b: seq<GateRecord>, r: Registration,
                         cited: Option<BypassCheck>, competing: seq<BypassCheck>)
    requires SameRecords(a, b)
    ensures Combined(s, a, r, cited, competing) == Combined(s, b, r, cited, competing)
  {
    if s.mode == Gate || cited.Some? {
      TermsSame(s.mode, s.context, a, b, r.novelFeature, cited, competing);
      var ta := DecisionTerms(s.mode, s.context, a, r.novelFeature, cited, competing);
      var tb := DecisionTerms(s.mode, s.context, b, r.novelFeature, cited, competing);
      SameActions(s.proposed, ta.actions, tb.actions);
    }
  }

  lemma SameActions(p: Option<Action>, a: seq<Action>, b: seq<Action>)
    requires forall x :: x in a <==> x in b
    ensures MostRestrictive(p, a) == MostRestrictive(p, b)
  {
    var ca, cb := Candidates(p, a), Candidates(p, b);
    assert forall x :: x in ca <==> x in cb;
    SameEmptiness(ca, cb);
    if ca != [] { StrictestSame(ca, cb); }
  }

  lemma SameEmptiness(a: seq<Action>, b: seq<Action>)
    requires forall x :: x in a <==> x in b
    ensures a == [] <==> b == []
  {
    assert a != [] ==> a[0] in b;
    assert b != [] ==> b[0] in a;
  }

  // --- what cannot lower it ------------------------------------------------------------------------

  /** The combined action is at least the proposal, whatever the records. */
  lemma ProposalBinds(s: Submission, records: seq<GateRecord>, r: Registration, cited: Option<BypassCheck>,
                      competing: seq<BypassCheck>)
    requires Combined(s, records, r, cited, competing).Ok? && s.proposed.Some?
    ensures AtLeast(Combined(s, records, r, cited, competing).value.action, s.proposed.value)
  {
    var terms := DecisionTerms(s.mode, s.context, records, r.novelFeature, cited, competing);
    assert s.proposed.value in Candidates(s.proposed, terms.actions);
  }

  /** It is at least every mandatory gate's action and, gated and not novel, every advisory gate's. */
  lemma NothingRelaxes(s: Submission, records: seq<GateRecord>, r: Registration, cited: Option<BypassCheck>,
                       competing: seq<BypassCheck>, x: GateRecord)
    requires Combined(s, records, r, cited, competing).Ok? && x in records && Enforced(x)
    ensures x.mandatory || (s.mode == Gate && !Novel(s.context, r.novelFeature)) ==>
              AtLeast(Combined(s, records, r, cited, competing).value.action, ActionOf(x))
  {
    var terms := DecisionTerms(s.mode, s.context, records, r.novelFeature, cited, competing);
    var candidates := Candidates(s.proposed, terms.actions);
    if x.mandatory {
      assert x in Select(records, true);
      assert ActionOf(x) in ActionsOf(Select(records, true));
      assert ActionOf(x) in terms.actions;
      assert ActionOf(x) in candidates;
    } else if s.mode == Gate && !Novel(s.context, r.novelFeature) {
      AdvisoryCounts(s, records, r, cited, competing, x);
    }
  }

  lemma AdvisoryCounts(s: Submission, records: seq<GateRecord>, r: Registration, cited: Option<BypassCheck>,
                       competing: seq<BypassCheck>, x: GateRecord)
    requires Combined(s, records, r, cited, competing).Ok? && x in records && Enforced(x) && !x.mandatory
    requires s.mode == Gate && !Novel(s.context, r.novelFeature)
    ensures AtLeast(Combined(s, records, r, cited, competing).value.action, ActionOf(x))
  {
    var terms := DecisionTerms(s.mode, s.context, records, r.novelFeature, cited, competing);
    var advisory := Select(records, false);
    assert x in advisory;
    assert ActionOf(x) in ActionsOf(advisory);
    if Blocks(Select(records, true)) {
      assert ActionOf(x) in terms.actions;
      assert ActionOf(x) in Candidates(s.proposed, terms.actions);
    } else {
      assert Strictest(ActionsOf(advisory)) in terms.actions;
      assert Strictest(ActionsOf(advisory)) in Candidates(s.proposed, terms.actions);
    }
  }
}

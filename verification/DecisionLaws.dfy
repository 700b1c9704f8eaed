/** What a decision comes to, over its records, checks and evidence themselves: the actions that enter it,
    the strictest of them, and the rule credited. */
module DecisionLaws {
  import opened Wrappers
  import opened Combinator
  import opened Submissions
  import opened Enforcement
  import opened GateLaws

  /** ALLOW, CHALLENGE, HOLD, BLOCK, from mild to strict. */
  predicate Stricter(a: Action, b: Action) {
    match a
    case BLOCK => b != BLOCK
    case HOLD => b == ALLOW || b == CHALLENGE
    case CHALLENGE => b == ALLOW
    case ALLOW => false
  }

  lemma LadderIs(a: Action, b: Action)
    ensures AtLeast(a, b) <==> !Stricter(b, a)
  {
  }

  /** Some mandatory, or some advisory, record was enforced as the action; or by the rule. */
  ghost predicate Acted(records: seq<GateRecord>, mandatory: bool, a: Action) {
    exists x :: x in records && x.mandatory == mandatory && x.enforcement.Some? && x.enforcement.value.action == a
  }

  ghost predicate Fired(records: seq<GateRecord>, mandatory: bool, rule: Option<Rule>) {
    exists x :: x in records && x.mandatory == mandatory && x.enforcement.Some? && x.enforcement.value.rule == rule
  }

  /** A rule not cited holds and asks for the action, stricter than the cited rule's. */
  ghost predicate Overrides(cited: BypassCheck, competing: seq<BypassCheck>, a: Action) {
    exists c :: c in competing && c.holds && c.rule.action == a && Stricter(a, cited.rule.action)
  }

  /** A gated decision on a novel entity that no mandatory gate blocks. */
  ghost predicate NovelDecides(s: Submission, records: seq<GateRecord>, r: Registration) {
    s.mode == Gate && Marked(s.context, r.novelFeature) && !Acted(records, true, BLOCK)
  }

  /** The actions a decision chooses from: the proposal, every mandatory gate's; for a record, HOLD when
      the cited rule does not hold and whatever overrides it; and gated, every advisory gate's, or, on a
      novel entity, BLOCK after a probe and HOLD otherwise. */
  ghost predicate Enters(s: Submission, records: seq<GateRecord>, r: Registration, cited: Option<BypassCheck>,
                         competing: seq<BypassCheck>, a: Action) {
    || s.proposed == Some(a)
    || Acted(records, true, a)
    || (s.mode == Record && cited.Some? &&
        ((a == HOLD && !cited.value.holds) || Overrides(cited.value, competing, a)))
    || (s.mode == Gate && !NovelDecides(s, records, r) && Acted(records, false, a))
    || (NovelDecides(s, records, r) && a == if Fired(records, false, Some(Tier2AdversarialProbe)) then BLOCK else HOLD)
  }

  /** Every advisory record that was enforced had no valid verdict, and there is one. */
  ghost predicate AllFailed(records: seq<GateRecord>) {
    && (exists x :: x in records && !x.mandatory && x.enforcement.Some?)
    && forall rule :: Fired(records, false, rule) ==> rule == Some(Tier1SchemaFailure)
  }

  ghost function RuleOf(s: Submission, records: seq<GateRecord>, r: Registration, cited: Option<BypassCheck>,
                        competing: seq<BypassCheck>): Option<Rule> {
    if s.mode == Record then
      if cited.None? then None
      else if exists a :: Overrides(cited.value, competing, a) && (cited.value.holds || Stricter(a, HOLD)) then
        Some(BypassRuleSuperseded)
      else if !cited.value.holds then Some(BypassRuleNotSatisfied)
      else None
    else if NovelDecides(s, records, r) && !Fired(records, false, Some(Tier2AdversarialProbe)) &&
      !AllFailed(records) then Some(Tier3NovelEntity)
    else None
  }

  /** The strictest action that enters, under that rule. */
  ghost predicate IsDecision(s: Submission, records: seq<GateRecord>, r: Registration, cited: Option<BypassCheck>,
                             competing: seq<BypassCheck>, d: Decision) {
    && Enters(s, records, r, cited, competing, d.action)
    && (forall a :: Enters(s, records, r, cited, competing, a) ==> !Stricter(a, d.action))
    && d.rule == RuleOf(s, records, r, cited, competing)
  }

  /** A decision is exactly that; it fails for a record without its check, and when nothing enters. */
  lemma DecisionIsExact(s: Submission, records: seq<GateRecord>, r: Registration, cited: Option<BypassCheck>,
                        competing: seq<BypassCheck>)
    ensures s.mode == Record && cited.None? ==> Combined(s, records, r, cited, competing) == Err(MissingBypassCheck)
    ensures s.mode == Gate || cited.Some? ==>
              var d := Combined(s, records, r, cited, competing);
              && (d.Ok? ==> IsDecision(s, records, r, cited, competing, d.value))
              && (d.Err? ==> d.error == NothingToCombine && forall a :: !Enters(s, records, r, cited, competing, a))
  {
    if s.mode == Gate || cited.Some? {
      var terms := DecisionTerms(s.mode, s.context, records, r.novelFeature, cited, competing);
      forall a | a in Candidates(s.proposed, terms.actions) ensures Enters(s, records, r, cited, competing, a) {
        CandidateEnters(s, records, r, cited, competing, a);
      }
      forall a | Enters(s, records, r, cited, competing, a) ensures Bounds(Candidates(s.proposed, terms.actions), a) {
        EnteringIsBounded(s, records, r, cited, competing, a);
      }
      RuleIsExact(s, records, r, cited, competing);
      forall a, b ensures AtLeast(a, b) <==> !Stricter(b, a) { LadderIs(a, b); }
    }
  }

  ghost predicate Bounds(actions: seq<Action>, a: Action) { exists b :: b in actions && AtLeast(b, a) }

  lemma SelectedActed(records: seq<GateRecord>, mandatory: bool, a: Action)
    ensures a in ActionsOf(Select(records, mandatory)) <==> Acted(records, mandatory, a)
  {
    if x :| x in records && x.mandatory == mandatory && x.enforcement.Some? && x.enforcement.value.action == a {
      assert x in Select(records, mandatory) && Enforced(x) && ActionOf(x) == a;
    }
    if a in ActionsOf(Select(records, mandatory)) {
      var x :| x in Select(records, mandatory) && Enforced(x) && ActionOf(x) == a;
      assert x in records && x.mandatory == mandatory;
    }
  }

  lemma SelectedFired(records: seq<GateRecord>, mandatory: bool, rule: Rule)
    ensures AnyRule(Select(records, mandatory), rule) <==> Fired(records, mandatory, Some(rule))
  {
    if x :| x in records && x.mandatory == mandatory && x.enforcement.Some? && x.enforcement.value.rule == Some(rule) {
      assert x in Select(records, mandatory) && Enforced(x);
    }
  }

  lemma SelectedBlocks(records: seq<GateRecord>)
    ensures Blocks(Select(records, true)) <==> Acted(records, true, BLOCK)
  {
    if x :| x in records && x.mandatory && x.enforcement.Some? && x.enforcement.value.action == BLOCK {
      assert x in Select(records, true) && Enforced(x) && ActionOf(x) == BLOCK;
    }
  }

  lemma AllSelectedFailed(records: seq<GateRecord>)
    ensures Select(records, false) != [] && AllRule(Select(records, false), Tier1SchemaFailure) <==> AllFailed(records)
  {
    var advisory := Select(records, false);
    if AllFailed(records) {
      var x :| x in records && !x.mandatory && x.enforcement.Some?;
      assert x in advisory;
      forall y | y in advisory ensures Enforced(y) && y.enforcement.value.rule == Some(Tier1SchemaFailure) {
        assert Fired(records, false, y.enforcement.value.rule);
      }
    }
    if advisory != [] && AllRule(advisory, Tier1SchemaFailure) {
      assert advisory[0] in advisory;
      forall rule | Fired(records, false, rule) ensures rule == Some(Tier1SchemaFailure) {
        var x :| x in records && !x.mandatory && x.enforcement.Some? && x.enforcement.value.rule == rule;
        assert x in advisory;
      }
    }
  }

  lemma OverridingIsStricter(cited: BypassCheck, competing: seq<BypassCheck>, a: Action)
    ensures a in StricterActions(competing, cited.rule.action) <==> Overrides(cited, competing, a)
  {
    LadderIs(cited.rule.action, a);
  }

  lemma RuleIsExact(s: Submission, records: seq<GateRecord>, r: Registration, cited: Option<BypassCheck>,
                    competing: seq<BypassCheck>)
    requires s.mode == Gate || cited.Some?
    ensures DecisionTerms(s.mode, s.context, records, r.novelFeature, cited, competing).rule ==
            RuleOf(s, records, r, cited, competing)
  {
    if s.mode == Record {
      FloorRule(cited.value, competing);
    } else {
      SelectedBlocks(records);
      NovelIsMarked(s.context, r.novelFeature);
      SelectedFired(records, false, Tier2AdversarialProbe);
      AllSelectedFailed(records);
    }
  }

  lemma FloorRule(cited: BypassCheck, competing: seq<BypassCheck>)
    ensures BypassFloors(cited, competing).rule ==
            if exists a :: Overrides(cited, competing, a) && (cited.holds || Stricter(a, HOLD)) then
              Some(BypassRuleSuperseded)
            else if !cited.holds then Some(BypassRuleNotSatisfied)
            else None
  {
    var stricter := StricterActions(competing, cited.rule.action);
    forall a ensures a in stricter <==> Overrides(cited, competing, a) { OverridingIsStricter(cited, competing, a); }
    if stricter != [] { assert Strictest(stricter) in stricter; }
    if a :| Overrides(cited, competing, a) && (cited.holds || Stricter(a, HOLD)) {
      assert a in stricter;
      assert AtLeast(Strictest(stricter), a);
    }
  }

  lemma CandidateEnters(s: Submission, records: seq<GateRecord>, r: Registration, cited: Option<BypassCheck>,
                        competing: seq<BypassCheck>, a: Action)
    requires s.mode == Gate || cited.Some?
    requires a in Candidates(s.proposed,
                             DecisionTerms(s.mode, s.context, records, r.novelFeature, cited, competing).actions)
    ensures Enters(s, records, r, cited, competing, a)
  {
    SelectedActed(records, true, a);
    if s.mode == Record {
      OverridingIsStricter(cited.value, competing, a);
    } else {
      SelectedBlocks(records);
      NovelIsMarked(s.context, r.novelFeature);
      SelectedFired(records, false, Tier2AdversarialProbe);
      AllSelectedFailed(records);
      SelectedActed(records, false, a);
    }
  }

  lemma EnteringIsBounded(s: Submission, records: seq<GateRecord>, r: Registration, cited: Option<BypassCheck>,
                          competing: seq<BypassCheck>, a: Action)
    requires (s.mode == Gate || cited.Some?) && Enters(s, records, r, cited, competing, a)
    ensures Bounds(Candidates(s.proposed,
                              DecisionTerms(s.mode, s.context, records, r.novelFeature, cited, competing).actions), a)
  {
    var terms := DecisionTerms(s.mode, s.context, records, r.novelFeature, cited, competing);
    var candidates := Candidates(s.proposed, terms.actions);
    SelectedActed(records, true, a);
    if s.proposed == Some(a) || Acted(records, true, a) {
      assert a in candidates;
    } else if s.mode == Record {
      OverridingIsStricter(cited.value, competing, a);
      FloorsBound(cited.value, competing, a);
      var b :| b in BypassFloors(cited.value, competing).actions && AtLeast(b, a);
      assert b in candidates;
    } else {
      AdvisoryBound(s, records, r, cited, competing, a);
      var b :| b in terms.actions && AtLeast(b, a);
      assert b in candidates;
    }
  }

  lemma FloorsBound(cited: BypassCheck, competing: seq<BypassCheck>, a: Action)
    requires (a == HOLD && !cited.holds) || Overrides(cited, competing, a)
    ensures Bounds(BypassFloors(cited, competing).actions, a)
  {
    OverridingIsStricter(cited, competing, a);
    if Overrides(cited, competing, a) {
      assert Strictest(StricterActions(competing, cited.rule.action)) in BypassFloors(cited, competing).actions;
    } else {
      assert HOLD in BypassFloors(cited, competing).actions;
    }
  }

  lemma AdvisoryBound(s: Submission, records: seq<GateRecord>, r: Registration, cited: Option<BypassCheck>,
                      competing: seq<BypassCheck>, a: Action)
    requires s.mode == Gate && Enters(s, records, r, cited, competing, a)
    requires s.proposed != Some(a) && !Acted(records, true, a)
    ensures Bounds(DecisionTerms(Gate, s.context, records, r.novelFeature, cited, competing).actions, a)
  {
    var advisory := Select(records, false);
    var terms := DecisionTerms(Gate, s.context, records, r.novelFeature, cited, competing);
    SelectedBlocks(records);
    NovelIsMarked(s.context, r.novelFeature);
    SelectedFired(records, false, Tier2AdversarialProbe);
    SelectedActed(records, false, a);
    if Blocks(Select(records, true)) {
      assert a in ActionsOf(advisory) && a in terms.actions;
    } else if !Marked(s.context, r.novelFeature) {
      assert a in ActionsOf(advisory);
      assert Strictest(ActionsOf(advisory)) in terms.actions;
    } else {
      assert a in terms.actions;
    }
  }

  // --- the credited rule ----------------------------------------------------------------------------

  /** The decision-level rule set the final action: it is HOLD for the novel entity and for an unmet
      citation, and the strictest overriding action for a superseded one. */
  ghost predicate SetsAction(d: Decision, cited: Option<BypassCheck>, other: seq<BypassCheck>) {
    || (d.rule in {Some(Tier3NovelEntity), Some(BypassRuleNotSatisfied)} && d.action == HOLD)
    || (d.rule == Some(BypassRuleSuperseded) && cited.Some? && Overrides(cited.value, other, d.action) &&
        forall a :: Overrides(cited.value, other, a) ==> !Stricter(a, d.action))
  }

  ghost predicate FirstActed(records: seq<GateRecord>, a: Action, k: int) {
    && 0 <= k < |records| && records[k].enforcement.Some? && records[k].enforcement.value.action == a
    && forall j :: 0 <= j < k && records[j].enforcement.Some? ==> records[j].enforcement.value.action != a
  }

  /** The decision-level rule is credited exactly when it set the action; otherwise the first record
      enforced as that action answers for it, and without one nobody. */
  lemma CreditIsExact(d: Decision, records: seq<GateRecord>, cited: Option<BypassCheck>, other: seq<BypassCheck>)
    ensures SetsAction(d, cited, other) ==> CreditedRule(d, records, cited, other) == d.rule
    ensures !SetsAction(d, cited, other) ==>
              && (forall k :: FirstActed(records, d.action, k) ==>
                    CreditedRule(d, records, cited, other) == records[k].enforcement.value.rule)
              && ((forall k :: !FirstActed(records, d.action, k)) ==> CreditedRule(d, records, cited, other) == None)
  {
    if cited.Some? { SetBySuperseding(d.action, cited.value, other); }
    forall k ensures FirstActed(records, d.action, k) <==> CreditsFirst(records, d.action, k) {}
    if exists k :: 0 <= k < |records| && Credits(records[k], d.action) {
      var k := FirstCrediting(records, d.action, |records|);
      assert CreditsFirst(records, d.action, k);
    }
  }

  lemma SetBySuperseding(final: Action, cited: BypassCheck, other: seq<BypassCheck>)
    ensures var floors := StricterActions(other, cited.rule.action);
            floors != [] && Strictest(floors) == final <==>
            Overrides(cited, other, final) && forall a :: Overrides(cited, other, a) ==> !Stricter(a, final)
  {
    var floors := StricterActions(other, cited.rule.action);
    forall a ensures a in floors <==> Overrides(cited, other, a) { OverridingIsStricter(cited, other, a); }
    forall a, b ensures AtLeast(a, b) <==> !Stricter(b, a) { LadderIs(a, b); }
    if floors != [] { assert Strictest(floors) in floors; }
  }

  lemma {:induction false} FirstCrediting(records: seq<GateRecord>, final: Action, n: nat) returns (k: nat)
    requires n <= |records| && exists j :: 0 <= j < n && Credits(records[j], final)
    ensures k < n && CreditsFirst(records, final, k)
  {
    if exists j :: 0 <= j < n - 1 && Credits(records[j], final) {
      k := FirstCrediting(records, final, n - 1);
    } else {
      k := n - 1;
    }
  }
}

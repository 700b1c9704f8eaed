/** What one gate's output is enforced as, tier by tier, over the output's own fields: the control it
    carries, the words of its escalation, its confidence, its permitted actions and its evidence. */
module GateLaws {
  import opened Wrappers
  import opened Texts
  import opened Combinator
  import opened Predicates
  import opened Enforcement

  /** The word stands at `i`, whichever of its letters are capital there. */
  predicate SaysAt(s: string, word: string, i: int) {
    0 <= i <= |s| - |word| &&
    forall k :: 0 <= k < |word| ==> s[i + k] == word[k] || s[i + k] as int == word[k] as int - 32
  }

  predicate Says(s: string, word: string) { exists i :: 0 <= i <= |s| && SaysAt(s, word, i) }

  /** The gate saw an adversarial probe; a deterministic one cannot. */
  predicate Probed(o: GateOutput, v: GateVerdict) {
    !o.deterministic && "adversarial_probe_detected" in v.controls
  }

  /** Confidence under 0.60 in an output whose strictest permitted action is HOLD or BLOCK, as it is when
      nothing is permitted; a deterministic gate is not asked. */
  predicate Unsure(o: GateOutput, v: GateVerdict) {
    !o.deterministic && v.confidence < 0.60 && (v.permitted == [] || HOLD in v.permitted || BLOCK in v.permitted)
  }

  /** The gate flags a conflict itself: by control, or escalating for a conflict or a jurisdiction. */
  predicate Flagged(v: GateVerdict) {
    || "jurisdiction_conflict" in v.controls
    || (v.escalate && v.reason.Some? && (Says(v.reason.value, "jurisdiction") || Says(v.reason.value, "conflict")))
  }

  ghost predicate Located(evidence: seq<EvidenceRef>) { exists e, j: string :: e in evidence && j in e.jurisdictions }

  ghost predicate Touches(evidence: seq<EvidenceRef>, group: set<string>) {
    exists e, j: string :: e in evidence && j in e.jurisdictions && j in group
  }

  /** The evidence has jurisdictions in two different groups. */
  ghost predicate Spans(evidence: seq<EvidenceRef>, groups: seq<set<string>>) {
    exists g, h :: g in groups && h in groups && g != h && Touches(evidence, g) && Touches(evidence, h)
  }

  /** The strictest of the actions, HOLD when there is none. */
  function Strict(actions: seq<Action>): Action {
    if BLOCK in actions then BLOCK
    else if HOLD in actions || actions == [] then HOLD
    else if CHALLENGE in actions then CHALLENGE
    else ALLOW
  }

  /** One gate's enforcement: no output or verdict holds; a probe blocks; an unsure high risk holds; a
      conflict in located evidence holds; otherwise the strictest permitted action stands. */
  ghost function Reference(output: Option<GateOutput>, groups: seq<set<string>>): Decision {
    if output.None? || output.value.verdict.None? then Decision(HOLD, Some(Tier1SchemaFailure))
    else
      var o, v := output.value, output.value.verdict.value;
      if Probed(o, v) then Decision(BLOCK, Some(Tier2AdversarialProbe))
      else if Unsure(o, v) then Decision(HOLD, Some(Tier4LowConfidence))
      else if Located(o.evidence) && (Flagged(v) || Spans(o.evidence, groups)) then
        Decision(HOLD, Some(Tier5JurisdictionConflict))
      else Decision(Strict(v.permitted), None)
  }

  /** Every output is enforced as the tiers promise. */
  lemma GateIsExact(output: Option<GateOutput>, groups: seq<set<string>>)
    ensures ResolveGateOutput(output, groups) == Reference(output, groups)
  {
    if output.Some? && output.value.verdict.Some? {
      var o, v := output.value, output.value.verdict.value;
      StrictestIsStrict(v.permitted);
      FlaggedIsRead(v);
      EvidenceIsRead(o.evidence, groups);
    }
  }

  lemma StrictestIsStrict(actions: seq<Action>)
    ensures MostConservative(actions) == Strict(actions)
    ensures HighRisk(MostConservative(actions)) <==> actions == [] || HOLD in actions || BLOCK in actions
  {
    if actions != [] {
      var a := Strictest(actions);
      assert a in actions && forall b :: b in actions ==> AtLeast(a, b);
    }
  }

  lemma FlaggedIsRead(v: GateVerdict)
    ensures FlagsConflict(v) <==> Flagged(v)
  {
    if v.reason.Some? {
      LowerCaseSays(v.reason.value, "jurisdiction");
      LowerCaseSays(v.reason.value, "conflict");
    }
  }

  lemma LowerCaseSays(s: string, word: string)
    requires forall k :: 0 <= k < |word| ==> 'a' <= word[k] <= 'z'
    ensures Contains(Lower(s), word) <==> Says(s, word)
  {
    forall i ensures OccursAt(Lower(s), word, i) <==> SaysAt(s, word, i) { LowerCaseSaysAt(s, word, i); }
  }

  lemma LowerCaseSaysAt(s: string, word: string, i: int)
    requires forall k :: 0 <= k < |word| ==> 'a' <= word[k] <= 'z'
    ensures OccursAt(Lower(s), word, i) <==> SaysAt(s, word, i)
  {
    OccursMeans(Lower(s), word, i);
    if 0 <= i <= |s| - |word| {
      forall k | 0 <= k < |word|
        ensures Lower(s)[i + k] == word[k] <==> s[i + k] == word[k] || s[i + k] as int == word[k] as int - 32
      {
        LowerMeets(s[i + k], word[k]);
      }
    }
  }

  lemma LowerMeets(c: char, w: char)
    requires 'a' <= w <= 'z'
    ensures LowerChar(c) == w <==> c == w || c as int == w as int - 32
  {
    assert 'A' <= c <= 'Z' ==> LowerChar(c) as int == c as int + 32;
  }

  lemma EvidenceIsRead(evidence: seq<EvidenceRef>, groups: seq<set<string>>)
    ensures Jurisdictions(evidence) != {} <==> Located(evidence)
    ensures |GroupsTouched(Jurisdictions(evidence), groups)| >= 2 <==> Spans(evidence, groups)
  {
    var jurisdictions := Jurisdictions(evidence);
    var touched := GroupsTouched(jurisdictions, groups);
    forall g ensures g in touched <==> g in groups && Touches(evidence, g) { GroupIsTouched(evidence, g); }
    if |touched| >= 2 {
      var g, h := TwoOf(touched);
      assert g in groups && h in groups;
    }
    if g, h :| g in touched && h in touched && g != h {
      assert {g, h} <= touched;
      Smaller({g, h}, touched);
    }
  }

  lemma GroupIsTouched(evidence: seq<EvidenceRef>, group: set<string>)
    ensures Jurisdictions(evidence) * group != {} <==> Touches(evidence, group)
  {
    var shared := Jurisdictions(evidence) * group;
    if shared != {} {
      var j :| j in shared;
      assert j in Jurisdictions(evidence);
    }
    if e, j: string :| e in evidence && j in e.jurisdictions && j in group { assert j in shared; }
  }

  /** The evidence marks a novel entity: the configured feature is there and is not false, zero or empty. */
  predicate Marked(context: Subject, feature: Option<string>) {
    feature.Some? && feature.value in context.features &&
    context.features[feature.value] !in {Bool(false), Num(IntNum(0)), Num(FloatNum(0.0)), Text("")}
  }

  lemma NovelIsMarked(context: Subject, feature: Option<string>)
    ensures Novel(context, feature) <==> Marked(context, feature)
  {
  }

  lemma TwoOf<T>(s: set<T>) returns (a: T, b: T)
    requires |s| >= 2
    ensures a in s && b in s && a != b
  {
    a :| a in s;
    assert |s - {a}| >= 1;
    b :| b in s - {a};
  }

  lemma Smaller<T>(a: set<T>, b: set<T>)
    requires a <= b
    ensures |a| <= |b|
  {
    assert b == a + (b - a);
  }
}

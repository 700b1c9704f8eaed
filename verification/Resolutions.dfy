/** Human resolutions: the append-only journal, and the read-read-insert protocol that writes it,
    under any interleaving of concurrent resolvers. */
module Resolutions {
  import opened Wrappers
  import opened Sorting
  import opened Combinator

  type DecisionId = nat

  datatype Attempt = Attempt(decisionId: DecisionId, sequence: nat, resolution: Option<Action>)

  predicate Terminal(a: Action) { a == ALLOW || a == BLOCK }

  predicate TerminalAttempt(a: Attempt) { a.resolution.Some? && Terminal(a.resolution.value) }

  function OfDecision(rows: seq<Attempt>, d: DecisionId): (r: seq<Attempt>)
    ensures forall a :: a in r <==> a in rows && a.decisionId == d
  {
    if rows == [] then []
    else
      var init, last := rows[..|rows| - 1], rows[|rows| - 1];
      assert rows == init + [last];
      OfDecision(init, d) + (if last.decisionId == d then [last] else [])
  }

  predicate SequenceLeq(a: Attempt, b: Attempt) { a.sequence <= b.sequence }

  /** `ORDER BY attempt_sequence ASC`. */
  function Attempts(rows: seq<Attempt>, d: DecisionId): seq<Attempt> { Sort(SequenceLeq, OfDecision(rows, d)) }

  /** The first terminal resolution of a chain. */
  function FirstTerminal(chain: seq<Attempt>): (r: Option<Action>)
    ensures r.None? <==> forall a :: a in chain ==> !TerminalAttempt(a)
  {
    if chain == [] then None
    else
      assert chain == [chain[0]] + chain[1..];
      if TerminalAttempt(chain[0]) then chain[0].resolution else FirstTerminal(chain[1..])
  }

  function Realized(rows: seq<Attempt>, d: DecisionId, action: Action): Option<Action> {
    if Terminal(action) then Some(action) else FirstTerminal(Attempts(rows, d))
  }

  /** The row resolves the decision for good. */
  predicate Ends(a: Attempt, d: DecisionId) { a.decisionId == d && a.resolution in {Some(ALLOW), Some(BLOCK)} }

  /** An ALLOW or BLOCK is realized as it is; any other decision by the attempt of the least sequence that
      resolves it for good, and not at all without one. */
  ghost predicate IsRealized(rows: seq<Attempt>, d: DecisionId, action: Action, r: Option<Action>) {
    if action == ALLOW || action == BLOCK then r == Some(action)
    else if r.None? then forall a :: a in rows ==> !Ends(a, d)
    else exists a :: a in rows && Ends(a, d) && a.resolution == r &&
                     forall b :: b in rows && Ends(b, d) ==> a.sequence <= b.sequence
  }

  lemma RealizedIs(rows: seq<Attempt>, d: DecisionId, action: Action)
    ensures IsRealized(rows, d, action, Realized(rows, d, action))
  {
    SortSorts(SequenceLeq, OfDecision(rows, d));
    SortKeepsElements(SequenceLeq, OfDecision(rows, d));
    LeastEnds(rows, d, Attempts(rows, d));
  }

  lemma LeastEnds(rows: seq<Attempt>, d: DecisionId, chain: seq<Attempt>)
    requires SortedBy(SequenceLeq, chain) && forall a :: a in chain <==> a in rows && a.decisionId == d
    ensures var r := FirstTerminal(chain);
            if r.None? then forall a :: a in rows ==> !Ends(a, d)
            else exists a :: a in rows && Ends(a, d) && a.resolution == r &&
                             forall b :: b in rows && Ends(b, d) ==> a.sequence <= b.sequence
  {
    if FirstTerminal(chain).Some? {
      var k := FirstTerminalAt(chain);
      var first := chain[k];
      assert first in chain;
      forall b | b in rows && Ends(b, d) ensures first.sequence <= b.sequence {
        assert b in chain;
        var j :| 0 <= j < |chain| && chain[j] == b;
        assert k < j ==> SequenceLeq(chain[k], chain[j]);
      }
      assert first in rows && Ends(first, d);
    } else {
      forall a | a in rows ensures !Ends(a, d) { assert Ends(a, d) ==> a in chain && TerminalAttempt(a); }
    }
  }

  lemma {:induction false} FirstTerminalAt(chain: seq<Attempt>) returns (k: nat)
    requires FirstTerminal(chain).Some?
    ensures k < |chain| && TerminalAttempt(chain[k]) && chain[k].resolution == FirstTerminal(chain)
    ensures forall j :: 0 <= j < k ==> !TerminalAttempt(chain[j])
  {
    if TerminalAttempt(chain[0]) {
      k := 0;
    } else {
      k := FirstTerminalAt(chain[1..]);
      k := k + 1;
    }
  }

  predicate HasRow(rows: seq<Attempt>, d: DecisionId, sequence: nat) {
    exists a :: a in rows && a.decisionId == d && a.sequence == sequence
  }

  datatype ResolveError = NotResolvable | AlreadyResolved | Conflict

  class ResolutionJournal {
    var rows: seq<Attempt>

    constructor ()
      ensures rows == []
    {
      rows := [];
    }

    /** Append a row; the (decision, sequence) pair must be new. */
    method RecordAttempt(a: Attempt) returns (ok: bool)
      modifies this
      ensures ok <==> !HasRow(old(rows), a.decisionId, a.sequence)
      ensures rows == if ok then old(rows) + [a] else old(rows)
    {
      ok := !HasRow(rows, a.decisionId, a.sequence);
      if ok { rows := rows + [a]; }
    }

    /** The terminal action realized on a decision, or none while it is pending. */
    method RealizedAction(d: DecisionId, action: Action) returns (r: Option<Action>)
      ensures r == Realized(rows, d, action)
      ensures IsRealized(rows, d, action, r)
    {
      RealizedIs(rows, d, action);
      if action == ALLOW || action == BLOCK { return Some(action); }
      var chain := Attempts(rows, d);
      var i := 0;
      while i < |chain|
        invariant 0 <= i <= |chain|
        invariant FirstTerminal(chain[i..]) == FirstTerminal(chain)
      {
        assert chain[i..][1..] == chain[i + 1..];
        if TerminalAttempt(chain[i]) { return chain[i].resolution; }
        i := i + 1;
      }
      return None;
    }

    /** Check, count and insert with no other resolver between: the undisturbed case. */
    method ResolveDecision(d: DecisionId, action: Action, resolution: Action) returns (r: Result<Attempt, ResolveError>)
      requires Terminal(resolution) && Numbered(rows)
      modifies this
      ensures r.Ok? ==>
                rows == old(rows) + [r.value] && r.value == Attempt(d, |OfDecision(old(rows), d)|, Some(resolution))
      ensures r.Err? ==> rows == old(rows)
      ensures r == Err(NotResolvable) <==> Terminal(action)
      ensures r == Err(AlreadyResolved) <==> !Terminal(action) && Realized(old(rows), d, action).Some?
      ensures r != Err(Conflict)
      ensures r.Ok? ==> Numbered(rows) && Realized(rows, d, action) == Some(resolution)
    {
      if action != CHALLENGE && action != HOLD { return Err(NotResolvable); }
      var realized := RealizedAction(d, action);
      if realized.Some? { return Err(AlreadyResolved); }
      var attempt := Attempt(d, |Attempts(rows, d)|, Some(resolution));
      ghost var before := rows;
      NextIsFree(rows, d);
      var ok := RecordAttempt(attempt);
      r := Ok(attempt);
      AppendKeepsNumbers(before, attempt);
      ChainGrows(before, attempt, d);
      FirstTerminalOfAppend(Attempts(before, d), [attempt]);
    }
  }

  // --- numbering --------------------------------------------------------------------------------

  /** Every decision's attempts are numbered 0, 1, 2, ... in the order they were written. */
  ghost predicate Numbered(rows: seq<Attempt>) {
    forall d :: forall i :: 0 <= i < |OfDecision(rows, d)| ==> OfDecision(rows, d)[i].sequence == i
  }

  lemma NumberedIsSorted(rows: seq<Attempt>, d: DecisionId)
    requires Numbered(rows)
    ensures Attempts(rows, d) == OfDecision(rows, d)
  {
    var chain := OfDecision(rows, d);
    SortSorts(SequenceLeq, chain);
    SortKeepsElements(SequenceLeq, chain);
    SortKeepsDistinct(SequenceLeq, chain);
    var less := (a: Attempt, b: Attempt) => a.sequence < b.sequence;
    forall i, j | 0 <= i < j < |chain| ensures less(Sort(SequenceLeq, chain)[i], Sort(SequenceLeq, chain)[j]) {
      var a, b := Sort(SequenceLeq, chain)[i], Sort(SequenceLeq, chain)[j];
      assert SequenceLeq(a, b) && a in chain && b in chain && a != b;
    }
    StrictlySortedUnique(less, Sort(SequenceLeq, chain), chain);
  }

  lemma NextIsFree(rows: seq<Attempt>, d: DecisionId)
    requires Numbered(rows)
    ensures !HasRow(rows, d, |OfDecision(rows, d)|)
    ensures |Attempts(rows, d)| == |OfDecision(rows, d)|
    ensures forall n: nat :: n < |OfDecision(rows, d)| ==> HasRow(rows, d, n)
  {
    var chain := OfDecision(rows, d);
    forall n: nat | n < |chain| ensures HasRow(rows, d, n) { assert chain[n] in chain; }
    forall a | a in rows && a.decisionId == d ensures a.sequence < |chain| { assert a in chain; }
  }

  lemma AppendKeepsNumbers(rows: seq<Attempt>, a: Attempt)
    requires Numbered(rows) && a.sequence == |OfDecision(rows, a.decisionId)|
    ensures Numbered(rows + [a])
  {
    var more := rows + [a];
    assert more[..|more| - 1] == rows;
    forall d, i | 0 <= i < |OfDecision(more, d)| ensures OfDecision(more, d)[i].sequence == i { }
  }

  lemma ChainGrows(rows: seq<Attempt>, a: Attempt, d: DecisionId)
    requires Numbered(rows) && a.sequence == |OfDecision(rows, a.decisionId)|
    ensures Attempts(rows + [a], d) == Attempts(rows, d) + (if a.decisionId == d then [a] else [])
  {
    AppendKeepsNumbers(rows, a);
    NumberedIsSorted(rows, d);
    NumberedIsSorted(rows + [a], d);
    assert (rows + [a])[..|rows + [a]| - 1] == rows;
  }

  lemma {:induction false} FirstTerminalOfAppend(chain: seq<Attempt>, more: seq<Attempt>)
    ensures FirstTerminal(chain + more) ==
            if FirstTerminal(chain).Some? then FirstTerminal(chain) else FirstTerminal(more)
  {
    if chain == [] {
      assert chain + more == more;
    } else {
      assert (chain + more)[1..] == chain[1..] + more;
      FirstTerminalOfAppend(chain[1..], more);
    }
  }

  // --- concurrent resolvers --------------------------------------------------------------------------

  /** Where a resolver is between its two reads and its insert. `seen` is how many attempts there
      were when its realized check passed; the source does not keep it. */
  datatype Phase = Checked(d: DecisionId, seen: nat) | Counted(d: DecisionId, seen: nat, sequence: nat)

  datatype State = State(rows: seq<Attempt>, actions: map<DecisionId, Action>, resolvers: map<nat, Phase>)

  datatype Step = Check(p: nat, d: DecisionId) | Count(p: nat) | Insert(p: nat, resolution: Action) | Abandon(p: nat)

  /** One step of one resolver; a step that does not apply, or a conflict, changes no row. */
  function After(s: State, step: Step): State {
    match step
    case Check(p, d) =>
      if p in s.resolvers || d !in s.actions || Terminal(s.actions[d]) || Realized(s.rows, d, s.actions[d]).Some? then s
      else s.(resolvers := s.resolvers[p := Checked(d, |Attempts(s.rows, d)|)])
    case Count(p) =>
      if p !in s.resolvers || !s.resolvers[p].Checked? then s
      else
        var c := s.resolvers[p];
        s.(resolvers := s.resolvers[p := Counted(c.d, c.seen, |Attempts(s.rows, c.d)|)])
    case Insert(p, resolution) =>
      if p !in s.resolvers || !s.resolvers[p].Counted? then s
      else if HasRow(s.rows, s.resolvers[p].d, s.resolvers[p].sequence) then s.(resolvers := s.resolvers - {p})
      else s.(rows := s.rows + [Attempt(s.resolvers[p].d, s.resolvers[p].sequence, Some(resolution))],
              resolvers := s.resolvers - {p})
    case Abandon(p) => s.(resolvers := s.resolvers - {p})
  }

  function Run(s: State, steps: seq<Step>): State {
    if steps == [] then s else After(Run(s, steps[..|steps| - 1]), steps[|steps| - 1])
  }

  ghost predicate ValidStep(step: Step) { step.Insert? ==> Terminal(step.resolution) }

  /** What a resolver read is still a prefix of the chain, undecided up to its check and resolved by
      every attempt written since. */
  ghost predicate GoodPhase(rows: seq<Attempt>, c: Phase) {
    var chain := OfDecision(rows, c.d);
    && c.seen <= |chain|
    && (forall i :: 0 <= i < c.seen ==> !TerminalAttempt(chain[i]))
    && (forall i :: c.seen <= i < |chain| ==> TerminalAttempt(chain[i]))
    && (c.Counted? ==> c.seen <= c.sequence <= |chain|)
  }

  ghost predicate Inv(s: State) {
    && Numbered(s.rows)
    && forall p :: p in s.resolvers ==>
      GoodPhase(s.rows, s.resolvers[p]) && s.resolvers[p].d in s.actions && !Terminal(s.actions[s.resolvers[p].d])
  }

  lemma CheckKeepsInv(s: State, p: nat, d: DecisionId)
    requires Inv(s)
    ensures Inv(After(s, Check(p, d)))
  {
    if d in s.actions && !Terminal(s.actions[d]) && Realized(s.rows, d, s.actions[d]).None? {
      UndecidedChain(s.rows, d);
      assert p !in s.resolvers ==> GoodPhase(s.rows, After(s, Check(p, d)).resolvers[p]);
    }
  }

  lemma UndecidedChain(rows: seq<Attempt>, d: DecisionId)
    requires Numbered(rows) && FirstTerminal(Attempts(rows, d)).None?
    ensures |Attempts(rows, d)| == |OfDecision(rows, d)|
    ensures forall i :: 0 <= i < |OfDecision(rows, d)| ==> !TerminalAttempt(OfDecision(rows, d)[i])
  {
    NumberedIsSorted(rows, d);
    forall i | 0 <= i < |OfDecision(rows, d)| ensures !TerminalAttempt(OfDecision(rows, d)[i]) {
      assert OfDecision(rows, d)[i] in Attempts(rows, d);
    }
  }

  lemma CountKeepsInv(s: State, p: nat)
    requires Inv(s)
    ensures Inv(After(s, Count(p)))
  {
    if p in s.resolvers {
      var c := s.resolvers[p];
      NumberedIsSorted(s.rows, c.d);
      assert GoodPhase(s.rows, c);
      assert GoodPhase(s.rows, Counted(c.d, c.seen, |Attempts(s.rows, c.d)|));
    }
  }

  /** A successful insert lands at the end of the chain. */
  lemma InsertIsNext(s: State, p: nat)
    requires Inv(s) && p in s.resolvers && s.resolvers[p].Counted?
    requires !HasRow(s.rows, s.resolvers[p].d, s.resolvers[p].sequence)
    ensures s.resolvers[p].sequence == |OfDecision(s.rows, s.resolvers[p].d)|
  {
    NextIsFree(s.rows, s.resolvers[p].d);
  }

  lemma InsertKeepsInv(s: State, p: nat, resolution: Action)
    requires Inv(s) && Terminal(resolution)
    ensures Inv(After(s, Insert(p, resolution)))
  {
    var s' := After(s, Insert(p, resolution));
    if s'.rows != s.rows {
      var c := s.resolvers[p];
      var a := Attempt(c.d, c.sequence, Some(resolution));
      InsertIsNext(s, p);
      AppendKeepsNumbers(s.rows, a);
      forall q | q in s'.resolvers ensures GoodPhase(s'.rows, s'.resolvers[q]) {
        PhaseSurvives(s.rows, a, s.resolvers[q]);
      }
    }
  }

  /** What a resolver read stays good when a terminal attempt is appended. */
  lemma PhaseSurvives(rows: seq<Attempt>, a: Attempt, c: Phase)
    requires GoodPhase(rows, c) && TerminalAttempt(a)
    ensures GoodPhase(rows + [a], c)
  {
    assert (rows + [a])[..|rows + [a]| - 1] == rows;
    var chain, more := OfDecision(rows, c.d), OfDecision(rows + [a], c.d);
    assert more == chain || more == chain + [a];
  }

  lemma StepKeepsInv(s: State, step: Step)
    requires Inv(s) && ValidStep(step)
    ensures Inv(After(s, step))
  {
    match step
    case Check(p, d) => CheckKeepsInv(s, p, d);
    case Count(p) => CountKeepsInv(s, p);
    case Insert(p, resolution) => InsertKeepsInv(s, p, resolution);
    case Abandon(p) =>
  }

  /** A realized action survives a step. */
  lemma StepKeepsRealized(s: State, step: Step, d: DecisionId)
    requires Inv(s) && ValidStep(step) && d in s.actions && Realized(s.rows, d, s.actions[d]).Some?
    ensures After(s, step).actions == s.actions
    ensures Realized(After(s, step).rows, d, s.actions[d]) == Realized(s.rows, d, s.actions[d])
  {
    var s' := After(s, step);
    if s'.rows != s.rows {
      var c := s.resolvers[step.p];
      InsertIsNext(s, step.p);
      ChainGrows(s.rows, Attempt(c.d, c.sequence, Some(step.resolution)), d);
      FirstTerminalOfAppend(Attempts(s.rows, d), Attempts(s'.rows, d)[|Attempts(s.rows, d)|..]);
    }
  }

  /** A realized action is permanent: over any run of concurrent resolvers every decision's attempts
      stay numbered 0..n-1, and once an action is realized it is that action forever. */
  lemma {:induction false} RealizedIsPermanent(s: State, steps: seq<Step>, d: DecisionId)
    requires Inv(s) && (forall step :: step in steps ==> ValidStep(step))
    ensures Inv(Run(s, steps)) && Run(s, steps).actions == s.actions
    ensures d in s.actions && Realized(s.rows, d, s.actions[d]).Some? ==>
              Realized(Run(s, steps).rows, d, s.actions[d]) == Realized(s.rows, d, s.actions[d])
  {
    if steps != [] {
      var init, step := steps[..|steps| - 1], steps[|steps| - 1];
      assert steps == init + [step];
      RealizedIsPermanent(s, init, d);
      StepKeepsInv(Run(s, init), step);
      if d in s.actions && Realized(s.rows, d, s.actions[d]).Some? { StepKeepsRealized(Run(s, init), step, d); }
    }
  }

  /** A resolver no other disturbs appends the decision's next attempt, unless the decision's action is
      terminal already or realized. */
  lemma Undisturbed(s: State, p: nat, d: DecisionId, resolution: Action)
    requires Inv(s) && p !in s.resolvers && d in s.actions
    ensures var end := After(After(After(s, Check(p, d)), Count(p)), Insert(p, resolution));
            && end.resolvers == s.resolvers && end.actions == s.actions
            && end.rows == if Realized(s.rows, d, s.actions[d]).Some? then s.rows
                           else s.rows + [Attempt(d, |OfDecision(s.rows, d)|, Some(resolution))]
  {
    if Realized(s.rows, d, s.actions[d]).Some? {
      assert After(s, Check(p, d)) == s && After(s, Count(p)) == s && After(s, Insert(p, resolution)) == s;
    } else {
      CountedNext(s, p, d);
      NextIsFree(s.rows, d);
      InsertCounted(s, p, d, |OfDecision(s.rows, d)|, resolution);
    }
  }

  lemma CountedNext(s: State, p: nat, d: DecisionId)
    requires Inv(s) && p !in s.resolvers && d in s.actions && Realized(s.rows, d, s.actions[d]).None?
    ensures var n := |OfDecision(s.rows, d)|;
            After(After(s, Check(p, d)), Count(p)) == s.(resolvers := s.resolvers[p := Counted(d, n, n)])
  {
    var n := |OfDecision(s.rows, d)|;
    CheckPasses(s, p, d);
    CountCounts(s.(resolvers := s.resolvers[p := Checked(d, n)]), p, d, n);
    assert s.resolvers[p := Checked(d, n)][p := Counted(d, n, n)] == s.resolvers[p := Counted(d, n, n)];
  }

  lemma CheckPasses(s: State, p: nat, d: DecisionId)
    requires Inv(s) && p !in s.resolvers && d in s.actions && Realized(s.rows, d, s.actions[d]).None?
    ensures After(s, Check(p, d)) == s.(resolvers := s.resolvers[p := Checked(d, |OfDecision(s.rows, d)|)])
  {
  }

  lemma CountCounts(s: State, p: nat, d: DecisionId, seen: nat)
    requires p in s.resolvers && s.resolvers[p] == Checked(d, seen)
    ensures After(s, Count(p)) ==
            s.(resolvers := s.resolvers[p := Counted(d, seen, |OfDecision(s.rows, d)|)])
  {
  }

  lemma InsertCounted(s: State, p: nat, d: DecisionId, n: nat, resolution: Action)
    requires p !in s.resolvers && !HasRow(s.rows, d, n)
    ensures After(s.(resolvers := s.resolvers[p := Counted(d, n, n)]), Insert(p, resolution)) ==
            s.(rows := s.rows + [Attempt(d, n, Some(resolution))])
  {
    assert s.resolvers[p := Counted(d, n, n)] - {p} == s.resolvers;
  }

  /** "At most one terminal resolution" fails exactly when a resolver counts more attempts than it
      saw at its check: then, and only then, its insert follows an action already realized. */
  lemma SecondResolution(s: State, p: nat, resolution: Action)
    requires Inv(s) && p in s.resolvers && s.resolvers[p].Counted?
    requires After(s, Insert(p, resolution)).rows != s.rows
    ensures Realized(s.rows, s.resolvers[p].d, s.actions[s.resolvers[p].d]).Some? <==>
            s.resolvers[p].seen < s.resolvers[p].sequence
  {
    var c := s.resolvers[p];
    InsertIsNext(s, p);
    NumberedIsSorted(s.rows, c.d);
    var chain := OfDecision(s.rows, c.d);
    if c.seen < c.sequence { assert TerminalAttempt(chain[c.seen]) && chain[c.seen] in chain; }
  }

  /** How many terminal resolutions the journal holds of a decision. */
  function Terminals(rows: seq<Attempt>, d: DecisionId): nat {
    if rows == [] then 0
    else
      var last := rows[|rows| - 1];
      Terminals(rows[..|rows| - 1], d) + if last.decisionId == d && TerminalAttempt(last) then 1 else 0
  }

  lemma {:induction false} SomeTerminal(rows: seq<Attempt>, d: DecisionId)
    ensures Terminals(rows, d) > 0 <==> exists a :: a in OfDecision(rows, d) && TerminalAttempt(a)
  {
    if rows != [] { SomeTerminal(rows[..|rows| - 1], d); }
  }

  /** The step stores a resolution of the decision that its resolver counted more attempts for than it
      saw at its check. */
  ghost predicate LateInsert(s: State, step: Step, d: DecisionId) {
    && Inserts(s, step, d)
    && s.resolvers[step.p].seen < s.resolvers[step.p].sequence
  }

  ghost predicate Inserts(s: State, step: Step, d: DecisionId) {
    && step.Insert? && step.p in s.resolvers && s.resolvers[step.p].Counted? && s.resolvers[step.p].d == d
    && After(s, step).rows != s.rows
  }

  lemma StepCounts(s: State, step: Step, d: DecisionId)
    requires Inv(s) && ValidStep(step)
    ensures Terminals(After(s, step).rows, d) == Terminals(s.rows, d) + if Inserts(s, step, d) then 1 else 0
    ensures Inserts(s, step, d) ==> (LateInsert(s, step, d) <==> Terminals(s.rows, d) > 0)
  {
    var rows := After(s, step).rows;
    if rows != s.rows { assert rows[..|rows| - 1] == s.rows; }
    if Inserts(s, step, d) {
      SecondResolution(s, step.p, step.resolution);
      NumberedIsSorted(s.rows, d);
      SomeTerminal(s.rows, d);
    }
  }

  /** A decision keeps at most one terminal resolution over a run exactly when no insert on it was
      late. */
  lemma {:induction false} AtMostOneTerminal(s: State, steps: seq<Step>, d: DecisionId)
    requires Inv(s) && (forall step :: step in steps ==> ValidStep(step)) && Terminals(s.rows, d) <= 1
    ensures Terminals(Run(s, steps).rows, d) <= 1 <==>
            forall k :: 0 <= k < |steps| ==> !LateInsert(Run(s, steps[..k]), steps[k], d)
  {
    if steps != [] {
      var init, step := steps[..|steps| - 1], steps[|steps| - 1];
      assert steps == init + [step];
      AtMostOneTerminal(s, init, d);
      RealizedIsPermanent(s, init, d);
      StepCounts(Run(s, init), step, d);
      forall k | 0 <= k < |init| ensures steps[..k] == init[..k] && steps[k] == init[k] {}
      assert (forall k :: 0 <= k < |steps| ==> !LateInsert(Run(s, steps[..k]), steps[k], d)) <==>
             (forall k :: 0 <= k < |init| ==> !LateInsert(Run(s, init[..k]), init[k], d)) &&
             !LateInsert(Run(s, init), step, d);
    }
  }

  /** And it does fail: two resolvers, the second counting after the first inserted. */
  lemma TwoResolutionsHappen(d: DecisionId)
    ensures var s := State([], map[d := HOLD], map[]);
            var steps := [Check(1, d), Check(2, d), Count(1), Insert(1, ALLOW), Count(2), Insert(2, BLOCK)];
            Run(s, steps).rows == [Attempt(d, 0, Some(ALLOW)), Attempt(d, 1, Some(BLOCK))]
  {
    var actions := map[d := HOLD];
    var a, b := Attempt(d, 0, Some(ALLOW)), Attempt(d, 1, Some(BLOCK));
    OneAttempt(a);
    var s := State([], actions, map[]);
    BothChecked(d);
    var s2 := State([], actions, map[1 := Checked(d, 0), 2 := Checked(d, 0)]);
    var s3 := State([], actions, map[1 := Counted(d, 0, 0), 2 := Checked(d, 0)]);
    var s4 := State([a], actions, map[2 := Checked(d, 0)]);
    var s5 := State([a], actions, map[2 := Counted(d, 0, 1)]);
    assert After(s2, Count(1)) == s3;
    FirstInserted(d);
    assert After(s4, Count(2)) == s5;
    assert After(s5, Insert(2, BLOCK)).rows == [a, b];
    RunOfSix(s, Check(1, d), Check(2, d), Count(1), Insert(1, ALLOW), Count(2), Insert(2, BLOCK));
  }

  lemma FirstInserted(d: DecisionId)
    ensures After(State([], map[d := HOLD], map[1 := Counted(d, 0, 0), 2 := Checked(d, 0)]), Insert(1, ALLOW)) ==
            State([Attempt(d, 0, Some(ALLOW))], map[d := HOLD], map[2 := Checked(d, 0)])
  {
    assert [] + [Attempt(d, 0, Some(ALLOW))] == [Attempt(d, 0, Some(ALLOW))];
  }

  lemma BothChecked(d: DecisionId)
    ensures var s := State([], map[d := HOLD], map[]);
            After(After(s, Check(1, d)), Check(2, d)) ==
            State([], map[d := HOLD], map[1 := Checked(d, 0), 2 := Checked(d, 0)])
  {
    var s := State([], map[d := HOLD], map[]);
    assert After(s, Check(1, d)) == State([], map[d := HOLD], map[1 := Checked(d, 0)]);
  }

  lemma OneAttempt(a: Attempt)
    requires a.sequence == 0
    ensures |Attempts([a], a.decisionId)| == 1
    ensures HasRow([a], a.decisionId, 0) && !HasRow([a], a.decisionId, 1)
  {
    assert [a][..0] == [];
    assert OfDecision([a], a.decisionId) == [a];
  }

  lemma RunOfSix(s: State, a: Step, b: Step, c: Step, d: Step, e: Step, f: Step)
    ensures Run(s, [a, b, c, d, e, f]) == After(After(After(After(After(After(s, a), b), c), d), e), f)
  {
    assert [a, b, c, d, e, f][..5] == [a, b, c, d, e] && [a, b, c, d, e][..4] == [a, b, c, d];
    assert [a, b, c, d][..3] == [a, b, c] && [a, b, c][..2] == [a, b] && [a, b][..1] == [a] && [a][..0] == [];
    assert Run(s, [a]) == After(Run(s, []), a);
    assert Run(s, [a, b]) == After(Run(s, [a]), b);
    assert Run(s, [a, b, c]) == After(Run(s, [a, b]), c);
    assert Run(s, [a, b, c, d]) == After(Run(s, [a, b, c]), d);
  }
}

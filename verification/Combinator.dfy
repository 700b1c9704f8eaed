/** Decision actions, their severity, and the conjunction combinator. */
module Combinator {
  import opened Wrappers

  /** In ascending severity. */
  datatype Action = ALLOW | CHALLENGE | HOLD | BLOCK

  function Severity(a: Action): nat {
    match a
    case ALLOW => 0
    case CHALLENGE => 1
    case HOLD => 2
    case BLOCK => 3
  }

  predicate AtLeast(a: Action, b: Action) { Severity(b) <= Severity(a) }

  /** `max(actions, key=severity)`. */
  function Strictest(actions: seq<Action>): (r: Action)
    requires actions != []
    ensures r in actions
    ensures forall a :: a in actions ==> AtLeast(r, a)
  {
    if |actions| == 1 then actions[0]
    else
      var rest := Strictest(actions[1..]);
      assert actions == [actions[0]] + actions[1..];
      if AtLeast(actions[0], rest) then actions[0] else rest
  }

  function Candidates(proposed: Option<Action>, enforced: seq<Action>): seq<Action> {
    (if proposed.Some? then [proposed.value] else []) + enforced
  }

  /** The most restrictive of a proposal and enforced actions; absent when there is nothing to
      combine (the source raises). */
  function MostRestrictive(proposed: Option<Action>, enforced: seq<Action>): (r: Option<Action>)
    ensures r.None? <==> proposed.None? && enforced == []
    ensures r.Some? ==> r.value in Candidates(proposed, enforced)
    ensures r.Some? ==> forall a :: a in Candidates(proposed, enforced) ==> AtLeast(r.value, a)
  {
    if Candidates(proposed, enforced) == [] then None else Some(Strictest(Candidates(proposed, enforced)))
  }
}

/** Predicates over evidence: comparisons and their combinations, evaluated left to right up to the first
    decisive verdict or error. */
module Predicates {
  import opened Wrappers

  /** Booleans are not numbers; integers and finite floats compare exactly. */
  datatype Number = IntNum(i: int) | FloatNum(f: real)
  {
    function Value(): real { if IntNum? then i as real else f }
  }

  datatype Scalar = Bool(b: bool) | Num(n: Number) | Text(s: string)

  /** `label_value`, or `feature_set.<name>`. */
  datatype Field = Label | Feature(name: string)

  datatype Subject = Subject(labelValue: Scalar, features: map<string, Scalar>)

  datatype Ordering = Lt | Le | Gt | Ge

  /** A comparison's operator with its constant; the model validator pairs them so. */
  datatype Test =
    | Equal(expected: Scalar)
    | NotEqual(expected: Scalar)
    | Ordered(op: Ordering, bound: Number)
    | In(values: seq<Scalar>)
    | NotIn(values: seq<Scalar>)

  datatype Predicate =
    | Compare(field: Field, test: Test)
    | AllOf(children: seq<Predicate>)
    | AnyOf(children: seq<Predicate>)
    | Not(child: Predicate)

  datatype PredicateError = MissingFeature(name: string) | NotANumber(field: Field, actual: Scalar, op: Ordering)

  type Outcome = Result<bool, PredicateError>

  function Resolve(field: Field, subject: Subject): Result<Scalar, PredicateError> {
    match field
    case Label => Ok(subject.labelValue)
    case Feature(name) => if name in subject.features then Ok(subject.features[name]) else Err(MissingFeature(name))
  }

  predicate SameScalar(actual: Scalar, expected: Scalar) {
    match (actual, expected)
    case (Bool(a), Bool(b)) => a == b
    case (Num(a), Num(b)) => a.Value() == b.Value()
    case (Text(a), Text(b)) => a == b
    case _ => false
  }

  predicate SomeSame(actual: Scalar, values: seq<Scalar>) {
    exists v :: v in values && SameScalar(actual, v)
  }

  function CompareTo(field: Field, test: Test, actual: Scalar): Outcome {
    match test
    case Equal(v) => Ok(SameScalar(actual, v))
    case NotEqual(v) => Ok(!SameScalar(actual, v))
    case In(vs) => Ok(SomeSame(actual, vs))
    case NotIn(vs) => Ok(!SomeSame(actual, vs))
    case Ordered(op, bound) =>
      if !actual.Num? then Err(NotANumber(field, actual, op))
      else
        var left, right := actual.n.Value(), bound.Value();
        Ok(match op
           case Lt => left < right
           case Le => left <= right
           case Gt => left > right
           case Ge => left >= right)
  }

  function Evaluate(p: Predicate, subject: Subject): Outcome
    decreases p, 1
  {
    match p
    case Compare(field, test) =>
      var actual := Resolve(field, subject);
      if actual.Err? then Err(actual.error) else CompareTo(field, test, actual.value)
    case AllOf(children) => EvaluateAll(children, subject)
    case AnyOf(children) => EvaluateAny(children, subject)
    case Not(child) =>
      var v := Evaluate(child, subject);
      if v.Err? then v else Ok(!v.value)
  }

  /** `all(...)`: left to right, stopping at the first child that fails to hold or to evaluate. */
  function EvaluateAll(children: seq<Predicate>, subject: Subject): Outcome
    decreases children, 0
  {
    if children == [] then Ok(true)
    else
      var first := Evaluate(children[0], subject);
      if first.Err? || !first.value then first else EvaluateAll(children[1..], subject)
  }

  /** `any(...)`: left to right, stopping at the first child that holds or fails to evaluate. */
  function EvaluateAny(children: seq<Predicate>, subject: Subject): Outcome
    decreases children, 0
  {
    if children == [] then Ok(false)
    else
      var first := Evaluate(children[0], subject);
      if first.Err? || first.value then first else EvaluateAny(children[1..], subject)
  }

  function ReferencedFields(p: Predicate): set<Field>
    decreases p, 1
  {
    match p
    case Compare(field, _) => {field}
    case AllOf(children) => FieldsOfAll(children)
    case AnyOf(children) => FieldsOfAll(children)
    case Not(child) => ReferencedFields(child)
  }

  function FieldsOfAll(children: seq<Predicate>): set<Field>
    decreases children, 0
  {
    if children == [] then {} else ReferencedFields(children[0]) + FieldsOfAll(children[1..])
  }

  // --- what a verdict depends on ------------------------------------------------------------

  ghost predicate Agree(fields: set<Field>, a: Subject, b: Subject) {
    forall f :: f in fields ==> Resolve(f, a) == Resolve(f, b)
  }

  /** A predicate's result, true, false or the specific error, depends only on the fields it
      references. */
  lemma {:induction false} VerdictIsLocal(p: Predicate, a: Subject, b: Subject)
    requires Agree(ReferencedFields(p), a, b)
    ensures Evaluate(p, a) == Evaluate(p, b)
    decreases p, 1
  {
    match p
    case Compare(field, _) => assert Resolve(field, a) == Resolve(field, b);
    case AllOf(children) => VerdictsAreLocal(children, a, b);
    case AnyOf(children) => VerdictsAreLocal(children, a, b);
    case Not(child) => VerdictIsLocal(child, a, b);
  }

  lemma {:induction false} VerdictsAreLocal(children: seq<Predicate>, a: Subject, b: Subject)
    requires Agree(FieldsOfAll(children), a, b)
    ensures EvaluateAll(children, a) == EvaluateAll(children, b)
    ensures EvaluateAny(children, a) == EvaluateAny(children, b)
    decreases children, 0
  {
    if children != [] {
      VerdictIsLocal(children[0], a, b);
      VerdictsAreLocal(children[1..], a, b);
    }
  }

  ghost predicate AddsFeatures(a: Subject, b: Subject) {
    a.labelValue == b.labelValue && forall n :: n in a.features ==> n in b.features && b.features[n] == a.features[n]
  }

  /** Adding features never changes a verdict already reached without error. */
  lemma {:induction false} VerdictIsMonotone(p: Predicate, a: Subject, b: Subject)
    requires AddsFeatures(a, b) && Evaluate(p, a).Ok?
    ensures Evaluate(p, b) == Evaluate(p, a)
    decreases p, 1
  {
    match p
    case Compare(_, _) =>
    case AllOf(children) => VerdictsAreMonotone(children, a, b);
    case AnyOf(children) => VerdictsAreMonotone(children, a, b);
    case Not(child) => VerdictIsMonotone(child, a, b);
  }

  lemma {:induction false} VerdictsAreMonotone(children: seq<Predicate>, a: Subject, b: Subject)
    requires AddsFeatures(a, b)
    ensures EvaluateAll(children, a).Ok? ==> EvaluateAll(children, b) == EvaluateAll(children, a)
    ensures EvaluateAny(children, a).Ok? ==> EvaluateAny(children, b) == EvaluateAny(children, a)
    decreases children, 0
  {
    if children != [] && Evaluate(children[0], a).Ok? {
      VerdictIsMonotone(children[0], a, b);
      VerdictsAreMonotone(children[1..], a, b);
    }
  }

  // --- negation --------------------------------------------------------------------------------

  function Negations(children: seq<Predicate>): seq<Predicate> {
    if children == [] then [] else [Not(children[0])] + Negations(children[1..])
  }

  function Negated(v: Outcome): Outcome { if v.Err? then v else Ok(!v.value) }

  /** Negation distributes over conjunction and disjunction, short-circuit errors included. */
  lemma {:induction false} NegationDistributes(children: seq<Predicate>, s: Subject)
    ensures Evaluate(Not(AllOf(children)), s) == Evaluate(AnyOf(Negations(children)), s)
    ensures Evaluate(Not(AnyOf(children)), s) == Evaluate(AllOf(Negations(children)), s)
  {
    NegationOfEach(children, s);
  }

  lemma {:induction false} NegationOfEach(children: seq<Predicate>, s: Subject)
    ensures EvaluateAny(Negations(children), s) == Negated(EvaluateAll(children, s))
    ensures EvaluateAll(Negations(children), s) == Negated(EvaluateAny(children, s))
  {
    if children != [] {
      NegationOfEach(children[1..], s);
      var n := Negations(children);
      assert n[0] == Not(children[0]) && n[1..] == Negations(children[1..]);
      assert Evaluate(n[0], s) == Negated(Evaluate(children[0], s));
    }
  }
}

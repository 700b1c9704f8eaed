/** What a predicate's verdict is, comparison by comparison and connective by connective, in terms of the
    values a subject carries. Together the laws leave `Evaluate` no freedom. */
module PredicateLaws {
  import opened Wrappers
  import opened Predicates

  /** The subject has the value in the field. */
  predicate Carries(s: Subject, field: Field, v: Scalar) {
    || (field.Label? && s.labelValue == v)
    || (field.Feature? && field.name in s.features && s.features[field.name] == v)
  }

  // --- comparisons ------------------------------------------------------------------------------

  /** Numbers compare as the reals they are. */
  function Real(n: Number): real {
    match n
    case IntNum(i) => i as real
    case FloatNum(r) => r
  }

  function Verdict(field: Field, op: Ordering, bound: Number, s: Subject): Outcome {
    Evaluate(Compare(field, Ordered(op, bound)), s)
  }

  /** Laws of the orderings, on subjects carrying `x` and `y` in the field: `Lt` is closed downwards and
      `Gt` upwards, neither holds at its bound, one of `Lt`, `Equal` and `Gt` holds and no two do, and
      the other two orderings are made of these. */
  lemma OrderingLaws(field: Field, bound: Number, s: Subject, x: Number, t: Subject, y: Number)
    requires Carries(s, field, Num(x)) && Carries(t, field, Num(y)) && Real(x) <= Real(y)
    ensures Verdict(field, Lt, bound, t) == Ok(true) ==> Verdict(field, Lt, bound, s) == Ok(true)
    ensures Verdict(field, Gt, bound, s) == Ok(true) ==> Verdict(field, Gt, bound, t) == Ok(true)
    ensures x == bound ==> Verdict(field, Lt, bound, s) == Verdict(field, Gt, bound, s) == Ok(false)
    ensures var equal := Evaluate(Compare(field, Equal(Num(bound))), s) == Ok(true);
            var less := Verdict(field, Lt, bound, s) == Ok(true);
            var more := Verdict(field, Gt, bound, s) == Ok(true);
            && (less || equal || more) && !(less && equal) && !(less && more) && !(equal && more)
            && Verdict(field, Le, bound, s) == Ok(less || equal)
            && Verdict(field, Ge, bound, s) == Ok(!less)
            && (equal <==> Real(x) == Real(bound))
    ensures Verdict(field, Lt, y, s) == Ok(Real(x) < Real(y))
  {
    assert Resolve(field, s) == Ok(Num(x)) && Resolve(field, t) == Ok(Num(y));
  }

  /** Below every bound there is a number that `Lt` admits. */
  lemma LessIsInhabited(field: Field, bound: Number, s: Subject)
    requires Carries(s, field, Num(FloatNum(Real(bound) - 1.0)))
    ensures Verdict(field, Lt, bound, s) == Ok(true)
  {
  }

  /** An ordering fails to evaluate exactly on a value that is no number. */
  lemma OrderingErrs(field: Field, op: Ordering, bound: Number, s: Subject, v: Scalar)
    requires Carries(s, field, v)
    ensures Verdict(field, op, bound, s).Err? <==> !v.Num?
    ensures !v.Num? ==> Verdict(field, op, bound, s) == Err(NotANumber(field, v, op))
  {
  }

  /** A comparison names the missing feature exactly when the subject lacks it. */
  lemma MissingFeatureErrs(name: string, test: Test, s: Subject)
    ensures Evaluate(Compare(Feature(name), test), s) == Err(MissingFeature(name)) <==> name !in s.features
    ensures !test.Ordered? ==> (Evaluate(Compare(Feature(name), test), s).Err? <==> name !in s.features)
  {
  }

  /** Equality keeps booleans, numbers and texts apart and compares within each; membership is some
      equality; and the negative tests are negations. */
  lemma EqualityLaws(field: Field, s: Subject, v: Scalar, expected: Scalar, values: seq<Scalar>)
    requires Carries(s, field, v)
    ensures Evaluate(Compare(field, Equal(expected)), s) == Ok(true) <==>
            || (v.Bool? && expected.Bool? && v.b == expected.b)
            || (v.Num? && expected.Num? && Real(v.n) == Real(expected.n))
            || (v.Text? && expected.Text? && v.s == expected.s)
    ensures Evaluate(Compare(field, In(values)), s) == Ok(true) <==>
            exists w :: w in values && Evaluate(Compare(field, Equal(w)), s) == Ok(true)
    ensures Evaluate(Compare(field, Equal(expected)), s).Ok? && Evaluate(Compare(field, In(values)), s).Ok?
    ensures Evaluate(Compare(field, NotEqual(expected)), s) == Evaluate(Not(Compare(field, Equal(expected))), s)
    ensures Evaluate(Compare(field, NotIn(values)), s) == Evaluate(Not(Compare(field, In(values))), s)
  {
    assert Resolve(field, s) == Ok(v);
    forall w ensures Evaluate(Compare(field, Equal(w)), s) == Ok(SameScalar(v, w)) {}
  }

  // --- connectives --------------------------------------------------------------------------------

  /** The first child whose outcome is other than the given one. */
  ghost predicate FirstOther(children: seq<Predicate>, s: Subject, outcome: Outcome, k: int) {
    && 0 <= k < |children| && Evaluate(children[k], s) != outcome
    && forall i :: 0 <= i < k ==> Evaluate(children[i], s) == outcome
  }

  /** `AllOf` holds when every child does, and is otherwise the first child that does not hold or
      cannot be evaluated. */
  lemma {:induction false} AllIsFirstDecisive(children: seq<Predicate>, s: Subject)
    ensures Evaluate(AllOf(children), s) == Ok(true) <==>
            forall i :: 0 <= i < |children| ==> Evaluate(children[i], s) == Ok(true)
    ensures forall k :: FirstOther(children, s, Ok(true), k) ==>
              Evaluate(AllOf(children), s) == Evaluate(children[k], s)
  {
    if children != [] {
      var rest := children[1..];
      AllIsFirstDecisive(rest, s);
      assert Evaluate(AllOf(rest), s) == EvaluateAll(rest, s);
      forall k | FirstOther(children, s, Ok(true), k)
        ensures Evaluate(AllOf(children), s) == Evaluate(children[k], s)
      {
        FirstOtherTail(children, s, Ok(true), k);
      }
      TailAlike(children, s, Ok(true));
    }
  }

  /** `AnyOf` fails when every child does, and is otherwise the first child that holds or cannot be
      evaluated. */
  lemma {:induction false} AnyIsFirstDecisive(children: seq<Predicate>, s: Subject)
    ensures Evaluate(AnyOf(children), s) == Ok(false) <==>
            forall i :: 0 <= i < |children| ==> Evaluate(children[i], s) == Ok(false)
    ensures forall k :: FirstOther(children, s, Ok(false), k) ==>
              Evaluate(AnyOf(children), s) == Evaluate(children[k], s)
  {
    if children != [] {
      var rest := children[1..];
      AnyIsFirstDecisive(rest, s);
      assert Evaluate(AnyOf(rest), s) == EvaluateAny(rest, s);
      forall k | FirstOther(children, s, Ok(false), k)
        ensures Evaluate(AnyOf(children), s) == Evaluate(children[k], s)
      {
        FirstOtherTail(children, s, Ok(false), k);
      }
      TailAlike(children, s, Ok(false));
    }
  }

  lemma FirstOtherTail(children: seq<Predicate>, s: Subject, outcome: Outcome, k: int)
    requires FirstOther(children, s, outcome, k)
    ensures k > 0 ==> Evaluate(children[0], s) == outcome && FirstOther(children[1..], s, outcome, k - 1)
  {
  }

  lemma TailAlike(children: seq<Predicate>, s: Subject, outcome: Outcome)
    requires children != []
    ensures (forall i :: 0 <= i < |children| ==> Evaluate(children[i], s) == outcome) <==>
            Evaluate(children[0], s) == outcome &&
            forall i :: 0 <= i < |children[1..]| ==> Evaluate(children[1..][i], s) == outcome
  {
    if Evaluate(children[0], s) == outcome &&
      forall i :: 0 <= i < |children[1..]| ==> Evaluate(children[1..][i], s) == outcome {
      forall i | 0 <= i < |children| ensures Evaluate(children[i], s) == outcome {
        if i > 0 { assert children[i] == children[1..][i - 1]; }
      }
    }
  }

  /** `Not` exchanges the verdicts and keeps the error. */
  lemma NotExchanges(p: Predicate, s: Subject)
    ensures Evaluate(Not(p), s) == Ok(true) <==> Evaluate(p, s) == Ok(false)
    ensures Evaluate(Not(p), s) == Ok(false) <==> Evaluate(p, s) == Ok(true)
    ensures Evaluate(p, s).Err? ==> Evaluate(Not(p), s) == Evaluate(p, s)
  {
  }

  // --- the fields a predicate reads ------------------------------------------------------------------

  /** Some comparison in the predicate is about the field. */
  ghost predicate Mentions(p: Predicate, f: Field) {
    match p
    case Compare(field, _) => field == f
    case AllOf(children) => exists i :: 0 <= i < |children| && Mentions(children[i], f)
    case AnyOf(children) => exists i :: 0 <= i < |children| && Mentions(children[i], f)
    case Not(child) => Mentions(child, f)
  }

  /** The referenced fields are exactly those some comparison is about. */
  lemma {:induction false} ReferencedAreMentioned(p: Predicate, f: Field)
    ensures f in ReferencedFields(p) <==> Mentions(p, f)
    decreases p, 1
  {
    match p
    case Compare(_, _) =>
    case AllOf(children) => EachMentioned(children, f);
    case AnyOf(children) => EachMentioned(children, f);
    case Not(child) => ReferencedAreMentioned(child, f);
  }

  lemma {:induction false} EachMentioned(children: seq<Predicate>, f: Field)
    ensures f in FieldsOfAll(children) <==> exists i :: 0 <= i < |children| && Mentions(children[i], f)
    decreases children, 0
  {
    if children != [] {
      var rest := children[1..];
      ReferencedAreMentioned(children[0], f);
      EachMentioned(rest, f);
      if i :| 0 <= i < |children| && Mentions(children[i], f) {
        if i > 0 { assert Mentions(rest[i - 1], f); }
      }
      if i :| 0 <= i < |rest| && Mentions(rest[i], f) { assert Mentions(children[i + 1], f); }
    }
  }
}

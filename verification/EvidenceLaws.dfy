/** What merging evidence keeps: every key once and first, the counts, the jurisdictions, and so the
    enforcement outcome; and the order passages are kept in. */
module EvidenceLaws {
  import opened Wrappers
  import opened Sorting
  import opened Passages
  import opened Evidence
  import opened Enforcement

  // --- kept once, at the first occurrence -----------------------------------------------------

  predicate IsFirst(ps: seq<Passage>, i: nat)
    requires i < |ps|
  {
    forall j :: 0 <= j < i ==> !SameKey(ps[j], ps[i])
  }

  /** The same text, retrieved for the same jurisdiction. */
  predicate SameKey(p: Passage, q: Passage) { p.contentHash == q.contentHash && p.jurisdiction == q.jurisdiction }

  /** `at` lists, in order, exactly the positions where a key first occurs. */
  ghost predicate FirstPositions(ps: seq<Passage>, at: seq<nat>) {
    && (forall n :: 0 <= n < |at| ==> at[n] < |ps| && IsFirst(ps, at[n]))
    && (forall m, n :: 0 <= m < n < |at| ==> at[m] < at[n])
    && (forall i: nat :: i < |ps| && IsFirst(ps, i) ==> i in at)
  }

  ghost predicate Picked(ps: seq<Passage>, at: seq<nat>, kept: seq<Passage>) {
    |kept| == |at| && forall n :: 0 <= n < |at| ==> at[n] < |ps| && kept[n] == ps[at[n]]
  }

  /** The kept passages are those at the first occurrence of their key, in retrieval order. */
  lemma {:induction false} KeptFirst(ps: seq<Passage>) returns (at: seq<nat>)
    ensures FirstPositions(ps, at) && Picked(ps, at, FirstOnly(ps))
  {
    if ps == [] { return []; }
    var n := |ps| - 1;
    var earlier := ps[..n];
    var rest := KeptFirst(earlier);
    FirstInEarlier(ps);
    at := if IsFirst(ps, n) then rest + [n] else rest;
    PositionsExtend(ps, rest, at);
    PickedExtends(ps, rest, at, FirstOnly(earlier), FirstOnly(ps));
  }

  lemma PickedExtends(ps: seq<Passage>, rest: seq<nat>, at: seq<nat>, earlier: seq<Passage>, kept: seq<Passage>)
    requires ps != [] && Picked(ps[..|ps| - 1], rest, earlier)
    requires at == if IsFirst(ps, |ps| - 1) then rest + [|ps| - 1] else rest
    requires kept == earlier + if IsFirst(ps, |ps| - 1) then [ps[|ps| - 1]] else []
    ensures Picked(ps, at, kept)
  {
    forall n | 0 <= n < |at| ensures at[n] < |ps| && kept[n] == ps[at[n]] {
      if n < |rest| { assert earlier[n] == ps[..|ps| - 1][rest[n]]; }
    }
  }

  lemma PositionsExtend(ps: seq<Passage>, rest: seq<nat>, at: seq<nat>)
    requires ps != [] && FirstPositions(ps[..|ps| - 1], rest)
    requires at == if IsFirst(ps, |ps| - 1) then rest + [|ps| - 1] else rest
    ensures FirstPositions(ps, at)
  {
    FirstInEarlier(ps);
    var n := |ps| - 1;
    forall m | 0 <= m < |at| ensures at[m] < |ps| && IsFirst(ps, at[m]) {
      if m < |rest| { assert IsFirst(ps[..n], rest[m]); }
    }
    forall i: nat | i < |ps| && IsFirst(ps, i) ensures i in at {
      if i < n {
        assert IsFirst(ps[..n], i);
        assert i in rest;
      } else {
        assert at[|rest|] == n;
      }
    }
  }

  lemma FirstInEarlier(ps: seq<Passage>)
    requires ps != []
    ensures forall i: nat :: i < |ps| - 1 ==> (IsFirst(ps, i) <==> IsFirst(ps[..|ps| - 1], i))
    ensures IsFirst(ps, |ps| - 1) <==> KeyOf(ps[|ps| - 1]) !in KeysOf(ps[..|ps| - 1])
  {
    var n := |ps| - 1;
    InKeys(ps[..n], KeyOf(ps[n]));
    forall i: nat | i < n ensures IsFirst(ps, i) <==> IsFirst(ps[..n], i) {
      assert forall j :: 0 <= j <= i ==> ps[..n][j] == ps[j];
    }
    assert forall j :: 0 <= j < n ==> ps[..n][j] == ps[j];
  }

  lemma InKeys(ps: seq<Passage>, key: Key)
    ensures key in KeysOf(ps) <==> exists j :: 0 <= j < |ps| && KeyOf(ps[j]) == key
  {
  }

  /** Merging keeps, of the passages with one text for one jurisdiction, one: it loses none altogether and
      keeps none twice. */
  lemma EachKeptOnce(ps: seq<Passage>)
    ensures forall p :: p in ps ==> exists q :: q in FirstOnly(ps) && SameKey(q, p)
    ensures forall p :: p in FirstOnly(ps) ==> p in ps
    ensures forall i, j :: 0 <= i < j < |FirstOnly(ps)| ==> !SameKey(FirstOnly(ps)[i], FirstOnly(ps)[j])
  {
    var kept := FirstOnly(ps);
    KeysKept(ps);
    var at := KeptFirst(ps);
    forall p | p in ps ensures exists q :: q in kept && SameKey(q, p) {
      assert KeyOf(p) in KeysOf(kept);
      InKeys(kept, KeyOf(p));
      var j :| 0 <= j < |kept| && KeyOf(kept[j]) == KeyOf(p);
      assert kept[j] in kept && SameKey(kept[j], p);
    }
    forall p | p in kept ensures p in ps {
      var n :| 0 <= n < |kept| && kept[n] == p;
      assert ps[at[n]] == p;
    }
  }

  lemma {:induction false} KeysKept(ps: seq<Passage>)
    ensures KeysOf(FirstOnly(ps)) == KeysOf(ps)
    ensures forall i, j :: 0 <= i < j < |FirstOnly(ps)| ==> KeyOf(FirstOnly(ps)[i]) != KeyOf(FirstOnly(ps)[j])
  {
    if ps != [] {
      var last, earlier := ps[|ps| - 1], ps[..|ps| - 1];
      KeysKept(earlier);
      assert ps == earlier + [last];
      KeysAppend(earlier, last);
      KeysAppend(FirstOnly(earlier), last);
      var kept := FirstOnly(earlier);
      forall i | 0 <= i < |kept| ensures KeyOf(kept[i]) in KeysOf(kept) { InKeys(kept, KeyOf(kept[i])); }
    }
  }

  lemma KeysAppend(ps: seq<Passage>, p: Passage)
    ensures KeysOf(ps + [p]) == KeysOf(ps) + {KeyOf(p)}
  {
  }

  // --- the answers -----------------------------------------------------------------------------

  /** A corpus is asked, under a filter of exactly the jurisdictions admitted, when there is one, or
      unfiltered when every one is, and what it answers is as contracted; asked for nothing, it answers
      nothing. */
  ghost predicate IsAnswer(digest: Digest, providers: Providers, corpus: CorpusRef, k: nat, submitted: seq<string>,
                           a: Answer) {
    a.corpus == corpus &&
    if forall j: string :: !Admitted(corpus, submitted, j) then a.result == None
    else exists filter: Option<seq<string>> ::
           && (filter.None? <==> corpus.jurisdictions == {} && submitted == [])
           && (filter.Some? ==> forall j: string :: j in filter.value <==> Admitted(corpus, submitted, j))
           && a.result == providers(corpus, filter, k) && a.result.Some?
           && a.result.value.stateCorpus == corpus.corpusId && a.result.value.stateProvider == corpus.provider
           && |a.result.value.contexts| <= k
           && forall i :: 0 <= i < |a.result.value.contexts| ==>
                AsContracted(digest, corpus, a.result.value.contexts[i], i + 1)
  }

  lemma AskedIsAnswer(digest: Digest, providers: Providers, corpus: CorpusRef, k: nat, submitted: seq<string>,
                      a: Answer)
    requires Asked(digest, providers, corpus, k, submitted) == Some(a)
    ensures IsAnswer(digest, providers, corpus, k, submitted, a)
  {
    FilterIsIntersection(corpus, submitted);
    var f := CorpusFilter(corpus, submitted);
    if f.Some? {
      var contexts := a.result.value.contexts;
      forall i | 0 <= i < |contexts| ensures AsContracted(digest, corpus, contexts[i], i + 1) {
        assert PassageMeets(digest, corpus, contexts[i], i + 1);
      }
      assert a.result == providers(corpus, f.value, k);
    }
  }

  /** A successful retrieval: each corpus's answer in the binding's order, one query recorded for each, with
      what it returned and whether it went unqueried; and among the passages, exactly those answered. */
  lemma RetrievalIs(digest: Digest, providers: Providers, corpora: seq<CorpusRef>, k: nat, submitted: seq<string>,
                    answers: seq<Answer>, r: Retrieval)
    requires Answered(digest, providers, corpora, k, submitted, answers) && Gathered(answers, r)
    ensures |answers| == |r.queries| == |corpora|
    ensures forall i :: 0 <= i < |corpora| ==>
              && IsAnswer(digest, providers, corpora[i], k, submitted, answers[i])
              && r.queries[i].corpus == corpora[i] && r.queries[i].returned == |answers[i].Contexts()|
              && (r.queries[i].skipped <==> forall j: string :: !Admitted(corpora[i], submitted, j))
    ensures forall p :: p in Retrieved(answers) <==> exists i :: 0 <= i < |answers| && p in answers[i].Contexts()
  {
    forall i | 0 <= i < |corpora|
      ensures IsAnswer(digest, providers, corpora[i], k, submitted, answers[i])
      ensures r.queries[i].corpus == corpora[i] && r.queries[i].returned == |answers[i].Contexts()|
      ensures r.queries[i].skipped <==> forall j: string :: !Admitted(corpora[i], submitted, j)
    {
      assert Asked(digest, providers, corpora[i], k, submitted) == Some(answers[i]);
      AskedIsAnswer(digest, providers, corpora[i], k, submitted, answers[i]);
    }
    AllRetrieved(answers);
  }

  lemma AllRetrieved(answers: seq<Answer>)
    ensures forall p :: p in Retrieved(answers) <==> exists i :: 0 <= i < |answers| && p in answers[i].Contexts()
  {
    var ordered := Sort(TierLeq(), answers);
    SortKeepsElements(TierLeq(), answers);
    forall p ensures p in Retrieved(answers) <==> exists i :: 0 <= i < |answers| && p in answers[i].Contexts() {
      InConcat(ordered, p);
      InConcat(answers, p);
      assert (exists a :: a in ordered && p in a.Contexts()) <==> exists a :: a in answers && p in a.Contexts();
    }
  }

  lemma {:induction false} InConcat(answers: seq<Answer>, p: Passage)
    ensures p in Concat(answers) <==> exists a :: a in answers && p in a.Contexts()
    ensures (exists a :: a in answers && p in a.Contexts()) <==>
            exists i :: 0 <= i < |answers| && p in answers[i].Contexts()
  {
    if answers != [] {
      assert answers == [answers[0]] + answers[1..];
      InConcat(answers[1..], p);
    }
    if a :| a in answers && p in a.Contexts() {
      var i :| 0 <= i < |answers| && answers[i] == a;
    }
    if i :| 0 <= i < |answers| && p in answers[i].Contexts() { assert answers[i] in answers; }
  }

  /** A reference to a passage: its document, its jurisdiction if it names one, its digest, and the digest of
      the document escrowed for it. */
  lemma RefsAre(ps: seq<Passage>)
    ensures |RefsOf(ps)| == |ps|
    ensures forall i :: 0 <= i < |ps| ==>
              var ref, p := RefsOf(ps)[i], ps[i];
              && ref.sourceId == p.documentId && ref.contentHash == Some(p.contentHash)
              && ref.artifactHash == p.artifactHash
              && forall j :: j in ref.jurisdictions <==> j != "" && p.jurisdiction == Some(j)
  {
  }

  // --- conservation ---------------------------------------------------------------------------

  function At(ps: seq<Passage>, c: string): set<int> { set i | 0 <= i < |ps| && ps[i].corpusId == c }

  lemma {:induction false} CountIs(ps: seq<Passage>, c: string)
    ensures CountOf(ps, c) == |At(ps, c)|
  {
    if ps != [] {
      var n := |ps| - 1;
      CountIs(ps[..n], c);
      AtNext(ps[..n], ps[n], c);
      assert ps[..n] + [ps[n]] == ps;
    }
  }

  lemma AtNext(ps: seq<Passage>, p: Passage, c: string)
    ensures At(ps + [p], c) == At(ps, c) + if p.corpusId == c then {|ps|} else {}
  {
    forall i | 0 <= i < |ps| ensures (ps + [p])[i] == ps[i] {}
  }

  lemma {:induction false} KeptPlusMerged(ps: seq<Passage>, c: string)
    ensures CountOf(ps, c) == CountOf(FirstOnly(ps), c) + Merges(ps, c)
  {
    if ps != [] {
      var last, earlier := ps[|ps| - 1], ps[..|ps| - 1];
      KeptPlusMerged(earlier, c);
      var kept := FirstOnly(earlier) + [last];
      assert kept[..|kept| - 1] == FirstOnly(earlier);
      assert FirstOnly(ps) == if KeyOf(last) in KeysOf(earlier) then FirstOnly(earlier) else kept;
    }
  }

  lemma {:induction false} CountAppend(a: seq<Passage>, b: seq<Passage>, c: string)
    ensures CountOf(a + b, c) == CountOf(a, c) + CountOf(b, c)
  {
    if b == [] {
      assert a + b == a;
    } else {
      assert (a + b)[..|a + b| - 1] == a + b[..|b| - 1];
      CountAppend(a, b[..|b| - 1], c);
    }
  }

  lemma {:induction false} CountAll(ps: seq<Passage>, corpusId: string, c: string)
    requires forall p :: p in ps ==> p.corpusId == corpusId
    ensures CountOf(ps, c) == if c == corpusId then |ps| else 0
  {
    if ps != [] {
      CountAll(ps[..|ps| - 1], corpusId, c);
      assert ps[|ps| - 1] in ps;
    }
  }

  lemma {:induction false} ConcatCount(answers: seq<Answer>, i: nat)
    requires i < |answers| && Labelled(answers)
    requires forall n :: 0 <= n < |answers| && n != i ==> answers[n].corpus.corpusId != answers[i].corpus.corpusId
    ensures CountOf(Concat(answers), answers[i].corpus.corpusId) == |answers[i].Contexts()|
  {
    var c := answers[i].corpus.corpusId;
    LabelledTail(answers);
    CountAppend(answers[0].Contexts(), Concat(answers[1..]), c);
    CountAll(answers[0].Contexts(), answers[0].corpus.corpusId, c);
    if i > 0 {
      ConcatCount(answers[1..], i - 1);
    } else {
      ConcatWithout(answers[1..], c);
    }
  }

  lemma LabelledTail(answers: seq<Answer>)
    requires answers != [] && Labelled(answers)
    ensures Labelled(answers[1..])
    ensures forall p :: p in answers[0].Contexts() ==> p.corpusId == answers[0].corpus.corpusId
  {
    forall i, j | 0 <= i < |answers[1..]| && 0 <= j < |answers[1..][i].Contexts()|
      ensures answers[1..][i].Contexts()[j].corpusId == answers[1..][i].corpus.corpusId
    {
      assert answers[1..][i] == answers[i + 1];
    }
  }

  lemma {:induction false} ConcatWithout(answers: seq<Answer>, c: string)
    requires Labelled(answers) && forall n :: 0 <= n < |answers| ==> answers[n].corpus.corpusId != c
    ensures CountOf(Concat(answers), c) == 0
  {
    if answers != [] {
      LabelledTail(answers);
      CountAppend(answers[0].Contexts(), Concat(answers[1..]), c);
      CountAll(answers[0].Contexts(), answers[0].corpus.corpusId, c);
      ConcatWithout(answers[1..], c);
    }
  }

  ghost predicate AnswersOnce(answers: seq<Answer>) {
    forall i, j :: 0 <= i < j < |answers| ==> answers[i].corpus.corpusId != answers[j].corpus.corpusId
  }

  /** For every corpus, the passages returned are those kept plus those merged away. */
  lemma MergingConserves(answers: seq<Answer>, r: Retrieval, i: nat)
    requires Gathered(answers, r) && Labelled(answers) && AnswersOnce(answers) && i < |answers|
    ensures r.queries[i].returned == |answers[i].Contexts()| ==
            |At(r.contexts, answers[i].corpus.corpusId)| + r.queries[i].merged
  {
    CountIs(r.contexts, answers[i].corpus.corpusId);
    var c, ordered := answers[i].corpus.corpusId, Sort(TierLeq(), answers);
    KeptPlusMerged(Retrieved(answers), c);
    LabelledSorted(answers);
    SortKeepsElements(TierLeq(), answers);
    assert answers[i] in ordered;
    var k :| 0 <= k < |ordered| && ordered[k] == answers[i];
    OnceSorted(answers);
    ConcatCount(ordered, k);
  }

  lemma OnceSorted(answers: seq<Answer>)
    requires AnswersOnce(answers)
    ensures AnswersOnce(Sort(TierLeq(), answers))
  {
    var ordered := Sort(TierLeq(), answers);
    SortKeepsElements(TierLeq(), answers);
    assert Distinct(answers);
    SortKeepsDistinct(TierLeq(), answers);
    forall i, j | 0 <= i < j < |ordered| ensures ordered[i].corpus.corpusId != ordered[j].corpus.corpusId {
      assert ordered[i] in answers && ordered[j] in answers;
      var a :| 0 <= a < |answers| && answers[a] == ordered[i];
      var b :| 0 <= b < |answers| && answers[b] == ordered[j];
      assert a != b;
      assert a < b || b < a;
    }
  }

  // --- jurisdictions -----------------------------------------------------------------------------

  lemma JurisdictionsOfKeys(ps: seq<Passage>, j: string)
    ensures j in Jurisdictions(RefsOf(ps)) <==> j != "" && exists key :: key in KeysOf(ps) && key.1 == Some(j)
  {
    if j in Jurisdictions(RefsOf(ps)) {
      var e :| e in RefsOf(ps) && j in e.jurisdictions;
      var i :| 0 <= i < |ps| && RefsOf(ps)[i] == e;
      assert KeyOf(ps[i]) in KeysOf(ps);
    }
    if j != "" && exists key :: key in KeysOf(ps) && key.1 == Some(j) {
      var key :| key in KeysOf(ps) && key.1 == Some(j);
      InKeys(ps, key);
      var i :| 0 <= i < |ps| && KeyOf(ps[i]) == key;
      assert RefsOf(ps)[i] in RefsOf(ps);
    }
  }

  /** Merging changes neither the union of jurisdictions nor the action and rule enforcement reaches. */
  lemma MergingIsInvisible(ps: seq<Passage>, output: GateOutput, groups: seq<set<string>>)
    ensures Jurisdictions(RefsOf(FirstOnly(ps))) == Jurisdictions(RefsOf(ps))
    ensures ResolveGateOutput(Some(output.(evidence := RefsOf(FirstOnly(ps)))), groups) ==
            ResolveGateOutput(Some(output.(evidence := RefsOf(ps))), groups)
  {
    KeysKept(ps);
    forall j ensures j in Jurisdictions(RefsOf(FirstOnly(ps))) <==> j in Jurisdictions(RefsOf(ps)) {
      JurisdictionsOfKeys(ps, j);
      JurisdictionsOfKeys(FirstOnly(ps), j);
    }
    assert Jurisdictions(RefsOf(FirstOnly(ps))) == Jurisdictions(RefsOf(ps));
  }

  // --- precedence order ----------------------------------------------------------------------------

  /** The place of a corpus in the binding. */
  function PlaceIn(answers: seq<Answer>, corpusId: string): nat {
    if answers == [] || answers[0].corpus.corpusId == corpusId then 0 else 1 + PlaceIn(answers[1..], corpusId)
  }

  lemma {:induction false} PlaceOf(answers: seq<Answer>, i: nat)
    requires AnswersOnce(answers) && i < |answers|
    ensures PlaceIn(answers, answers[i].corpus.corpusId) == i
  {
    if i > 0 {
      assert answers[0].corpus.corpusId != answers[i].corpus.corpusId;
      PlaceOf(answers[1..], i - 1);
    }
  }

  type Place = string -> nat

  /** Tier first, then place in the binding. */
  predicate AnswerBefore(place: Place, a: Answer, b: Answer) {
    a.corpus.tier < b.corpus.tier ||
    (a.corpus.tier == b.corpus.tier && place(a.corpus.corpusId) < place(b.corpus.corpusId))
  }

  /** Then rank within the corpus. */
  predicate Before(place: Place, p: Passage, q: Passage) {
    || p.tier < q.tier
    || (p.tier == q.tier && place(p.corpusId) < place(q.corpusId))
    || (p.tier == q.tier && place(p.corpusId) == place(q.corpusId) && p.rank < q.rank)
  }

  ghost predicate AnswersOrdered(place: Place, answers: seq<Answer>) {
    forall i, j :: 0 <= i < j < |answers| ==> AnswerBefore(place, answers[i], answers[j])
  }

  ghost predicate Increasing(place: Place, answers: seq<Answer>) {
    forall i, j :: 0 <= i < j < |answers| ==> place(answers[i].corpus.corpusId) < place(answers[j].corpus.corpusId)
  }

  lemma {:induction false} SortKeepsPlaces(place: Place, answers: seq<Answer>)
    requires Increasing(place, answers)
    ensures AnswersOrdered(place, Sort(TierLeq(), answers))
  {
    if answers != [] {
      var rest := answers[1..];
      forall i, j | 0 <= i < j < |rest| ensures place(rest[i].corpus.corpusId) < place(rest[j].corpus.corpusId) {
        assert rest[i] == answers[i + 1] && rest[j] == answers[j + 1];
      }
      SortKeepsPlaces(place, rest);
      SortKeepsElements(TierLeq(), rest);
      var ordered := Sort(TierLeq(), rest);
      forall n | 0 <= n < |ordered| ensures place(answers[0].corpus.corpusId) < place(ordered[n].corpus.corpusId) {
        assert ordered[n] in rest;
      }
      InsertKeepsPlaces(place, answers[0], ordered);
    }
  }

  lemma {:induction false} InsertKeepsPlaces(place: Place, x: Answer, s: seq<Answer>)
    requires AnswersOrdered(place, s)
    requires forall n :: 0 <= n < |s| ==> place(x.corpus.corpusId) < place(s[n].corpus.corpusId)
    ensures AnswersOrdered(place, Insert(TierLeq(), x, s))
  {
    if s != [] {
      if x.corpus.tier <= s[0].corpus.tier {
        assert Insert(TierLeq(), x, s) == [x] + s;
        forall n | 0 <= n < |s| ensures AnswerBefore(place, x, s[n]) {
          assert n > 0 ==> AnswerBefore(place, s[0], s[n]);
        }
      } else {
        InsertKeepsPlaces(place, x, s[1..]);
        var t := Insert(TierLeq(), x, s[1..]);
        forall n | 0 <= n < |t| ensures AnswerBefore(place, s[0], t[n]) {
          assert t[n] in multiset(t);
          if t[n] != x {
            assert t[n] in multiset(s[1..]);
            var m :| 0 <= m < |s[1..]| && s[1..][m] == t[n];
            assert AnswerBefore(place, s[0], s[m + 1]);
          }
        }
      }
    }
  }

  /** What the contract makes of every answer's passages. */
  ghost predicate Conforming(answers: seq<Answer>) {
    forall i, j :: 0 <= i < |answers| && 0 <= j < |answers[i].Contexts()| ==>
      RightlyPlaced(answers[i].corpus, answers[i].Contexts()[j], j)
  }

  predicate RightlyPlaced(corpus: CorpusRef, p: Passage, j: nat) {
    p.corpusId == corpus.corpusId && p.tier == corpus.tier && p.rank == j + 1
  }

  lemma AnsweredConforms(digest: Digest, providers: Providers, corpora: seq<CorpusRef>, k: nat,
                         submitted: seq<string>, answers: seq<Answer>)
    requires Answered(digest, providers, corpora, k, submitted, answers) && EachCorpusOnce(corpora)
    ensures Conforming(answers) && AnswersOnce(answers)
  {
    AnsweredIsLabelled(digest, providers, corpora, k, submitted, answers);
    forall i, j | 0 <= i < |answers| && 0 <= j < |answers[i].Contexts()|
      ensures RightlyPlaced(answers[i].corpus, answers[i].Contexts()[j], j)
    {
      assert Asked(digest, providers, corpora[i], k, submitted) == Some(answers[i]);
      assert PassageMeets(digest, corpora[i], answers[i].Contexts()[j], j + 1);
    }
  }

  ghost predicate PassagesOrdered(place: Place, ps: seq<Passage>) {
    forall i, j :: 0 <= i < j < |ps| ==> Before(place, ps[i], ps[j])
  }

  lemma {:induction false} ConcatOrdered(place: Place, answers: seq<Answer>)
    requires AnswersOrdered(place, answers) && Conforming(answers)
    ensures PassagesOrdered(place, Concat(answers))
  {
    if answers != [] {
      var head, rest := answers[0].Contexts(), Concat(answers[1..]);
      ConformingTail(answers);
      ConcatOrdered(place, answers[1..]);
      forall i, j | 0 <= i < |head| && 0 <= j < |rest| ensures Before(place, head[i], rest[j]) {
        assert RightlyPlaced(answers[0].corpus, head[i], i);
        var n, m := SourceOf(answers[1..], j);
        assert AnswerBefore(place, answers[0], answers[n + 1]);
      }
      forall i, j | 0 <= i < j < |head| ensures Before(place, head[i], head[j]) {
        assert RightlyPlaced(answers[0].corpus, head[i], i) && RightlyPlaced(answers[0].corpus, head[j], j);
      }
      AppendOrdered(place, head, rest);
    }
  }

  lemma AppendOrdered(place: Place, a: seq<Passage>, b: seq<Passage>)
    requires PassagesOrdered(place, a) && PassagesOrdered(place, b)
    requires forall i, j :: 0 <= i < |a| && 0 <= j < |b| ==> Before(place, a[i], b[j])
    ensures PassagesOrdered(place, a + b)
  {
  }

  lemma ConformingTail(answers: seq<Answer>)
    requires answers != [] && Conforming(answers)
    ensures Conforming(answers[1..])
  {
    forall i, j | 0 <= i < |answers[1..]| && 0 <= j < |answers[1..][i].Contexts()|
      ensures RightlyPlaced(answers[1..][i].corpus, answers[1..][i].Contexts()[j], j)
    {
      assert answers[1..][i] == answers[i + 1];
    }
  }

  lemma {:induction false} SourceOf(answers: seq<Answer>, j: nat) returns (n: nat, m: nat)
    requires Conforming(answers) && j < |Concat(answers)|
    ensures n < |answers| && m < |answers[n].Contexts()| && Concat(answers)[j] == answers[n].Contexts()[m]
    ensures RightlyPlaced(answers[n].corpus, Concat(answers)[j], m)
  {
    var head := answers[0].Contexts();
    if j < |head| {
      n, m := 0, j;
    } else {
      ConformingTail(answers);
      n, m := SourceOf(answers[1..], j - |head|);
      n := n + 1;
    }
  }

  /** The passages are merged, and so kept, by tier, then the binding's order, then rank: a key is
      kept at its highest-precedence occurrence. */
  lemma MergedByPrecedence(answers: seq<Answer>)
    requires Conforming(answers) && AnswersOnce(answers)
    ensures PassagesOrdered(id => PlaceIn(answers, id), Retrieved(answers))
  {
    var place := id => PlaceIn(answers, id);
    forall i, j | 0 <= i < j < |answers|
      ensures place(answers[i].corpus.corpusId) < place(answers[j].corpus.corpusId)
    {
      PlaceOf(answers, i);
      PlaceOf(answers, j);
    }
    SortKeepsPlaces(place, answers);
    var ordered := Sort(TierLeq(), answers);
    SortKeepsElements(TierLeq(), answers);
    forall i, j | 0 <= i < |ordered| && 0 <= j < |ordered[i].Contexts()|
      ensures RightlyPlaced(ordered[i].corpus, ordered[i].Contexts()[j], j)
    {
      assert ordered[i] in answers;
    }
    ConcatOrdered(place, ordered);
  }

  /** A kept passage has the highest precedence among the retrieved passages with its key. */
  lemma KeptHasPrecedence(answers: seq<Answer>, r: Retrieval, p: Passage, q: Passage)
    requires Conforming(answers) && AnswersOnce(answers) && Gathered(answers, r)
    requires p in r.contexts && q in Retrieved(answers) && SameKey(p, q)
    ensures p == q || Before(id => PlaceIn(answers, id), p, q)
  {
    var all := Retrieved(answers);
    MergedByPrecedence(answers);
    var at := KeptFirst(all);
    var n :| 0 <= n < |r.contexts| && r.contexts[n] == p;
    var j :| 0 <= j < |all| && all[j] == q;
    assert IsFirst(all, at[n]);
  }
}

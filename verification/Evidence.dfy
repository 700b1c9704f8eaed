/** Retrieving a decision's evidence: each corpus's answer held to the contract, then merged in
    precedence order, each text once per jurisdiction. */
module Evidence {
  import opened Wrappers
  import opened Sorting
  import opened Passages
  import opened Enforcement

  datatype CorpusRef = CorpusRef(
    corpusId: string, provider: string, tier: nat, jurisdictions: set<string>, minProvenance: Provenance)

  /** No two corpora of a binding share an id. */
  ghost predicate EachCorpusOnce(corpora: seq<CorpusRef>) {
    forall i, j :: 0 <= i < j < |corpora| ==> corpora[i].corpusId != corpora[j].corpusId
  }

  datatype ProviderResult = ProviderResult(stateCorpus: string, stateProvider: string, contexts: seq<Passage>)

  /** Asks a corpus's provider for at most k passages under a filter; None when the provider is not
      installed or raises. */
  type Providers = (CorpusRef, Option<seq<string>>, nat) -> Option<ProviderResult>

  /** What one corpus answered; no result when it was not queried. */
  datatype Answer = Answer(corpus: CorpusRef, result: Option<ProviderResult>)
  {
    function Contexts(): seq<Passage> { if result.Some? then result.value.contexts else [] }
  }

  datatype CorpusQuery = CorpusQuery(corpus: CorpusRef, returned: nat, merged: nat, skipped: bool)

  datatype Retrieval = Retrieval(queries: seq<CorpusQuery>, contexts: seq<Passage>, dedupMerged: nat)

  // --- the filter and the contract --------------------------------------------------------------

  function Both(submitted: seq<string>, read: set<string>): (r: seq<string>)
    ensures forall j :: j in r <==> j in submitted && j in read
  {
    if submitted == [] then []
    else
      assert submitted == [submitted[0]] + submitted[1..];
      (if submitted[0] in read then [submitted[0]] else []) + Both(submitted[1..], read)
  }

  /** What a corpus is queried with: None for no query at all, Some(None) for one without a filter. */
  function CorpusFilter(corpus: CorpusRef, submitted: seq<string>): Option<Option<seq<string>>> {
    if corpus.jurisdictions == {} then Some(if submitted == [] then None else Some(submitted))
    else if submitted == [] then Some(Some(SortedTexts(corpus.jurisdictions)))
    else
      var both := Both(submitted, corpus.jurisdictions);
      if both != [] then Some(Some(both)) else None
  }

  /** A jurisdiction both the binding and the submission admit. */
  predicate Admitted(corpus: CorpusRef, submitted: seq<string>, j: string) {
    (corpus.jurisdictions == {} || j in corpus.jurisdictions) && (submitted == [] || j in submitted)
  }

  /** The filter admits exactly what both sides admit; a corpus goes unqueried exactly when that is
      nothing; and a filter passed to a provider is never empty. */
  lemma FilterIsIntersection(corpus: CorpusRef, submitted: seq<string>)
    ensures var f := CorpusFilter(corpus, submitted);
            && (f.None? <==> forall j: string :: !Admitted(corpus, submitted, j))
            && (f == Some(None) <==> corpus.jurisdictions == {} && submitted == [])
            && (f.Some? && f.value.Some? ==>
                  f.value.value != [] && forall j: string :: j in f.value.value <==> Admitted(corpus, submitted, j))
  {
    var f := CorpusFilter(corpus, submitted);
    if submitted != [] {
      assert submitted[0] in submitted;
      if corpus.jurisdictions == {} { assert Admitted(corpus, submitted, submitted[0]); }
      else if f.Some? {
        var j := Both(submitted, corpus.jurisdictions)[0];
        assert j in Both(submitted, corpus.jurisdictions);
        assert Admitted(corpus, submitted, j);
      }
    } else if corpus.jurisdictions != {} {
      var j :| j in corpus.jurisdictions;
      assert j in SortedTexts(corpus.jurisdictions);
      assert Admitted(corpus, submitted, j);
    } else {
      assert Admitted(corpus, submitted, "");
    }
  }

  ghost predicate MeetsContract(digest: Digest, corpus: CorpusRef, r: ProviderResult, k: nat) {
    && (r.stateCorpus, r.stateProvider) == (corpus.corpusId, corpus.provider)
    && |r.contexts| <= k
    && forall i :: 0 <= i < |r.contexts| ==> PassageMeets(digest, corpus, r.contexts[i], i + 1)
  }

  predicate PassageMeets(digest: Digest, corpus: CorpusRef, p: Passage, rank: nat) {
    && digest(p.text) == p.contentHash
    && (p.corpusId, p.provider, p.tier) == (corpus.corpusId, corpus.provider, corpus.tier)
    && p.rank == rank
    && p.provenance.Strength() >= corpus.minProvenance.Strength()
  }

  /** The passage is the text digested, of this corpus, provider and tier, at its rank, and pinned down at
      least as well as the binding asks: anything does for text only, nothing less for a pinned version. */
  predicate AsContracted(digest: Digest, corpus: CorpusRef, p: Passage, rank: nat) {
    && p.contentHash == digest(p.text)
    && p.corpusId == corpus.corpusId && p.provider == corpus.provider && p.tier == corpus.tier && p.rank == rank
    && match corpus.minProvenance
       case TextOnly => true
       case UriAndHash => p.provenance != TextOnly
       case PinnedVersion => p.provenance == PinnedVersion
  }

  lemma MeetsAsContracted(digest: Digest, corpus: CorpusRef, p: Passage, rank: nat)
    ensures PassageMeets(digest, corpus, p, rank) <==> AsContracted(digest, corpus, p, rank)
  {
  }

  /** Check the answer's label and length, then its passages, up to the first that breaks the contract. */
  method CheckContract(digest: Digest, corpus: CorpusRef, r: ProviderResult, k: nat) returns (ok: bool)
    ensures ok == MeetsContract(digest, corpus, r, k)
    ensures ok <==>
            && r.stateCorpus == corpus.corpusId && r.stateProvider == corpus.provider && |r.contexts| <= k
            && forall i :: 0 <= i < |r.contexts| ==> AsContracted(digest, corpus, r.contexts[i], i + 1)
  {
    if (r.stateCorpus, r.stateProvider) != (corpus.corpusId, corpus.provider) || |r.contexts| > k { return false; }
    for i := 0 to |r.contexts|
      invariant forall n :: 0 <= n < i ==> PassageMeets(digest, corpus, r.contexts[n], n + 1)
    {
      if !PassageMeets(digest, corpus, r.contexts[i], i + 1) { return false; }
    }
    return true;
  }

  /** The answer to one corpus's query, None when it fails closed. */
  ghost function Asked(digest: Digest, providers: Providers, corpus: CorpusRef, k: nat,
                       submitted: seq<string>): Option<Answer> {
    var f := CorpusFilter(corpus, submitted);
    if f.None? then Some(Answer(corpus, None))
    else
      var r := providers(corpus, f.value, k);
      if r.None? || !MeetsContract(digest, corpus, r.value, k) then None else Some(Answer(corpus, r))
  }

  ghost predicate Answered(digest: Digest, providers: Providers, corpora: seq<CorpusRef>, k: nat,
                           submitted: seq<string>, answers: seq<Answer>) {
    |answers| == |corpora| &&
    forall i :: 0 <= i < |corpora| ==> Asked(digest, providers, corpora[i], k, submitted) == Some(answers[i])
  }

  // --- merging ---------------------------------------------------------------------------------

  type Key = (string, Option<string>)

  function KeyOf(p: Passage): Key { (p.contentHash, p.jurisdiction) }

  function KeysOf(ps: seq<Passage>): set<Key> { set p | p in ps :: KeyOf(p) }

  function TierLeq(): (Answer, Answer) -> bool { (a: Answer, b: Answer) => a.corpus.tier <= b.corpus.tier }

  function Concat(answers: seq<Answer>): seq<Passage> {
    if answers == [] then [] else answers[0].Contexts() + Concat(answers[1..])
  }

  /** Everything retrieved, in precedence order. */
  function Retrieved(answers: seq<Answer>): seq<Passage> { Concat(Sort(TierLeq(), answers)) }

  /** The passages whose key no earlier passage has. */
  function FirstOnly(ps: seq<Passage>): seq<Passage> {
    if ps == [] then []
    else
      var last, earlier := ps[|ps| - 1], ps[..|ps| - 1];
      FirstOnly(earlier) + if KeyOf(last) in KeysOf(earlier) then [] else [last]
  }

  /** How many passages of a corpus repeat an earlier key. */
  function Merges(ps: seq<Passage>, corpusId: string): nat {
    if ps == [] then 0
    else
      var last, earlier := ps[|ps| - 1], ps[..|ps| - 1];
      Merges(earlier, corpusId) + if last.corpusId == corpusId && KeyOf(last) in KeysOf(earlier) then 1 else 0
  }

  function CountOf(ps: seq<Passage>, corpusId: string): nat {
    if ps == [] then 0
    else
      var last := ps[|ps| - 1];
      CountOf(ps[..|ps| - 1], corpusId) + if last.corpusId == corpusId then 1 else 0
  }

  function GetCount(m: map<string, nat>, k: string): nat { if k in m then m[k] else 0 }

  ghost function Total(m: map<string, nat>): nat {
    if m == map[] then 0 else var k :| k in m; m[k] + Total(m - {k})
  }

  lemma {:induction false} TotalWithout(m: map<string, nat>, k: string)
    requires k in m
    ensures Total(m) == m[k] + Total(m - {k})
  {
    var c :| c in m && Total(m) == m[c] + Total(m - {c});
    if c != k {
      TotalWithout(m - {c}, k);
      TotalWithout(m - {k}, c);
      assert m - {c} - {k} == m - {k} - {c};
    }
  }

  lemma TotalCounts(m: map<string, nat>, k: string)
    ensures Total(m[k := GetCount(m, k) + 1]) == Total(m) + 1
  {
    var more := m[k := GetCount(m, k) + 1];
    TotalWithout(more, k);
    if k in m {
      TotalWithout(m, k);
      assert more - {k} == m - {k};
    } else {
      assert more - {k} == m;
    }
  }

  method Sum(m: map<string, nat>) returns (total: nat)
    ensures total == Total(m)
  {
    total := 0;
    var rest := m;
    while rest != map[]
      invariant total + Total(rest) == Total(m)
      decreases |rest|
    {
      var k :| k in rest;
      TotalWithout(rest, k);
      total := total + rest[k];
      ghost var was := rest;
      rest := rest - {k};
      assert was.Keys == rest.Keys + {k};
    }
  }

  ghost predicate Labelled(answers: seq<Answer>) {
    forall i, j :: 0 <= i < |answers| && 0 <= j < |answers[i].Contexts()| ==>
      answers[i].Contexts()[j].corpusId == answers[i].corpus.corpusId
  }

  /** The merge: keys seen so far, the passages kept, and the repeats counted by corpus. */
  method Merge(answers: seq<Answer>) returns (contexts: seq<Passage>, merged: map<string, nat>)
    requires Labelled(answers)
    ensures MergeState(Retrieved(answers), KeysOf(Retrieved(answers)), contexts, merged)
  {
    LabelledSorted(answers);
    contexts, merged := MergeOrdered(Sort(TierLeq(), answers));
  }

  /** The answers merged in, one after another. */
  method MergeOrdered(ordered: seq<Answer>) returns (contexts: seq<Passage>, merged: map<string, nat>)
    requires Labelled(ordered)
    ensures MergeState(Concat(ordered), KeysOf(Concat(ordered)), contexts, merged)
  {
    var seen: set<Key> := {};
    contexts, merged := [], map[];
    ghost var done: seq<Passage> := [];
    assert ordered[0..] == ordered && done + Concat(ordered) == Concat(ordered);
    for i := 0 to |ordered|
      invariant done + Concat(ordered[i..]) == Concat(ordered)
      invariant MergeState(done, seen, contexts, merged)
    {
      var corpusId, passages := ordered[i].corpus.corpusId, ordered[i].Contexts();
      assert forall p :: p in passages ==> p.corpusId == corpusId;
      seen, contexts, merged := MergeAnswer(corpusId, passages, done, seen, contexts, merged);
      ConcatNext(done, ordered, i);
      done := done + passages;
    }
    assert ordered[|ordered|..] == [] && done + [] == done;
  }

  lemma ConcatNext(done: seq<Passage>, ordered: seq<Answer>, i: nat)
    requires i < |ordered|
    ensures done + Concat(ordered[i..]) == done + ordered[i].Contexts() + Concat(ordered[i + 1..])
  {
    assert ordered[i..][1..] == ordered[i + 1..] && ordered[i..][0] == ordered[i];
    assert Concat(ordered[i..]) == ordered[i].Contexts() + Concat(ordered[i + 1..]);
  }

  /** One corpus's passages merged in. */
  method MergeAnswer(corpusId: string, passages: seq<Passage>, ghost before: seq<Passage>,
                     seen0: set<Key>, contexts0: seq<Passage>, merged0: map<string, nat>)
    returns (seen: set<Key>, contexts: seq<Passage>, merged: map<string, nat>)
    requires forall p :: p in passages ==> p.corpusId == corpusId
    requires MergeState(before, seen0, contexts0, merged0)
    ensures MergeState(before + passages, seen, contexts, merged)
  {
    seen, contexts, merged := seen0, contexts0, merged0;
    assert before + passages[..0] == before;
    for j := 0 to |passages|
      invariant MergeState(before + passages[..j], seen, contexts, merged)
    {
      var p := passages[j];
      assert p in passages;
      MergeStep(before + passages[..j], p, seen, contexts, merged);
      assert before + passages[..j] + [p] == before + passages[..j + 1];
      if KeyOf(p) in seen {
        merged := merged[corpusId := GetCount(merged, corpusId) + 1];
        continue;
      }
      seen := seen + {KeyOf(p)};
      contexts := contexts + [p];
    }
    assert passages[..|passages|] == passages;
  }

  ghost predicate MergeState(done: seq<Passage>, seen: set<Key>, contexts: seq<Passage>, merged: map<string, nat>) {
    && seen == KeysOf(done)
    && contexts == FirstOnly(done)
    && (forall c :: GetCount(merged, c) == Merges(done, c))
    && |contexts| + Total(merged) == |done|
  }

  lemma MergeStep(done: seq<Passage>, p: Passage, seen: set<Key>, contexts: seq<Passage>, merged: map<string, nat>)
    requires MergeState(done, seen, contexts, merged)
    ensures if KeyOf(p) in seen
            then MergeState(done + [p], seen, contexts, merged[p.corpusId := GetCount(merged, p.corpusId) + 1])
            else MergeState(done + [p], seen + {KeyOf(p)}, contexts + [p], merged)
  {
    var more := done + [p];
    assert more[..|more| - 1] == done && more[|more| - 1] == p;
    assert KeysOf(more) == KeysOf(done) + {KeyOf(p)};
    TotalCounts(merged, p.corpusId);
    var counted := merged[p.corpusId := GetCount(merged, p.corpusId) + 1];
    forall c ensures GetCount(if KeyOf(p) in seen then counted else merged, c) == Merges(more, c) {
      assert GetCount(merged, c) == Merges(done, c);
    }
  }

  lemma LabelledSorted(answers: seq<Answer>)
    requires Labelled(answers)
    ensures Labelled(Sort(TierLeq(), answers))
  {
    SortKeepsElements(TierLeq(), answers);
    var ordered := Sort(TierLeq(), answers);
    forall i, j | 0 <= i < |ordered| && 0 <= j < |ordered[i].Contexts()|
      ensures ordered[i].Contexts()[j].corpusId == ordered[i].corpus.corpusId
    {
      assert ordered[i] in answers;
    }
  }

  // --- references -----------------------------------------------------------------------------

  function RefOf(p: Passage): EvidenceRef {
    EvidenceRef(p.documentId, if p.jurisdiction.GetOr("") != "" then {p.jurisdiction.value} else {},
                Some(p.contentHash), p.artifactHash)
  }

  /** One reference per passage. */
  function RefsOf(ps: seq<Passage>): seq<EvidenceRef> { seq(|ps|, i requires 0 <= i < |ps| => RefOf(ps[i])) }

  // --- retrieval -------------------------------------------------------------------------------

  function QueryOf(retrieved: seq<Passage>, a: Answer): CorpusQuery {
    CorpusQuery(a.corpus, |a.Contexts()|, Merges(retrieved, a.corpus.corpusId), a.result.None?)
  }

  function QueriesOf(retrieved: seq<Passage>, answers: seq<Answer>): seq<CorpusQuery> {
    seq(|answers|, i requires 0 <= i < |answers| => QueryOf(retrieved, answers[i]))
  }

  /** What the evidence is, of these answers. */
  ghost predicate Gathered(answers: seq<Answer>, r: Retrieval) {
    var retrieved := Retrieved(answers);
    && r.contexts == FirstOnly(retrieved)
    && r.queries == QueriesOf(retrieved, answers)
    && r.dedupMerged + |r.contexts| == |retrieved|
  }

  /** Query every corpus the binding names, in its order, and merge the answers; any provider that is
      missing, raises or breaks the contract fails the whole retrieval. */
  method RetrieveEvidence(digest: Digest, providers: Providers, corpora: seq<CorpusRef>, k: nat, submitted: seq<string>)
    returns (r: Option<Retrieval>, ghost answers: seq<Answer>)
    ensures r.Some? ==> Answered(digest, providers, corpora, k, submitted, answers) && Gathered(answers, r.value)
    ensures r.None? <==> exists i :: 0 <= i < |corpora| && Asked(digest, providers, corpora[i], k, submitted).None?
  {
    var answered: seq<Answer> := [];
    answers := [];
    for i := 0 to |corpora|
      invariant |answered| == i
      invariant forall n :: 0 <= n < i ==> Asked(digest, providers, corpora[n], k, submitted) == Some(answered[n])
    {
      var corpus := corpora[i];
      var filter := CorpusFilter(corpus, submitted);
      if filter.None? {
        answered := answered + [Answer(corpus, None)];
        continue;
      }
      var result := providers(corpus, filter.value, k);
      if result.None? { return None, []; }
      var ok := CheckContract(digest, corpus, result.value, k);
      if !ok { return None, []; }
      answered := answered + [Answer(corpus, result)];
    }
    answers := answered;
    AnsweredIsLabelled(digest, providers, corpora, k, submitted, answers);
    var contexts, merged := Merge(answered);
    var dedup := Sum(merged);
    var queries := Records(answered, merged);
    r := Some(Retrieval(queries, contexts, dedup));
  }

  /** One record per corpus, with how many of its passages were merged away. */
  method Records(answered: seq<Answer>, merged: map<string, nat>) returns (queries: seq<CorpusQuery>)
    requires forall c :: GetCount(merged, c) == Merges(Retrieved(answered), c)
    ensures queries == QueriesOf(Retrieved(answered), answered)
  {
    queries := seq(|answered|, i requires 0 <= i < |answered| =>
      CorpusQuery(answered[i].corpus, |answered[i].Contexts()|, GetCount(merged, answered[i].corpus.corpusId),
                  answered[i].result.None?));
  }

  lemma AnsweredIsLabelled(digest: Digest, providers: Providers, corpora: seq<CorpusRef>, k: nat,
                           submitted: seq<string>, answers: seq<Answer>)
    requires Answered(digest, providers, corpora, k, submitted, answers)
    ensures Labelled(answers)
    ensures forall i :: 0 <= i < |answers| ==> answers[i].corpus == corpora[i]
  {
    forall i | 0 <= i < |answers|
      ensures answers[i].corpus == corpora[i]
      ensures forall j :: 0 <= j < |answers[i].Contexts()| ==>
                answers[i].Contexts()[j].corpusId == answers[i].corpus.corpusId
    {
      assert Asked(digest, providers, corpora[i], k, submitted) == Some(answers[i]);
    }
  }
}

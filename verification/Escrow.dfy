/** The evidence escrow: documents kept once by their digest, cited on the passages taken from them,
    and checked again whenever a decision's evidence is verified. */
module Escrow {
  import opened Wrappers
  import opened Texts
  import opened Passages
  import opened Evidence
  import opened Artifacts
  import opened Enforcement

  type DocumentKey = (string, string, Option<string>)

  function DocumentOf(p: Passage): DocumentKey { (p.corpusId, p.documentId, p.version) }

  datatype DocumentBlob = DocumentBlob(
    corpusId: string, documentId: string, version: Option<string>, mediaType: string, text: string, contentHash: string)

  /** A provider, as far as its documents go: not installed, without a document fetcher, or fetching
      (None when it raises). */
  datatype Provider =
    | Missing
    | Plain
    | Fetcher(fetch: (CorpusRef, string, Option<string>) -> Option<DocumentBlob>)

  const POLICY_GATE := "policy"

  /** Each queried corpus by its id; a later query for the same id stands. */
  function CorporaOf(queries: seq<CorpusQuery>): map<string, CorpusRef> {
    if queries == [] then map[]
    else
      var q := queries[|queries| - 1].corpus;
      CorporaOf(queries[..|queries| - 1])[q.corpusId := q]
  }

  /** What one decision escrows with: the digests, the corpora it queried, and the providers installed. */
  datatype Source = Source(
    codec: Codec, corpora: map<string, CorpusRef>, installed: string -> Provider, decisionId: string)
  {
    function Digest(): Digest { codec.TextDigest() }

    function ProviderOf(key: DocumentKey): Provider {
      if key.0 in corpora then installed(corpora[key.0].provider) else Missing
    }

    function Fetched(key: DocumentKey): Option<DocumentBlob> {
      var provider := ProviderOf(key);
      if provider.Fetcher? && key.0 in corpora then provider.fetch(corpora[key.0], key.1, key.2) else None
    }

    /** The blob is the whole document asked for. */
    predicate IsDocument(d: DocumentBlob, key: DocumentKey) {
      && (d.corpusId, d.documentId) == (key.0, key.1)
      && (key.2.Some? ==> d.version == key.2)
      && Digest()(d.text) == d.contentHash
    }

    /** Nothing stops a passage's document being escrowed: its corpus was queried, its provider is
        installed, and if that fetches documents, it fetches this one, still holding the passage. */
    ghost predicate Escrowable(p: Passage)
      requires p.Valid(Digest())
    {
      var key := DocumentOf(p);
      && !ProviderOf(key).Missing?
      && (ProviderOf(key).Fetcher? ==>
            && Fetched(key).Some? && IsDocument(Fetched(key).value, key) && Holds(Digest(), Fetched(key).value.text, p)
            && !IsBlank(Fetched(key).value.mediaType) && !IsBlank(decisionId))
    }

    ghost predicate AllEscrowable(ps: seq<Passage>) {
      forall p :: p in ps ==> p.Valid(Digest()) && Escrowable(p)
    }

    /** The content escrowed for a document; None when its provider does not fetch documents. */
    function ContentOf(key: DocumentKey): Option<Bytes> {
      if Fetched(key).None? then None else Some(codec.encode(Fetched(key).value.text))
    }

    /** The digest a document is cited by. */
    function DigestOf(key: DocumentKey): Option<string> {
      if ContentOf(key).None? then None else Some(codec.sha(ContentOf(key).value))
    }

    /** A passage citing its escrowed document; as it came when nothing was escrowed for it. */
    function Cited(p: Passage): Passage {
      if DigestOf(DocumentOf(p)).None? then p else p.(artifactHash := DigestOf(DocumentOf(p)))
    }

    function AllCited(ps: seq<Passage>): seq<Passage> {
      seq(|ps|, i requires 0 <= i < |ps| => Cited(ps[i]))
    }

    /** The escrow after one document is put. */
    function AfterDocument(rows: ArtifactRows, key: DocumentKey): ArtifactRows {
      if Fetched(key).None? || DigestOf(key).value in rows then rows
      else rows[DigestOf(key).value :=
                  Artifact(Fetched(key).value.mediaType, ContentOf(key).value, decisionId, POLICY_GATE)]
    }

    function AfterDocuments(rows: ArtifactRows, keys: seq<DocumentKey>): ArtifactRows {
      if keys == [] then rows
      else AfterDocument(AfterDocuments(rows, keys[..|keys| - 1]), keys[|keys| - 1])
    }
  }

  /** The documents passages came from, in the order they are first cited. */
  function DocumentsOf(ps: seq<Passage>): seq<DocumentKey> {
    if ps == [] then []
    else
      var last, earlier := ps[|ps| - 1], DocumentsOf(ps[..|ps| - 1]);
      earlier + if DocumentOf(last) in earlier then [] else [DocumentOf(last)]
  }

  /** A document's passages, in order. */
  function PassagesOf(ps: seq<Passage>, key: DocumentKey): seq<Passage> {
    if ps == [] then []
    else
      var last := ps[|ps| - 1];
      PassagesOf(ps[..|ps| - 1], key) + if DocumentOf(last) == key then [last] else []
  }

  /** Each document cited is listed once. */
  lemma {:induction false} DocumentsOnce(ps: seq<Passage>)
    ensures forall i, j :: 0 <= i < j < |DocumentsOf(ps)| ==> DocumentsOf(ps)[i] != DocumentsOf(ps)[j]
  {
    if ps != [] { DocumentsOnce(ps[..|ps| - 1]); }
  }

  lemma {:induction false} PassageIsGrouped(ps: seq<Passage>, p: Passage)
    requires p in ps
    ensures DocumentOf(p) in DocumentsOf(ps) && p in PassagesOf(ps, DocumentOf(p))
  {
    var last, earlier := ps[|ps| - 1], ps[..|ps| - 1];
    assert ps == earlier + [last];
    if p in earlier { PassageIsGrouped(earlier, p); }
  }

  lemma {:induction false} GroupedIsPassage(ps: seq<Passage>, key: DocumentKey, p: Passage)
    ensures p in PassagesOf(ps, key) ==> p in ps && DocumentOf(p) == key
    ensures key in DocumentsOf(ps) ==> PassagesOf(ps, key) != []
  {
    if ps != [] {
      assert ps == ps[..|ps| - 1] + [ps[|ps| - 1]];
      GroupedIsPassage(ps[..|ps| - 1], key, p);
    }
  }

  datatype EscrowError = ContractBroken | DocumentChanged | ProviderFailed | PutFailed

  /** Each document's passages. */
  ghost predicate Grouped(ps: seq<Passage>, cited: map<DocumentKey, seq<Passage>>) {
    && (forall key :: key in cited <==> key in DocumentsOf(ps))
    && (forall key :: key in cited ==> cited[key] == PassagesOf(ps, key))
  }

  /** Passages by the document they came from, in the order documents are first cited. */
  method GroupByDocument(contexts: seq<Passage>)
      returns (order: seq<DocumentKey>, cited: map<DocumentKey, seq<Passage>>)
    ensures order == DocumentsOf(contexts) && Grouped(contexts, cited)
  {
    order, cited := [], map[];
    for i := 0 to |contexts|
      invariant order == DocumentsOf(contexts[..i]) && Grouped(contexts[..i], cited)
    {
      GroupOneMore(contexts[..i], contexts[i], cited);
      assert contexts[..i + 1] == contexts[..i] + [contexts[i]];
      var key := DocumentOf(contexts[i]);
      if key !in cited {
        order := order + [key];
        cited := cited[key := [contexts[i]]];
      } else {
        cited := cited[key := cited[key] + [contexts[i]]];
      }
    }
    assert contexts[..|contexts|] == contexts;
  }

  lemma GroupOneMore(earlier: seq<Passage>, p: Passage, cited: map<DocumentKey, seq<Passage>>)
    requires Grouped(earlier, cited)
    ensures var key := DocumentOf(p);
            && DocumentsOf(earlier + [p]) == DocumentsOf(earlier) + (if key in cited then [] else [key])
            && Grouped(earlier + [p], cited[key := if key in cited then cited[key] + [p] else [p]])
  {
    var more, key := earlier + [p], DocumentOf(p);
    assert more[..|more| - 1] == earlier;
    if key !in cited { NotCited(earlier, key); }
  }

  lemma {:induction false} NotCited(ps: seq<Passage>, key: DocumentKey)
    requires key !in DocumentsOf(ps)
    ensures PassagesOf(ps, key) == []
  {
    if ps != [] { NotCited(ps[..|ps| - 1], key); }
  }

  method AllHold(digest: Digest, text: string, passages: seq<Passage>) returns (ok: bool)
    requires forall p :: p in passages ==> p.Valid(digest)
    ensures ok <==> forall p :: p in passages ==> p.Valid(digest) && Holds(digest, text, p)
  {
    ok := true;
    for i := 0 to |passages|
      invariant ok <==> forall n :: 0 <= n < i ==> passages[n].Valid(digest) && Holds(digest, text, passages[n])
    {
      assert passages[i] in passages;
      var holds := PassageHolds(digest, text, passages[i]);
      ok := ok && holds;
    }
    if ok {
      forall p | p in passages ensures p.Valid(digest) && Holds(digest, text, p) {}
    } else {
      ghost var n :| 0 <= n < |passages| && !(passages[n].Valid(digest) && Holds(digest, text, passages[n]));
      assert passages[n] in passages;
    }
  }

  /** Escrow one document and the passages cited to it. */
  method EscrowDocument(store: ArtifactStore, from: Source, key: DocumentKey, passages: seq<Passage>)
      returns (r: Result<Option<string>, EscrowError>)
    requires store.Valid() && store.enabled && from.codec == store.codec && passages != []
    requires forall p :: p in passages ==> p.Valid(from.Digest()) && DocumentOf(p) == key
    modifies store
    ensures store.Valid()
    ensures r.Ok? <==> from.AllEscrowable(passages)
    ensures r.Ok? ==> r.value == from.DigestOf(key)
    ensures store.rows == if r.Ok? then from.AfterDocument(old(store.rows), key) else old(store.rows)
  {
    assert passages[0] in passages;
    if key.0 !in from.corpora { return Err(ProviderFailed); }
    var provider := from.installed(from.corpora[key.0].provider);
    if provider.Missing? { return Err(ProviderFailed); }
    if provider.Plain? { return Ok(None); }
    var document := provider.fetch(from.corpora[key.0], key.1, key.2);
    if document.None? { return Err(ProviderFailed); }
    if !from.IsDocument(document.value, key) { return Err(ContractBroken); }
    var holds := AllHold(from.Digest(), document.value.text, passages);
    if !holds { return Err(DocumentChanged); }
    var content := from.codec.encode(document.value.text);
    var put := store.Put(content, document.value.mediaType, from.decisionId, POLICY_GATE);
    if put.Err? { return Err(PutFailed); }
    return Ok(put.value);
  }

  /** The corpus as the last query for the id had it. */
  ghost predicate LastQueried(queries: seq<CorpusQuery>, id: string, corpus: CorpusRef) {
    exists i :: 0 <= i < |queries| && queries[i].corpus == corpus && corpus.corpusId == id &&
                forall j :: i < j < |queries| ==> queries[j].corpus.corpusId != id
  }

  /** The provider's own answer for the passage's document: that document, of that version if one is asked
      for, digested, labelled, and still holding the passage. */
  ghost predicate Whole(codec: Codec, p: Passage, doc: DocumentBlob)
    requires p.Valid(codec.TextDigest())
  {
    && doc.corpusId == p.corpusId && doc.documentId == p.documentId && (p.version.Some? ==> doc.version == p.version)
    && doc.contentHash == codec.sha(codec.encode(doc.text)) && !IsBlank(doc.mediaType)
    && Holds(codec.TextDigest(), doc.text, p)
  }

  /** The passage's corpus was queried and its provider, when it fetches documents, gives a whole one. */
  ghost predicate CanEscrow(codec: Codec, queries: seq<CorpusQuery>, installed: string -> Provider, decisionId: string,
                            p: Passage)
    requires p.Valid(codec.TextDigest())
  {
    exists corpus :: LastQueried(queries, p.corpusId, corpus) &&
                     match installed(corpus.provider)
                     case Missing => false
                     case Plain => true
                     case Fetcher(fetch) =>
                       var doc := fetch(corpus, p.documentId, p.version);
                       doc.Some? && Whole(codec, p, doc.value) && !IsBlank(decisionId)
  }

  /** The passage, citing the digest of the document its provider fetches; unchanged if it fetches none. */
  ghost predicate CitesItsDocument(codec: Codec, queries: seq<CorpusQuery>, installed: string -> Provider,
                                   p: Passage, cited: Passage) {
    exists corpus :: LastQueried(queries, p.corpusId, corpus) &&
                     match installed(corpus.provider)
                     case Missing => false
                     case Plain => cited == p
                     case Fetcher(fetch) =>
                       var doc := fetch(corpus, p.documentId, p.version);
                       doc.Some? && cited == p.(artifactHash := Some(codec.sha(codec.encode(doc.value.text))))
  }

  lemma EscrowedExactly(codec: Codec, queries: seq<CorpusQuery>, installed: string -> Provider, decisionId: string,
                        contexts: seq<Passage>)
    requires forall p :: p in contexts ==> p.Valid(codec.TextDigest())
    ensures var from := Source(codec, CorporaOf(queries), installed, decisionId);
            && (from.AllEscrowable(contexts) <==>
                  forall p :: p in contexts ==> p.Valid(codec.TextDigest()) &&
                                                CanEscrow(codec, queries, installed, decisionId, p))
            && (from.AllEscrowable(contexts) ==>
                  forall i :: 0 <= i < |contexts| ==>
                    CitesItsDocument(codec, queries, installed, contexts[i], from.AllCited(contexts)[i]))
  {
    var from := Source(codec, CorporaOf(queries), installed, decisionId);
    forall p | p in contexts
      ensures p.Valid(codec.TextDigest())
      ensures from.Escrowable(p) <==> CanEscrow(codec, queries, installed, decisionId, p)
      ensures from.Escrowable(p) ==> CitesItsDocument(codec, queries, installed, p, from.Cited(p))
    {
      EscrowableExactly(codec, queries, installed, decisionId, p);
    }
    if from.AllEscrowable(contexts) {
      forall i | 0 <= i < |contexts|
        ensures CitesItsDocument(codec, queries, installed, contexts[i], from.AllCited(contexts)[i])
      {
        assert contexts[i] in contexts;
      }
    }
  }

  lemma {:induction false} CorporaAreLast(queries: seq<CorpusQuery>, id: string, corpus: CorpusRef)
    ensures id in CorporaOf(queries) && CorporaOf(queries)[id] == corpus <==> LastQueried(queries, id, corpus)
  {
    if queries != [] {
      var n := |queries| - 1;
      CorporaAreLast(queries[..n], id, corpus);
      if queries[n].corpus.corpusId != id { EarlierQuery(queries, id, corpus); }
    }
  }

  lemma EarlierQuery(queries: seq<CorpusQuery>, id: string, corpus: CorpusRef)
    requires queries != [] && queries[|queries| - 1].corpus.corpusId != id
    ensures LastQueried(queries, id, corpus) <==> LastQueried(queries[..|queries| - 1], id, corpus)
  {
    var init := queries[..|queries| - 1];
    if i :| 0 <= i < |queries| && queries[i].corpus == corpus && corpus.corpusId == id &&
            forall j :: i < j < |queries| ==> queries[j].corpus.corpusId != id {
      assert init[i].corpus == corpus && forall j :: i < j < |init| ==> init[j].corpus.corpusId != id;
    }
    if i :| 0 <= i < |init| && init[i].corpus == corpus && corpus.corpusId == id &&
            forall j :: i < j < |init| ==> init[j].corpus.corpusId != id {
      assert queries[i].corpus == corpus;
      forall j | i < j < |queries| ensures queries[j].corpus.corpusId != id {
        if j < |init| { assert init[j].corpus.corpusId != id; }
      }
    }
  }

  lemma EscrowableExactly(codec: Codec, queries: seq<CorpusQuery>, installed: string -> Provider, decisionId: string,
                          p: Passage)
    requires p.Valid(codec.TextDigest())
    ensures Source(codec, CorporaOf(queries), installed, decisionId).Escrowable(p) <==>
            CanEscrow(codec, queries, installed, decisionId, p)
    ensures CanEscrow(codec, queries, installed, decisionId, p) ==>
              CitesItsDocument(codec, queries, installed, p,
                               Source(codec, CorporaOf(queries), installed, decisionId).Cited(p))
  {
    var corpora := CorporaOf(queries);
    forall corpus ensures p.corpusId in corpora && corpora[p.corpusId] == corpus <==>
                          LastQueried(queries, p.corpusId, corpus) {
      CorporaAreLast(queries, p.corpusId, corpus);
    }
  }

  /** Every document cited is put once and its digest cited back. It fails exactly when some passage's
      document cannot be escrowed; documents put before the failure stay. */
  method EscrowDocuments(store: ArtifactStore, installed: string -> Provider, queries: seq<CorpusQuery>,
                         contexts: seq<Passage>, decisionId: string)
      returns (r: Result<seq<Passage>, EscrowError>)
    requires store.Valid() && forall p :: p in contexts ==> p.Valid(store.codec.TextDigest())
    modifies store
    ensures store.Valid()
    ensures !store.enabled ==> r == Ok(contexts) && store.rows == old(store.rows)
    ensures store.enabled ==>
              var from := Source(store.codec, CorporaOf(queries), installed, decisionId);
              var keys := DocumentsOf(contexts);
              && (r.Ok? <==> from.AllEscrowable(contexts))
              && (r.Ok? ==> r.value == from.AllCited(contexts))
              && (r.Ok? ==> store.rows == from.AfterDocuments(old(store.rows), keys))
              && (exists k :: 0 <= k <= |keys| && store.rows == from.AfterDocuments(old(store.rows), keys[..k]))
    ensures store.enabled ==>
              && (r.Ok? <==> forall p :: p in contexts ==> p.Valid(store.codec.TextDigest()) &&
                                                           CanEscrow(store.codec, queries, installed, decisionId, p))
              && (r.Ok? ==> |r.value| == |contexts| &&
                            forall i :: 0 <= i < |contexts| ==>
                              CitesItsDocument(store.codec, queries, installed, contexts[i], r.value[i]))
  {
    if !store.enabled { return Ok(contexts); }
    var from := Source(store.codec, CorporaOf(queries), installed, decisionId);
    EscrowedExactly(store.codec, queries, installed, decisionId, contexts);
    var order, cited := GroupByDocument(contexts);
    GroupsCover(from, contexts, order, cited);
    var digests, done := EscrowGroups(store, from, contexts, order, cited);
    assert order[..|order|] == order;
    if digests.Err? { return Err(digests.error); }
    var escrowed := CiteAll(from, contexts, digests.value);
    r := Ok(escrowed);
  }

  /** Escrow each document cited, in order, stopping at the first that fails; `done` were escrowed. */
  method EscrowGroups(store: ArtifactStore, from: Source, ghost contexts: seq<Passage>, order: seq<DocumentKey>,
                      cited: map<DocumentKey, seq<Passage>>)
      returns (r: Result<map<DocumentKey, Option<string>>, EscrowError>, ghost done: nat)
    requires store.Valid() && store.enabled && from.codec == store.codec
    requires order == DocumentsOf(contexts) && Grouped(contexts, cited)
    requires forall p :: p in contexts ==> p.Valid(from.Digest())
    modifies store
    ensures store.Valid()
    ensures r.Ok? <==> GroupsEscrowable(from, order, cited)
    ensures r.Ok? ==> DigestsFound(from, order, r.value) && done == |order|
    ensures done <= |order| && store.rows == from.AfterDocuments(old(store.rows), order[..done])
  {
    var digests: map<DocumentKey, Option<string>> := map[];
    for i := 0 to |order|
      invariant store.Valid()
      invariant store.rows == from.AfterDocuments(old(store.rows), order[..i])
      invariant DigestsFound(from, order[..i], digests)
      invariant GroupsEscrowable(from, order[..i], cited)
    {
      assert order[i] in order;
      GroupIsCited(contexts, cited, order[i]);
      ghost var was := store.rows;
      var put := EscrowDocument(store, from, order[i], cited[order[i]]);
      if put.Err? {
        assert !GroupsEscrowable(from, order, cited);
        return Err(put.error), i;
      }
      GroupsExtend(from, old(store.rows), order, cited, digests, i);
      digests := digests[order[i] := put.value];
    }
    assert order[..|order|] == order;
    return Ok(digests), |order|;
  }

  lemma GroupsExtend(from: Source, rows: ArtifactRows, order: seq<DocumentKey>, cited: map<DocumentKey, seq<Passage>>,
                     digests: map<DocumentKey, Option<string>>, i: nat)
    requires i < |order| && order[i] in cited && from.AllEscrowable(cited[order[i]])
    requires DigestsFound(from, order[..i], digests) && GroupsEscrowable(from, order[..i], cited)
    ensures DigestsFound(from, order[..i + 1], digests[order[i] := from.DigestOf(order[i])])
    ensures GroupsEscrowable(from, order[..i + 1], cited)
    ensures from.AfterDocuments(rows, order[..i + 1]) ==
            from.AfterDocument(from.AfterDocuments(rows, order[..i]), order[i])
  {
    assert order[..i + 1] == order[..i] + [order[i]] && order[..i + 1][..i] == order[..i];
  }

  lemma GroupIsCited(contexts: seq<Passage>, cited: map<DocumentKey, seq<Passage>>, key: DocumentKey)
    requires Grouped(contexts, cited) && key in cited
    ensures cited[key] != [] && forall p :: p in cited[key] ==> p in contexts && DocumentOf(p) == key
  {
    forall p { GroupedIsPassage(contexts, key, p); }
  }

  ghost predicate DigestsFound(from: Source, keys: seq<DocumentKey>, digests: map<DocumentKey, Option<string>>) {
    forall key :: key in keys ==> key in digests && digests[key] == from.DigestOf(key)
  }

  ghost predicate GroupsEscrowable(from: Source, keys: seq<DocumentKey>, cited: map<DocumentKey, seq<Passage>>) {
    forall key :: key in keys ==> key in cited && from.AllEscrowable(cited[key])
  }

  lemma GroupsCover(from: Source, contexts: seq<Passage>, order: seq<DocumentKey>,
                    cited: map<DocumentKey, seq<Passage>>)
    requires order == DocumentsOf(contexts) && Grouped(contexts, cited)
    ensures from.AllEscrowable(contexts) <==> GroupsEscrowable(from, order, cited)
  {
    if GroupsEscrowable(from, order, cited) {
      forall p | p in contexts ensures p.Valid(from.Digest()) && from.Escrowable(p) { PassageIsGrouped(contexts, p); }
    }
    if from.AllEscrowable(contexts) {
      forall key | key in order ensures key in cited && from.AllEscrowable(cited[key]) {
        GroupIsCited(contexts, cited, key);
      }
    }
  }

  /** Every passage cites its document's digest, when there is one. */
  method CiteAll(ghost from: Source, contexts: seq<Passage>, digests: map<DocumentKey, Option<string>>)
      returns (escrowed: seq<Passage>)
    requires DigestsFound(from, DocumentsOf(contexts), digests)
    ensures escrowed == from.AllCited(contexts)
  {
    escrowed := [];
    for i := 0 to |contexts|
      invariant escrowed == from.AllCited(contexts[..i])
    {
      var p := contexts[i];
      PassageIsGrouped(contexts, p);
      var hash := digests[DocumentOf(p)];
      assert contexts[..i + 1] == contexts[..i] + [p];
      escrowed := escrowed + [if hash.None? then p else p.(artifactHash := hash)];
    }
    assert contexts[..|contexts|] == contexts;
  }

  // --- verifying --------------------------------------------------------------------------------

  datatype EvidenceStatus = Intact | SourceChanged | NotVerifiable

  /** What content decodes to, provided it has the digest it was looked up by. */
  function EscrowedText(codec: Codec, content: Option<Bytes>, hash: string): Option<string> {
    if content.None? || codec.sha(content.value) != hash then None else codec.decode(content.value)
  }

  /** How a reference stands against the escrow. */
  ghost function StatusOf(codec: Codec, rows: ArtifactRows, ref: EvidenceRef, context: Option<Passage>): EvidenceStatus
    requires context.Some? ==> context.value.Valid(codec.TextDigest())
  {
    if context.None? || ref.contentHash != Some(context.value.contentHash) || ref.artifactHash.None? then NotVerifiable
    else
      var text := EscrowedText(codec, Lookup(rows, ref.artifactHash.value), ref.artifactHash.value);
      if text.None? then NotVerifiable
      else if Holds(codec.TextDigest(), text.value, context.value) then Intact
      else SourceChanged
  }

  /** Content held under the digest, with that digest, decodes to the text. */
  ghost predicate Keeps(codec: Codec, rows: ArtifactRows, hash: Option<string>, text: string) {
    && hash.Some? && hash.value in rows && codec.sha(rows[hash.value].bytes) == hash.value
    && codec.decode(rows[hash.value].bytes) == Some(text)
  }

  /** A reference to the passage is intact when it has the passage's digest and the escrow keeps a text
      that holds the passage; its source changed when the text kept does not; nothing else can be said. */
  ghost predicate Reported(codec: Codec, rows: ArtifactRows, ref: EvidenceRef, p: Passage, status: EvidenceStatus) {
    && p.Valid(codec.TextDigest())
    && (status == Intact <==>
          ref.contentHash == Some(p.contentHash) &&
          exists text :: Keeps(codec, rows, ref.artifactHash, text) && Holds(codec.TextDigest(), text, p))
    && (status == SourceChanged <==>
          ref.contentHash == Some(p.contentHash) &&
          exists text :: Keeps(codec, rows, ref.artifactHash, text) && !Holds(codec.TextDigest(), text, p))
  }

  /** One status per reference: of the passage at its place in the snapshot, and past it, or without one,
      not verifiable. */
  ghost predicate Verified(codec: Codec, rows: ArtifactRows, refs: seq<EvidenceRef>, snapshot: Option<seq<Passage>>,
                           statuses: seq<EvidenceStatus>) {
    && |statuses| == |refs|
    && forall i :: 0 <= i < |refs| ==>
         if snapshot.Some? && i < |snapshot.value| then Reported(codec, rows, refs[i], snapshot.value[i], statuses[i])
         else statuses[i] == NotVerifiable
  }

  lemma StatusIsReported(codec: Codec, rows: ArtifactRows, ref: EvidenceRef, p: Passage)
    requires p.Valid(codec.TextDigest())
    ensures forall status :: Reported(codec, rows, ref, p, status) <==> status == StatusOf(codec, rows, ref, Some(p))
  {
    if ref.contentHash == Some(p.contentHash) && ref.artifactHash.Some? {
      var text := EscrowedText(codec, Lookup(rows, ref.artifactHash.value), ref.artifactHash.value);
      assert forall t :: Keeps(codec, rows, ref.artifactHash, t) <==> text == Some(t);
    }
  }

  /** One more status, of the next reference. */
  lemma VerifiedNext(codec: Codec, rows: ArtifactRows, refs: seq<EvidenceRef>, snapshot: Option<seq<Passage>>,
                     statuses: seq<EvidenceStatus>, i: nat)
    requires i < |refs| && Verified(codec, rows, refs[..i], snapshot, statuses)
    ensures forall status ::
              (if snapshot.Some? && i < |snapshot.value| then Reported(codec, rows, refs[i], snapshot.value[i], status)
               else status == NotVerifiable) ==> Verified(codec, rows, refs[..i + 1], snapshot, statuses + [status])
  {
    assert refs[..i + 1] == refs[..i] + [refs[i]];
  }

  /** Every reference of an output checked against the escrow, each document read once. */
  method Verify(store: ArtifactStore, refs: seq<EvidenceRef>, snapshot: Option<seq<Passage>>)
      returns (statuses: seq<EvidenceStatus>)
    requires store.Valid()
    requires snapshot.Some? ==> forall p :: p in snapshot.value ==> p.Valid(store.codec.TextDigest())
    ensures Verified(store.codec, store.rows, refs, snapshot, statuses)
  {
    var codec := store.codec;
    if snapshot.None? { return seq(|refs|, i => NotVerifiable); }
    var escrowed: map<string, Option<string>> := map[];
    statuses := [];
    for i := 0 to |refs|
      invariant |statuses| == i
      invariant forall h :: h in escrowed ==> escrowed[h] == EscrowedText(codec, Lookup(store.rows, h), h)
      invariant Verified(codec, store.rows, refs[..i], snapshot, statuses)
    {
      var ref := refs[i];
      var context := if i < |snapshot.value| then Some(snapshot.value[i]) else None;
      if context.Some? {
        assert context.value in snapshot.value;
        StatusIsReported(codec, store.rows, ref, context.value);
      }
      VerifiedNext(codec, store.rows, refs, snapshot, statuses, i);
      if context.None? || ref.contentHash != Some(context.value.contentHash) || ref.artifactHash.None? {
        statuses := statuses + [NotVerifiable];
        continue;
      }
      var hash := ref.artifactHash.value;
      if hash !in escrowed {
        var content := store.Get(hash);
        escrowed := escrowed[hash := EscrowedText(codec, content, hash)];
      }
      var text := escrowed[hash];
      if text.None? {
        statuses := statuses + [NotVerifiable];
        continue;
      }
      var holds := PassageHolds(codec.TextDigest(), text.value, context.value);
      statuses := statuses + [if holds then Intact else SourceChanged];
    }
    assert refs[..|refs|] == refs;
  }
}

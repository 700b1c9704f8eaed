/** Escrowed evidence verifies forever: what the escrow holds after a decision's documents were put,
    and exactly when every reference that carries a digest stays intact. */
module EscrowLaws {
  import opened Wrappers
  import opened Texts
  import opened Passages
  import opened Evidence
  import opened Artifacts
  import opened Escrow
  import opened Enforcement

  /** Content the escrow held before a call, or content of a document the call fetches. */
  ghost predicate Known(from: Source, before: ArtifactRows, contexts: seq<Passage>, content: Bytes) {
    || (exists h :: h in before && before[h].bytes == content)
    || (exists p :: p in contexts && from.ContentOf(DocumentOf(p)) == Some(content))
  }

  /** SHA-256 separates that content. */
  ghost predicate CollisionFree(from: Source, before: ArtifactRows, contexts: seq<Passage>) {
    forall a, b :: Known(from, before, contexts, a) && Known(from, before, contexts, b) ==> !from.codec.Collide(a, b)
  }

  /** Known content with a digest: held before, or fetched by the call. */
  ghost predicate Supplied(from: Source, before: ArtifactRows, contexts: seq<Passage>, h: string, content: Bytes) {
    || (h in before && before[h].bytes == content)
    || (from.codec.sha(content) == h && exists p :: p in contexts && from.ContentOf(DocumentOf(p)) == Some(content))
  }

  // --- what the escrow holds afterwards --------------------------------------------------------

  /** The escrow after the call: it keeps what it held, and holds exactly what was supplied. */
  lemma AfterIsSupplied(from: Source, before: ArtifactRows, contexts: seq<Passage>, h: string, content: Bytes)
    requires Addressed(from.codec, before) && CollisionFree(from, before, contexts)
    ensures var rows := from.AfterDocuments(before, DocumentsOf(contexts));
            && Addressed(from.codec, rows) && Grown(before, rows)
            && (h in rows && rows[h].bytes == content <==> Supplied(from, before, contexts, h, content))
  {
    var rows := from.AfterDocuments(before, DocumentsOf(contexts));
    AfterKeeps(from, before, DocumentsOf(contexts));
    if h in rows && rows[h].bytes == content { HeldIsSupplied(from, before, contexts, h); }
    if Supplied(from, before, contexts, h, content) { SuppliedIsHeld(from, before, contexts, h, content); }
  }

  lemma HeldIsSupplied(from: Source, before: ArtifactRows, contexts: seq<Passage>, h: string)
    requires h in from.AfterDocuments(before, DocumentsOf(contexts))
    ensures Supplied(from, before, contexts, h, from.AfterDocuments(before, DocumentsOf(contexts))[h].bytes)
  {
    AfterKeeps(from, before, DocumentsOf(contexts));
    if h !in before {
      var key := NewIsFetched(from, before, DocumentsOf(contexts), h);
      var p := CitedBy(contexts, key);
    }
  }

  lemma SuppliedIsHeld(from: Source, before: ArtifactRows, contexts: seq<Passage>, h: string, content: Bytes)
    requires Addressed(from.codec, before) && CollisionFree(from, before, contexts)
    requires Supplied(from, before, contexts, h, content)
    ensures var rows := from.AfterDocuments(before, DocumentsOf(contexts)); h in rows && rows[h].bytes == content
  {
    var keys := DocumentsOf(contexts);
    AfterKeeps(from, before, keys);
    if !(h in before && before[h].bytes == content) {
      var p :| p in contexts && from.ContentOf(DocumentOf(p)) == Some(content);
      PassageIsGrouped(contexts, p);
      FetchedIsHeld(from, before, keys, DocumentOf(p));
      HeldIsKnown(from, before, contexts, h);
      SameContent(from, before, contexts, from.AfterDocuments(before, keys)[h].bytes, content);
    }
  }

  lemma SameContent(from: Source, before: ArtifactRows, contexts: seq<Passage>, a: Bytes, b: Bytes)
    requires CollisionFree(from, before, contexts)
    requires Known(from, before, contexts, a) && Known(from, before, contexts, b)
    requires from.codec.sha(a) == from.codec.sha(b)
    ensures a == b
  {
  }

  lemma HeldIsKnown(from: Source, before: ArtifactRows, contexts: seq<Passage>, h: string)
    ensures var rows := from.AfterDocuments(before, DocumentsOf(contexts));
            h in rows ==> Known(from, before, contexts, rows[h].bytes)
  {
    var keys := DocumentsOf(contexts);
    AfterKeeps(from, before, keys);
    if h in from.AfterDocuments(before, keys) && h !in before {
      var key := NewIsFetched(from, before, keys, h);
      var p := CitedBy(contexts, key);
    }
  }

  lemma CitedBy(contexts: seq<Passage>, key: DocumentKey) returns (p: Passage)
    requires key in DocumentsOf(contexts)
    ensures p in contexts && DocumentOf(p) == key
  {
    forall x { GroupedIsPassage(contexts, key, x); }
    p := PassagesOf(contexts, key)[0];
    assert p in PassagesOf(contexts, key);
  }

  lemma {:induction false} AfterKeeps(from: Source, before: ArtifactRows, keys: seq<DocumentKey>)
    ensures Grown(before, from.AfterDocuments(before, keys))
    ensures Addressed(from.codec, before) ==> Addressed(from.codec, from.AfterDocuments(before, keys))
  {
    if keys != [] { AfterKeeps(from, before, keys[..|keys| - 1]); }
  }

  lemma {:induction false} NewIsFetched(from: Source, before: ArtifactRows, keys: seq<DocumentKey>, h: string)
      returns (key: DocumentKey)
    requires h in from.AfterDocuments(before, keys) && h !in before
    ensures key in keys && from.DigestOf(key) == Some(h)
    ensures from.ContentOf(key) == Some(from.AfterDocuments(before, keys)[h].bytes)
  {
    var init, last := keys[..|keys| - 1], keys[|keys| - 1];
    if h in from.AfterDocuments(before, init) {
      key := NewIsFetched(from, before, init, h);
    } else {
      key := last;
    }
  }

  lemma {:induction false} FetchedIsHeld(from: Source, before: ArtifactRows, keys: seq<DocumentKey>, key: DocumentKey)
    requires key in keys && from.DigestOf(key).Some?
    ensures from.DigestOf(key).value in from.AfterDocuments(before, keys)
  {
    var init, last := keys[..|keys| - 1], keys[|keys| - 1];
    if key != last {
      assert keys == init + [last];
      FetchedIsHeld(from, before, init, key);
    }
  }

  // --- intact, then and later --------------------------------------------------------------------

  /** A status other than not verifiable never changes: the escrow only grows. */
  lemma StatusIsPermanent(codec: Codec, rows: ArtifactRows, later: ArtifactRows, ref: EvidenceRef, p: Passage,
                          status: EvidenceStatus)
    requires Grown(rows, later) && status != NotVerifiable && Reported(codec, rows, ref, p, status)
    ensures Reported(codec, later, ref, p, status)
  {
    StatusIsReported(codec, rows, ref, p);
    StatusIsReported(codec, later, ref, p);
  }

  ghost predicate IntactIn(codec: Codec, rows: ArtifactRows, p: Passage) {
    p.Valid(codec.TextDigest()) && StatusOf(codec, rows, RefOf(p), Some(p)) == Intact
  }

  /** Every reference that carries an artifact digest is intact. */
  ghost predicate AllIntact(codec: Codec, rows: ArtifactRows, cited: seq<Passage>) {
    forall i :: 0 <= i < |cited| && RefsOf(cited)[i].artifactHash.Some? ==>
      cited[i].Valid(codec.TextDigest()) && StatusOf(codec, rows, RefsOf(cited)[i], Some(cited[i])) == Intact
  }

  ghost predicate IntactForever(codec: Codec, rows: ArtifactRows, cited: seq<Passage>) {
    forall later :: Grown(rows, later) && Addressed(codec, later) ==> AllIntact(codec, later, cited)
  }

  lemma IntactFromNow(codec: Codec, rows: ArtifactRows, cited: seq<Passage>)
    requires Addressed(codec, rows)
    ensures IntactForever(codec, rows, cited) <==>
            forall p :: p in cited && p.artifactHash.Some? ==> IntactIn(codec, rows, p)
  {
    if IntactForever(codec, rows, cited) {
      assert Grown(rows, rows);
      forall p | p in cited && p.artifactHash.Some? ensures IntactIn(codec, rows, p) {
        var i :| 0 <= i < |cited| && cited[i] == p;
        assert RefsOf(cited)[i] == RefOf(p);
      }
    }
    if forall p :: p in cited && p.artifactHash.Some? ==> IntactIn(codec, rows, p) {
      forall later | Grown(rows, later) && Addressed(codec, later) ensures AllIntact(codec, later, cited) {
        forall i | 0 <= i < |cited| && RefsOf(cited)[i].artifactHash.Some?
          ensures cited[i].Valid(codec.TextDigest()) &&
                  StatusOf(codec, later, RefsOf(cited)[i], Some(cited[i])) == Intact
        {
          assert cited[i] in cited && IntactIn(codec, rows, cited[i]);
          StatusIsReported(codec, rows, RefOf(cited[i]), cited[i]);
          StatusIsPermanent(codec, rows, later, RefOf(cited[i]), cited[i], Intact);
          StatusIsReported(codec, later, RefOf(cited[i]), cited[i]);
        }
      }
    }
  }

  /** Verifying the references in any later state reports every one that carries a digest intact. */
  ghost predicate VerifiedForever(codec: Codec, rows: ArtifactRows, refs: seq<EvidenceRef>, cited: seq<Passage>) {
    forall later, statuses ::
      Grown(rows, later) && Addressed(codec, later) && Verified(codec, later, refs, Some(cited), statuses) ==>
        forall i :: 0 <= i < |refs| && refs[i].artifactHash.Some? ==> statuses[i] == Intact
  }

  lemma VerifiedIsIntact(codec: Codec, rows: ArtifactRows, cited: seq<Passage>)
    requires forall p :: p in cited ==> p.Valid(codec.TextDigest())
    ensures VerifiedForever(codec, rows, RefsOf(cited), cited) <==> IntactForever(codec, rows, cited)
  {
    var refs := RefsOf(cited);
    if IntactForever(codec, rows, cited) {
      forall later, statuses |
        Grown(rows, later) && Addressed(codec, later) && Verified(codec, later, refs, Some(cited), statuses)
        ensures forall i :: 0 <= i < |refs| && refs[i].artifactHash.Some? ==> statuses[i] == Intact
      {
        assert AllIntact(codec, later, cited);
        StatusesReported(codec, later, cited, statuses);
      }
    }
    if VerifiedForever(codec, rows, refs, cited) {
      forall later | Grown(rows, later) && Addressed(codec, later) ensures AllIntact(codec, later, cited) {
        var statuses := StatusesOf(codec, later, cited);
        assert Verified(codec, later, refs, Some(cited), statuses);
      }
    }
  }

  lemma StatusesReported(codec: Codec, rows: ArtifactRows, cited: seq<Passage>, statuses: seq<EvidenceStatus>)
    requires Verified(codec, rows, RefsOf(cited), Some(cited), statuses)
    ensures forall i :: 0 <= i < |cited| ==>
              cited[i].Valid(codec.TextDigest()) &&
              statuses[i] == StatusOf(codec, rows, RefsOf(cited)[i], Some(cited[i]))
  {
    forall i | 0 <= i < |cited|
      ensures cited[i].Valid(codec.TextDigest()) &&
              statuses[i] == StatusOf(codec, rows, RefsOf(cited)[i], Some(cited[i]))
    {
      assert Reported(codec, rows, RefsOf(cited)[i], cited[i], statuses[i]);
      StatusIsReported(codec, rows, RefsOf(cited)[i], cited[i]);
    }
  }

  lemma StatusesOf(codec: Codec, rows: ArtifactRows, cited: seq<Passage>) returns (statuses: seq<EvidenceStatus>)
    requires forall p :: p in cited ==> p.Valid(codec.TextDigest())
    ensures Verified(codec, rows, RefsOf(cited), Some(cited), statuses) && |statuses| == |cited|
    ensures forall i :: 0 <= i < |cited| ==>
              cited[i].Valid(codec.TextDigest()) &&
              statuses[i] == StatusOf(codec, rows, RefsOf(cited)[i], Some(cited[i]))
  {
    statuses := [];
    for n := 0 to |cited|
      invariant |statuses| == n
      invariant forall i :: 0 <= i < n ==>
                  cited[i].Valid(codec.TextDigest()) &&
                  statuses[i] == StatusOf(codec, rows, RefsOf(cited)[i], Some(cited[i]))
    {
      assert cited[n] in cited;
      statuses := statuses + [StatusOf(codec, rows, RefsOf(cited)[n], Some(cited[n]))];
    }
    forall i | 0 <= i < |cited| ensures Reported(codec, rows, RefsOf(cited)[i], cited[i], statuses[i]) {
      StatusIsReported(codec, rows, RefsOf(cited)[i], cited[i]);
    }
  }

  // --- the condition -------------------------------------------------------------------------------

  /** A passage retrieved with a digest of its own, from a provider that fetches no documents: the
      escrow checks nothing, and the passage keeps the digest it came with. */
  predicate ForeignHash(from: Source, p: Passage) {
    from.ProviderOf(DocumentOf(p)).Plain? && p.artifactHash.Some?
  }

  /** Content under the passage's own digest, held before the call or fetched by it, decodes to a text
      that holds the passage. */
  ghost predicate Backed(from: Source, before: ArtifactRows, contexts: seq<Passage>, p: Passage)
    requires p.Valid(from.Digest()) && p.artifactHash.Some?
  {
    exists content :: Backs(from, before, contexts, p, content)
  }

  ghost predicate Backs(from: Source, before: ArtifactRows, contexts: seq<Passage>, p: Passage, content: Bytes)
    requires p.Valid(from.Digest()) && p.artifactHash.Some?
  {
    && Supplied(from, before, contexts, p.artifactHash.value, content)
    && from.codec.decode(content).Some? && Holds(from.Digest(), from.codec.decode(content).value, p)
  }

  ghost predicate EveryForeignBacked(from: Source, before: ArtifactRows, contexts: seq<Passage>) {
    forall p :: p in contexts && ForeignHash(from, p) ==> p.Valid(from.Digest()) && Backed(from, before, contexts, p)
  }

  lemma HoldsWhateverCited(digest: Digest, text: string, p: Passage, cited: Passage)
    requires p.Valid(digest) && cited == p.(artifactHash := cited.artifactHash)
    ensures cited.Valid(digest) && (Holds(digest, text, cited) <==> Holds(digest, text, p))
  {
  }

  /** A passage whose document was fetched and put is intact right after the call. */
  lemma FetchedIsIntact(from: Source, before: ArtifactRows, contexts: seq<Passage>, p: Passage)
    requires from.codec.Lawful() && Addressed(from.codec, before) && CollisionFree(from, before, contexts)
    requires from.AllEscrowable(contexts) && p in contexts && from.ProviderOf(DocumentOf(p)).Fetcher?
    ensures IntactIn(from.codec, from.AfterDocuments(before, DocumentsOf(contexts)), from.Cited(p))
    ensures Reported(from.codec, from.AfterDocuments(before, DocumentsOf(contexts)), RefOf(from.Cited(p)),
                     from.Cited(p), Intact)
  {
    var text, content := from.Fetched(DocumentOf(p)).value.text, from.ContentOf(DocumentOf(p)).value;
    assert p.Valid(from.Digest()) && from.Escrowable(p);
    AfterIsSupplied(from, before, contexts, from.codec.sha(content), content);
    HoldsWhateverCited(from.Digest(), text, p, from.Cited(p));
    StatusIsReported(from.codec, from.AfterDocuments(before, DocumentsOf(contexts)), RefOf(from.Cited(p)),
                     from.Cited(p));
  }

  /** A passage with a digest of its own is intact right after the call exactly when it is backed. */
  lemma ForeignIsBacked(from: Source, before: ArtifactRows, contexts: seq<Passage>, p: Passage)
    requires from.codec.Lawful() && Addressed(from.codec, before) && CollisionFree(from, before, contexts)
    requires p.Valid(from.Digest()) && ForeignHash(from, p)
    ensures from.Cited(p) == p
    ensures IntactIn(from.codec, from.AfterDocuments(before, DocumentsOf(contexts)), p) <==>
            Backed(from, before, contexts, p)
  {
    var rows, h := from.AfterDocuments(before, DocumentsOf(contexts)), p.artifactHash.value;
    AfterKeeps(from, before, DocumentsOf(contexts));
    IntactMeans(from.codec, rows, p);
    if IntactIn(from.codec, rows, p) {
      HeldIsSupplied(from, before, contexts, h);
      assert Backs(from, before, contexts, p, rows[h].bytes);
    }
    if Backed(from, before, contexts, p) {
      var content :| Backs(from, before, contexts, p, content);
      SuppliedIsHeld(from, before, contexts, h, content);
    }
  }

  /** A valid passage with a digest is intact exactly when content held under it decodes to a text that
      holds the passage. */
  lemma IntactMeans(codec: Codec, rows: ArtifactRows, p: Passage)
    requires Addressed(codec, rows) && p.Valid(codec.TextDigest()) && p.artifactHash.Some?
    ensures var h := p.artifactHash.value;
            IntactIn(codec, rows, p) <==>
            h in rows && codec.decode(rows[h].bytes).Some? &&
            Holds(codec.TextDigest(), codec.decode(rows[h].bytes).value, p)
  {
  }

  /** After a call that escrows a decision's documents, verifying its references reports those that carry
      a digest intact in every later state of the escrow, whatever becomes of the sources, if and only if every passage
      that brought its own digest is backed by what the escrow held or the call fetches. */
  lemma VerifiesForever(from: Source, before: ArtifactRows, contexts: seq<Passage>)
    requires from.codec.Lawful() && Addressed(from.codec, before) && CollisionFree(from, before, contexts)
    requires from.AllEscrowable(contexts)
    ensures var rows, cited := from.AfterDocuments(before, DocumentsOf(contexts)), from.AllCited(contexts);
            VerifiedForever(from.codec, rows, RefsOf(cited), cited) <==> EveryForeignBacked(from, before, contexts)
  {
    var rows, cited := from.AfterDocuments(before, DocumentsOf(contexts)), from.AllCited(contexts);
    CitedIsValid(from, contexts);
    VerifiedIsIntact(from.codec, rows, cited);
    AfterKeeps(from, before, DocumentsOf(contexts));
    IntactFromNow(from.codec, rows, cited);
    if EveryForeignBacked(from, before, contexts) { BackedIsIntact(from, before, contexts); }
    if forall c :: c in cited && c.artifactHash.Some? ==> IntactIn(from.codec, rows, c) {
      IntactIsBacked(from, before, contexts);
    }
  }

  lemma CitedIsValid(from: Source, contexts: seq<Passage>)
    requires forall p :: p in contexts ==> p.Valid(from.Digest())
    ensures forall p :: p in from.AllCited(contexts) ==> p.Valid(from.Digest())
  {
    var cited := from.AllCited(contexts);
    forall p | p in cited ensures p.Valid(from.Digest()) {
      var i :| 0 <= i < |cited| && cited[i] == p;
      assert contexts[i] in contexts;
    }
  }

  lemma BackedIsIntact(from: Source, before: ArtifactRows, contexts: seq<Passage>)
    requires from.codec.Lawful() && Addressed(from.codec, before) && CollisionFree(from, before, contexts)
    requires from.AllEscrowable(contexts) && EveryForeignBacked(from, before, contexts)
    ensures forall c :: c in from.AllCited(contexts) && c.artifactHash.Some? ==>
              IntactIn(from.codec, from.AfterDocuments(before, DocumentsOf(contexts)), c)
  {
    var cited := from.AllCited(contexts);
    forall c | c in cited && c.artifactHash.Some?
      ensures IntactIn(from.codec, from.AfterDocuments(before, DocumentsOf(contexts)), c)
    {
      var i :| 0 <= i < |cited| && cited[i] == c;
      CitedIsIntact(from, before, contexts, contexts[i]);
    }
  }

  lemma IntactIsBacked(from: Source, before: ArtifactRows, contexts: seq<Passage>)
    requires from.codec.Lawful() && Addressed(from.codec, before) && CollisionFree(from, before, contexts)
    requires from.AllEscrowable(contexts)
    requires forall c :: c in from.AllCited(contexts) && c.artifactHash.Some? ==>
               IntactIn(from.codec, from.AfterDocuments(before, DocumentsOf(contexts)), c)
    ensures EveryForeignBacked(from, before, contexts)
  {
    forall p | p in contexts && ForeignHash(from, p)
      ensures p.Valid(from.Digest()) && Backed(from, before, contexts, p)
    {
      var i :| 0 <= i < |contexts| && contexts[i] == p;
      assert p.Valid(from.Digest());
      ForeignIsBacked(from, before, contexts, p);
      assert from.AllCited(contexts)[i] == p;
    }
  }

  lemma CitedIsIntact(from: Source, before: ArtifactRows, contexts: seq<Passage>, p: Passage)
    requires from.codec.Lawful() && Addressed(from.codec, before) && CollisionFree(from, before, contexts)
    requires from.AllEscrowable(contexts) && p in contexts && from.Cited(p).artifactHash.Some?
    requires EveryForeignBacked(from, before, contexts)
    ensures IntactIn(from.codec, from.AfterDocuments(before, DocumentsOf(contexts)), from.Cited(p))
  {
    assert p.Valid(from.Digest()) && from.Escrowable(p);
    if from.ProviderOf(DocumentOf(p)).Fetcher? {
      FetchedIsIntact(from, before, contexts, p);
    } else {
      ForeignIsBacked(from, before, contexts, p);
    }
  }

  /** The gate's escrow step, when it has an escrow and anything to cite: it states the condition over
      the call, of what was held before and what the call fetches. */
  method EscrowEvidence(store: ArtifactStore?, installed: string -> Provider, queries: seq<CorpusQuery>,
                        contexts: seq<Passage>, decisionId: string)
      returns (r: Result<seq<Passage>, EscrowError>)
    requires store != null ==> store.Valid() && forall p :: p in contexts ==> p.Valid(store.codec.TextDigest())
    modifies if store == null then {} else {store}
    ensures store == null || contexts == [] ==> r == Ok(contexts)
    ensures store != null ==> store.Valid()
    ensures store != null && store.enabled && contexts != [] ==>
              var from := Source(store.codec, CorporaOf(queries), installed, decisionId);
              && (r.Ok? <==> from.AllEscrowable(contexts))
              && (r.Ok? && CollisionFree(from, old(store.rows), contexts) ==>
                    (VerifiedForever(store.codec, store.rows, RefsOf(r.value), r.value) <==>
                     EveryForeignBacked(from, old(store.rows), contexts)))
  {
    if store == null || contexts == [] { return Ok(contexts); }
    ghost var before := store.rows;
    r := EscrowDocuments(store, installed, queries, contexts, decisionId);
    ghost var from := Source(store.codec, CorporaOf(queries), installed, decisionId);
    if store.enabled && r.Ok? && CollisionFree(from, before, contexts) { VerifiesForever(from, before, contexts); }
  }

  // --- the condition can fail ------------------------------------------------------------------------

  function BareSource(codec: Codec): Source {
    Source(codec, map["c" := CorpusRef("c", "plain", 1, {}, TextOnly)], (_: string) => Plain, "d")
  }

  /** A passage that arrives with a digest nothing is held under. */
  function BarePassage(codec: Codec): Passage {
    var hash := codec.TextDigest()("x");
    Passage("c", "plain", "doc", None, 1, 1, None, TextOnly, "x", hash, None, Some(hash))
  }

  /** With one such passage, a provider that fetches no documents and an empty escrow, everything is
      escrowable, and the reference is not verifiable. */
  lemma ForeignHashFails(codec: Codec)
    requires codec.Lawful()
    ensures var from, contexts := BareSource(codec), [BarePassage(codec)];
            && from.AllEscrowable(contexts) && CollisionFree(from, map[], contexts)
            && !VerifiedForever(codec, from.AfterDocuments(map[], DocumentsOf(contexts)),
                                RefsOf(from.AllCited(contexts)), from.AllCited(contexts))
            && Reported(codec, map[], RefOf(BarePassage(codec)), BarePassage(codec), NotVerifiable)
  {
    var from, p := BareSource(codec), BarePassage(codec);
    StatusIsReported(codec, map[], RefOf(p), p);
    assert p in [p] && ForeignHash(from, p);
    assert !Backed(from, map[], [p], p);
    VerifiesForever(from, map[], [p]);
  }
}

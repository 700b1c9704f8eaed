/** Passages and the documents they were cited from: deciding whether a document still holds one. */
module Passages {
  import opened Wrappers
  import opened Texts

  /** SHA-256 of a text. */
  type Digest = string -> string

  type Span = (nat, nat)

  /** How well a passage is pinned down, weakest first. */
  datatype Provenance = TextOnly | UriAndHash | PinnedVersion
  {
    function Strength(): nat { match this case TextOnly => 0 case UriAndHash => 1 case PinnedVersion => 2 }
  }

  /** A passage of a document: where it came from, what it says, and what it is cited by. */
  datatype Passage = Passage(
    corpusId: string, provider: string, documentId: string, version: Option<string>, tier: nat, rank: nat,
    jurisdiction: Option<string>, provenance: Provenance, text: string, contentHash: string, span: Option<Span>,
    artifactHash: Option<string>)
  {
    /** The model validator: the digest is the text's, and the span is ordered. */
    ghost predicate Valid(digest: Digest) {
      contentHash == digest(text) && (span.Some? ==> span.value.0 <= span.value.1)
    }
  }

  // --- placing paragraphs --------------------------------------------------------------------

  function NonBlank(parts: seq<string>): seq<string> {
    if parts == [] then []
    else if IsBlank(parts[0]) then NonBlank(parts[1..])
    else [parts[0]] + NonBlank(parts[1..])
  }

  /** The parts stand at these positions of the text, from `start`, in order and without overlap. */
  ghost predicate Placed(text: string, parts: seq<string>, start: nat, at: seq<nat>) {
    && |at| == |parts|
    && (forall i :: 0 <= i < |at| ==> OccursAt(text, parts[i], at[i]))
    && (forall i :: 0 <= i < |at| ==> start <= at[i])
    && (forall i, j :: 0 <= i < j < |at| ==> at[i] + |parts[i]| <= at[j])
  }

  ghost predicate Placeable(text: string, parts: seq<string>, start: nat) {
    exists at :: Placed(text, parts, start, at)
  }

  /** The greedy search: each part at its first occurrence after the previous one. */
  predicate Greedy(text: string, parts: seq<string>, cursor: nat) {
    parts == [] ||
    var found := Find(text, parts[0], cursor);
    found.Some? && Greedy(text, parts[1..], found.value + |parts[0]|)
  }

  lemma PlacedCons(text: string, head: string, tail: seq<string>, start: nat, at: nat, rest: seq<nat>)
    requires start <= at && OccursAt(text, head, at) && Placed(text, tail, at + |head|, rest)
    ensures Placed(text, [head] + tail, start, [at] + rest)
  {
    var ps, parts := [at] + rest, [head] + tail;
    forall i | 0 <= i < |ps| ensures OccursAt(text, parts[i], ps[i]) && start <= ps[i] {
      if i > 0 { assert parts[i] == tail[i - 1] && ps[i] == rest[i - 1]; }
    }
    forall i, j | 0 <= i < j < |ps| ensures ps[i] + |parts[i]| <= ps[j] {
      assert ps[j] == rest[j - 1];
      if i > 0 { assert parts[i] == tail[i - 1] && ps[i] == rest[i - 1]; }
    }
  }

  lemma {:induction false} GreedyPlaces(text: string, parts: seq<string>, cursor: nat) returns (at: seq<nat>)
    requires Greedy(text, parts, cursor)
    ensures Placed(text, parts, cursor, at)
  {
    if parts == [] {
      at := [];
    } else {
      var found := Find(text, parts[0], cursor).value;
      var rest := GreedyPlaces(text, parts[1..], found + |parts[0]|);
      at := [found] + rest;
      PlacedCons(text, parts[0], parts[1..], cursor, found, rest);
      assert [parts[0]] + parts[1..] == parts;
    }
  }

  /** The greedy search succeeds wherever any placement does: taking the first occurrence never
      hurts. */
  lemma {:induction false} GreedyIsExact(text: string, parts: seq<string>, cursor: nat)
    ensures Greedy(text, parts, cursor) <==> Placeable(text, parts, cursor)
  {
    if Greedy(text, parts, cursor) {
      var at := GreedyPlaces(text, parts, cursor);
    } else if Placeable(text, parts, cursor) {
      var at :| Placed(text, parts, cursor, at);
      TakeFirst(text, parts, cursor, at);
      GreedyIsExact(text, parts[1..], Find(text, parts[0], cursor).value + |parts[0]|);
    }
  }

  lemma TakeFirst(text: string, parts: seq<string>, cursor: nat, at: seq<nat>)
    requires Placed(text, parts, cursor, at) && parts != []
    ensures Find(text, parts[0], cursor).Some?
    ensures Placeable(text, parts[1..], Find(text, parts[0], cursor).value + |parts[0]|)
  {
    FindsFirst(text, parts[0], cursor);
    assert OccursAt(text, parts[0], at[0]);
    var rest := at[1..];
    var after := Find(text, parts[0], cursor).value + |parts[0]|;
    forall i | 0 <= i < |rest| ensures after <= rest[i] {
      assert at[0] + |parts[0]| <= at[i + 1];
    }
    assert Placed(text, parts[1..], Find(text, parts[0], cursor).value + |parts[0]|, rest);
  }

  function Paragraphs(text: string): seq<string> { NonBlank(Split(text)) }

  /** What `passage_holds` promises. */
  ghost predicate Holds(digest: Digest, text: string, p: Passage)
    requires p.Valid(digest)
  {
    if p.span.Some? then
      p.span.value.1 <= |text| && digest(text[p.span.value.0..p.span.value.1]) == p.contentHash
    else Placeable(text, Paragraphs(p.text), 0)
  }

  lemma GreedyStep(text: string, paragraphs: seq<string>, i: nat, cursor: nat)
    requires i < |paragraphs|
    ensures Greedy(text, NonBlank(paragraphs[i..]), cursor) <==>
            if IsBlank(paragraphs[i]) then Greedy(text, NonBlank(paragraphs[i + 1..]), cursor)
            else var found := Find(text, paragraphs[i], cursor);
                 found.Some? && Greedy(text, NonBlank(paragraphs[i + 1..]), found.value + |paragraphs[i]|)
  {
    var rest := NonBlank(paragraphs[i + 1..]);
    assert paragraphs[i..][1..] == paragraphs[i + 1..];
    if !IsBlank(paragraphs[i]) {
      assert ([paragraphs[i]] + rest)[1..] == rest && ([paragraphs[i]] + rest)[0] == paragraphs[i];
    }
  }

  /** By the digest of its span when it has one; otherwise by finding its paragraphs one after another. */
  method PassageHolds(digest: Digest, text: string, p: Passage) returns (holds: bool)
    requires p.Valid(digest)
    ensures holds == Holds(digest, text, p)
  {
    if p.span.Some? {
      var (start, end) := p.span.value;
      return end <= |text| && digest(text[start..end]) == p.contentHash;
    }
    GreedyIsExact(text, Paragraphs(p.text), 0);
    holds := ParagraphsFound(text, Split(p.text));
  }

  /** The greedy loop over a passage's paragraphs, blank ones skipped. */
  method ParagraphsFound(text: string, paragraphs: seq<string>) returns (found: bool)
    ensures found == Greedy(text, NonBlank(paragraphs), 0)
  {
    ghost var goal := Greedy(text, NonBlank(paragraphs), 0);
    var cursor: nat := 0;
    assert paragraphs[0..] == paragraphs;
    for i := 0 to |paragraphs|
      invariant goal == Greedy(text, NonBlank(paragraphs[i..]), cursor)
    {
      GreedyStep(text, paragraphs, i, cursor);
      if IsBlank(paragraphs[i]) { continue; }
      var at := Find(text, paragraphs[i], cursor);
      if at.None? { return false; }
      cursor := at.value + |paragraphs[i]|;
    }
    return true;
  }

  // --- contiguous and merged passages ------------------------------------------------------------

  /** Placed by `start`, and wholly before `end`. */
  ghost predicate PlacedWithin(text: string, parts: seq<string>, start: nat, end: nat, at: seq<nat>) {
    Placed(text, parts, start, at) && forall i :: 0 <= i < |at| ==> at[i] + |parts[i]| <= end
  }

  lemma PlacedAppend(text: string, a: seq<string>, b: seq<string>, start: nat, mid: nat, end: nat, pa: seq<nat>,
                     pb: seq<nat>)
    requires PlacedWithin(text, a, start, mid, pa) && PlacedWithin(text, b, mid, end, pb) && start <= mid <= end
    ensures PlacedWithin(text, a + b, start, end, pa + pb)
  {
    var at, parts, n := pa + pb, a + b, |pa|;
    assert |at| == |parts|;
    forall i | 0 <= i < |at| ensures OccursAt(text, parts[i], at[i]) && start <= at[i] && at[i] + |parts[i]| <= end {
      if i < n {
        assert at[i] == pa[i] && parts[i] == a[i];
      } else {
        assert at[i] == pb[i - n] && parts[i] == b[i - n];
      }
    }
    forall i, j | 0 <= i < j < |at| ensures at[i] + |parts[i]| <= at[j] {
      if j < n {
        assert at[i] == pa[i] && parts[i] == a[i] && at[j] == pa[j];
      } else if i < n {
        assert at[i] == pa[i] && parts[i] == a[i] && at[j] == pb[j - n];
      } else {
        assert at[i] == pb[i - n] && parts[i] == b[i - n] && at[j] == pb[j - n];
      }
    }
  }

  lemma SliceOccurs(text: string, passage: string, p: nat, i: nat, j: nat)
    requires OccursAt(text, passage, p) && i <= j <= |passage|
    ensures OccursAt(text, passage[i..j], p + i)
  {
    var part := passage[i..j];
    assert |text[p + i..p + j]| == |part|;
    forall k | 0 <= k < |part| ensures text[p + i..p + j][k] == part[k] {
      assert text[p..p + |passage|][i + k] == passage[i + k];
    }
  }

  lemma ParagraphsUnfold(text: string)
    ensures var i := Find(text, PARAGRAPH_BREAK, 0);
            Paragraphs(text) == if i.None? then NonBlank([text])
                                else NonBlank([text[..i.value]]) + Paragraphs(text[i.value + 2..])
  {
    var i := Find(text, PARAGRAPH_BREAK, 0);
    if i.Some? { NonBlankAppend([text[..i.value]], Split(text[i.value + 2..])); }
  }

  lemma AlonePlaces(text: string, part: string, p: nat) returns (at: seq<nat>)
    requires OccursAt(text, part, p)
    ensures PlacedWithin(text, NonBlank([part]), p, p + |part|, at)
  {
    assert NonBlank([part]) == if IsBlank(part) then [] else [part];
    at := if IsBlank(part) then [] else [p];
  }

  /** Where the paragraphs of a slice of the text stand. */
  lemma {:induction false} SlicePlaces(text: string, passage: string, p: nat) returns (at: seq<nat>)
    requires OccursAt(text, passage, p)
    ensures PlacedWithin(text, Paragraphs(passage), p, p + |passage|, at)
    decreases |passage|
  {
    var i := Find(passage, PARAGRAPH_BREAK, 0);
    ParagraphsUnfold(passage);
    if i.None? {
      at := AlonePlaces(text, passage, p);
    } else {
      var n := i.value;
      var head, tail := passage[..n], passage[n + 2..];
      PartsOccur(text, passage, p, n);
      var first := AlonePlaces(text, head, p);
      var rest := SlicePlaces(text, tail, p + n + 2);
      WithinLater(text, NonBlank([head]), p, p + n, p + n + 2, first);
      PlacedAppend(text, NonBlank([head]), Paragraphs(tail), p, p + n + 2, p + |passage|, first, rest);
      at := first + rest;
    }
  }

  lemma PartsOccur(text: string, passage: string, p: nat, n: nat)
    requires OccursAt(text, passage, p) && n + 2 <= |passage|
    ensures OccursAt(text, passage[..n], p) && OccursAt(text, passage[n + 2..], p + n + 2)
  {
    SliceOccurs(text, passage, p, 0, n);
    SliceOccurs(text, passage, p, n + 2, |passage|);
    assert passage[0..n] == passage[..n] && passage[n + 2..|passage|] == passage[n + 2..];
  }

  lemma WithinLater(text: string, parts: seq<string>, start: nat, end: nat, later: nat, at: seq<nat>)
    requires PlacedWithin(text, parts, start, end, at) && end <= later
    ensures PlacedWithin(text, parts, start, later, at)
  {
  }

  /** Any contiguous passage holds, span or no span. */
  lemma ContiguousHolds(digest: Digest, text: string, p: Passage, at: nat)
    requires p.Valid(digest) && OccursAt(text, p.text, at)
    requires p.span.Some? ==> p.span.value == (at, at + |p.text|)
    ensures Holds(digest, text, p)
  {
    if p.span.None? {
      var ps := SlicePlaces(text, p.text, at);
      assert Placed(text, Paragraphs(p.text), 0, ps);
    }
  }

  lemma {:induction false} NonBlankAppend(a: seq<string>, b: seq<string>)
    ensures NonBlank(a + b) == NonBlank(a) + NonBlank(b)
  {
    if a == [] {
      assert a + b == b;
    } else {
      assert (a + b)[1..] == a[1..] + b;
      NonBlankAppend(a[1..], b);
    }
  }

  /** Joined by a paragraph break, a text that does not end in a line feed splits where it was joined. */
  lemma {:induction false} SplitJoined(a: string, b: string)
    requires a != "" ==> a[|a| - 1] != '\n'
    ensures Split(a + PARAGRAPH_BREAK + b) == Split(a) + Split(b)
    decreases |a|
  {
    var i := Find(a, PARAGRAPH_BREAK, 0);
    FindInJoined(a, b);
    if i.Some? {
      var head, tail := a[..i.value], a[i.value + 2..];
      LastLineFeed(a, i.value);
      SplitJoined(tail, b);
      JoinAgain(a, b, i.value);
      SplitUnfold(a + PARAGRAPH_BREAK + b, head, tail + PARAGRAPH_BREAK + b);
      SplitUnfold(a, head, tail);
      AppendsAssociate([head], Split(tail), Split(b));
    } else {
      SplitUnfold(a + PARAGRAPH_BREAK + b, a, b);
    }
  }

  lemma JoinAgain(a: string, b: string, n: nat)
    requires OccursAt(a, PARAGRAPH_BREAK, n)
    ensures a == a[..n] + PARAGRAPH_BREAK + a[n + 2..]
    ensures a + PARAGRAPH_BREAK + b == a[..n] + PARAGRAPH_BREAK + (a[n + 2..] + PARAGRAPH_BREAK + b)
  {
    assert a == a[..n] + a[n..n + 2] + a[n + 2..];
  }

  lemma AppendsAssociate(a: seq<string>, b: seq<string>, c: seq<string>)
    ensures a + (b + c) == a + b + c
  {
  }

  lemma SplitUnfold(s: string, head: string, tail: string)
    requires s == head + PARAGRAPH_BREAK + tail && Find(s, PARAGRAPH_BREAK, 0) == Some(|head|)
    ensures Split(s) == [head] + Split(tail)
  {
    assert s[..|head|] == head && s[|head| + 2..] == tail;
  }

  lemma LastLineFeed(a: string, n: nat)
    requires a != "" && a[|a| - 1] != '\n' && OccursAt(a, PARAGRAPH_BREAK, n)
    ensures a[n + 2..] != "" && a[n + 2..][|a[n + 2..]| - 1] != '\n'
  {
    assert a[n..n + 2][1] == a[n + 1];
  }

  lemma FindInJoined(a: string, b: string)
    requires a != "" ==> a[|a| - 1] != '\n'
    ensures Find(a + PARAGRAPH_BREAK + b, PARAGRAPH_BREAK, 0) ==
            if Find(a, PARAGRAPH_BREAK, 0).Some? then Find(a, PARAGRAPH_BREAK, 0) else Some(|a|)
  {
    var s := a + PARAGRAPH_BREAK + b;
    FindsFirst(s, PARAGRAPH_BREAK, 0);
    FindsFirst(a, PARAGRAPH_BREAK, 0);
    assert OccursAt(s, PARAGRAPH_BREAK, |a|);
    forall k: nat | k < |a| ensures OccursAt(s, PARAGRAPH_BREAK, k) <==> OccursAt(a, PARAGRAPH_BREAK, k) {
      if k == |a| - 1 {
        assert s[k] == a[k];
        assert s[k..k + 2][0] == a[k];
      } else {
        assert s[k..k + 2] == a[k..k + 2];
      }
    }
  }

  /** Two sections the loader merged still hold: found in order in the body, their joined text is not
      contiguous there, but its paragraphs are in order. */
  lemma MergedHolds(digest: Digest, body: string, p: Passage, first: string, second: string, at: nat, next: nat)
    requires p.Valid(digest) && p.span.None? && p.text == first + PARAGRAPH_BREAK + second
    requires first != "" ==> first[|first| - 1] != '\n'
    requires OccursAt(body, first, at) && OccursAt(body, second, next) && at + |first| <= next
    ensures Holds(digest, body, p)
  {
    SplitJoined(first, second);
    NonBlankAppend(Split(first), Split(second));
    var pa := SlicePlaces(body, first, at);
    var pb := SlicePlaces(body, second, next);
    WithinLater(body, Paragraphs(first), at, at + |first|, next, pa);
    PlacedAppend(body, Paragraphs(first), Paragraphs(second), at, next, next + |second|, pa, pb);
    assert Placed(body, Paragraphs(p.text), 0, pa + pb);
  }
}

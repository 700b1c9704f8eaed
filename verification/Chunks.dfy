/** Cutting a document into chunks: short sections merge with the next one, and each chunk that is
    contiguous in the body gets its offsets there. */
module Chunks {
  import opened Wrappers
  import opened Texts
  import opened Passages

  datatype Section = Section(path: string, text: string)

  // --- merging short sections ---------------------------------------------------------------

  const MIN_WORDS := 30

  /** The number of maximal runs of non-space characters. */
  function WordCount(text: string): nat {
    if text == "" then 0
    else (if !IsSpace(text[0]) && (|text| == 1 || IsSpace(text[1])) then 1 else 0) + WordCount(text[1..])
  }

  function Joined(first: Section, second: Section): Section {
    Section(first.path, first.text + PARAGRAPH_BREAK + second.text)
  }

  predicate MergesNext(sections: seq<Section>) {
    |sections| > 1 && WordCount(sections[0].text) < MIN_WORDS
  }

  function Merged(sections: seq<Section>): seq<Section> {
    if sections == [] then []
    else if MergesNext(sections) then [Joined(sections[0], sections[1])] + Merged(sections[2..])
    else [sections[0]] + Merged(sections[1..])
  }

  /** The merge loop: a short section takes the next one with it, whatever the next one's length. */
  method MergeShort(sections: seq<Section>) returns (merged: seq<Section>)
    ensures merged == Merged(sections)
  {
    merged := [];
    var i := 0;
    ghost var all := Merged(sections);
    assert sections[0..] == sections && all[0..] == all;
    while i < |sections|
      invariant 0 <= i <= |sections| && |merged| <= |all|
      invariant merged == all[..|merged|] && all[|merged|..] == Merged(sections[i..])
    {
      MergedStep(sections, all, i, |merged|);
      if WordCount(sections[i].text) < MIN_WORDS && i + 1 < |sections| {
        merged := merged + [Joined(sections[i], sections[i + 1])];
        i := i + 2;
      } else {
        merged := merged + [sections[i]];
        i := i + 1;
      }
    }
  }

  lemma MergedStep(sections: seq<Section>, all: seq<Section>, i: nat, k: nat)
    requires i < |sections| && k <= |all| && all[k..] == Merged(sections[i..])
    ensures k < |all|
    ensures if WordCount(sections[i].text) < MIN_WORDS && i + 1 < |sections|
            then all[k] == Joined(sections[i], sections[i + 1]) && all[k + 1..] == Merged(sections[i + 2..])
            else all[k] == sections[i] && all[k + 1..] == Merged(sections[i + 1..])
  {
    var rest := sections[i..];
    assert rest[1..] == sections[i + 1..] && rest[0] == sections[i];
    assert |rest| > 1 ==> rest[1] == sections[i + 1] && rest[2..] == sections[i + 2..];
    assert |all[k..]| > 0;
    assert all[k..][0] == all[k] && all[k..][1..] == all[k + 1..];
  }

  function Kept(sections: seq<Section>): seq<Chunk> {
    if sections == [] then []
    else
      var head := sections[0];
      (if IsBlank(head.text) then [] else [Chunk(head.path, head.text, None)]) + Kept(sections[1..])
  }

  /** A document's chunks, from its raw sections, before they are located. */
  function Cut(sections: seq<Section>): seq<Chunk> { Kept(Merged(sections)) }

  function TextsOf(sections: seq<Section>): seq<string> {
    seq(|sections|, i requires 0 <= i < |sections| => sections[i].text)
  }

  /** A stripped section does not end in a line feed. */
  predicate Stripped(text: string) { text != "" ==> text[|text| - 1] != '\n' }

  /** The sections are slices of the body, in body order. */
  ghost predicate Sliced(body: string, sections: seq<Section>) {
    Placeable(body, TextsOf(sections), 0) && forall i :: 0 <= i < |sections| ==> Stripped(sections[i].text)
  }

  /** A text that is a slice of the body, or two slices of it in order. */
  ghost predicate FromBody(body: string, text: string) {
    || (exists at :: OccursAt(body, text, at))
    || (exists first, second, at: nat, next: nat :: TwoSlices(body, text, first, second, at, next))
  }

  ghost predicate TwoSlices(body: string, text: string, first: string, second: string, at: nat, next: nat) {
    && text == first + PARAGRAPH_BREAK + second && Stripped(first)
    && OccursAt(body, first, at) && OccursAt(body, second, next) && at + |first| <= next
  }

  lemma {:induction false} MergedFromBody(body: string, sections: seq<Section>)
    requires Sliced(body, sections)
    ensures forall i :: 0 <= i < |Merged(sections)| ==> FromBody(body, Merged(sections)[i].text)
  {
    if sections == [] { return; }
    var texts := TextsOf(sections);
    var at :| Placed(body, texts, 0, at);
    assert texts[0] == sections[0].text && OccursAt(body, texts[0], at[0]);
    if MergesNext(sections) {
      assert texts[1] == sections[1].text && OccursAt(body, texts[1], at[1]);
      assert TwoSlices(body, Joined(sections[0], sections[1]).text, texts[0], texts[1], at[0], at[1]);
      Suffix(body, sections, 2);
      MergedFromBody(body, sections[2..]);
    } else {
      Suffix(body, sections, 1);
      MergedFromBody(body, sections[1..]);
    }
  }

  lemma Suffix(body: string, sections: seq<Section>, n: nat)
    requires Sliced(body, sections) && n <= |sections|
    ensures Sliced(body, sections[n..])
  {
    var texts := TextsOf(sections);
    var at :| Placed(body, texts, 0, at);
    assert TextsOf(sections[n..]) == texts[n..];
    forall i | 0 <= i < |at[n..]| ensures OccursAt(body, texts[n..][i], at[n..][i]) {
      assert OccursAt(body, texts[n + i], at[n + i]);
    }
    assert Placed(body, texts[n..], 0, at[n..]);
  }

  lemma {:induction false} KeptFrom(sections: seq<Section>, i: nat)
    requires i < |Kept(sections)|
    ensures exists k :: 0 <= k < |sections| && sections[k].text == Kept(sections)[i].text
  {
    if IsBlank(sections[0].text) {
      KeptFrom(sections[1..], i);
      var k :| 0 <= k < |sections[1..]| && sections[1..][k].text == Kept(sections)[i].text;
      assert sections[k + 1].text == Kept(sections)[i].text;
    } else if i > 0 {
      KeptFrom(sections[1..], i - 1);
      var k :| 0 <= k < |sections[1..]| && sections[1..][k].text == Kept(sections)[i].text;
      assert sections[k + 1].text == Kept(sections)[i].text;
    } else {
      assert sections[0].text == Kept(sections)[i].text;
    }
  }

  // --- spans --------------------------------------------------------------------------------

  datatype Chunk = Chunk(sectionPath: string, text: string, span: Option<Span>)

  /** Each chunk located at its first occurrence after the previous one located. */
  function Located(body: string, chunks: seq<Chunk>, cursor: nat): (r: seq<Chunk>)
    ensures |r| == |chunks|
  {
    if chunks == [] then []
    else
      var start := Find(body, chunks[0].text, cursor);
      if start.None? then [chunks[0].(span := None)] + Located(body, chunks[1..], cursor)
      else
        var end := start.value + |chunks[0].text|;
        [chunks[0].(span := Some((start.value, end)))] + Located(body, chunks[1..], end)
  }

  /** Every chunk searched for from where the last one found ends; the array is updated as it goes. */
  method AssignSpans(body: string, chunks: array<Chunk>)
    modifies chunks
    ensures chunks[..] == Located(body, old(chunks[..]), 0) && Spanned(body, old(chunks[..]), chunks[..])
  {
    var cursor: nat := 0;
    ghost var was := chunks[..];
    ghost var cursors := Cursors(body, was, 0);
    for i := 0 to chunks.Length
      invariant cursor == cursors[i]
      invariant forall k :: i <= k < chunks.Length ==> chunks[k] == was[k]
      invariant forall k :: 0 <= k < i ==> chunks[k] == Located(body, was, 0)[k]
    {
      var start := Find(body, chunks[i].text, cursor);
      if start.None? {
        chunks[i] := chunks[i].(span := None);
        continue;
      }
      chunks[i] := chunks[i].(span := Some((start.value, start.value + |chunks[i].text|)));
      cursor := start.value + |chunks[i].text|;
    }
    assert chunks[..] == Located(body, was, 0);
    LocatedIsSpanned(body, was);
  }

  /** A chunk searched for from one cursor, what came of it, and where the next search starts. */
  predicate Searched(body: string, chunk: Chunk, located: Chunk, cursor: nat, next: nat) {
    var start := Find(body, chunk.text, cursor);
    if start.None? then located == chunk.(span := None) && next == cursor
    else located == chunk.(span := Some((start.value, next))) && next == start.value + |chunk.text|
  }

  /** Where the search for each chunk starts. */
  ghost predicate SearchesFrom(body: string, chunks: seq<Chunk>, located: seq<Chunk>, cursors: seq<nat>) {
    && |cursors| == |chunks| + 1 && |located| == |chunks|
    && forall k :: 0 <= k < |chunks| ==> Searched(body, chunks[k], located[k], cursors[k], cursors[k + 1])
  }

  lemma {:induction false} Cursors(body: string, chunks: seq<Chunk>, cursor: nat) returns (cursors: seq<nat>)
    ensures SearchesFrom(body, chunks, Located(body, chunks, cursor), cursors) && cursors[0] == cursor
  {
    if chunks == [] {
      cursors := [cursor];
    } else {
      var next := NextCursor(body, chunks[0], cursor);
      var rest := Cursors(body, chunks[1..], next);
      var head := LocatedHead(body, chunks, cursor);
      cursors := [cursor] + rest;
      SearchesCons(body, chunks[0], head, cursor, chunks[1..], Located(body, chunks[1..], next), rest);
      assert [chunks[0]] + chunks[1..] == chunks;
    }
  }

  function NextCursor(body: string, chunk: Chunk, cursor: nat): nat {
    var start := Find(body, chunk.text, cursor);
    if start.None? then cursor else start.value + |chunk.text|
  }

  lemma LocatedHead(body: string, chunks: seq<Chunk>, cursor: nat) returns (head: Chunk)
    requires chunks != []
    ensures Searched(body, chunks[0], head, cursor, NextCursor(body, chunks[0], cursor))
    ensures Located(body, chunks, cursor) == [head] + Located(body, chunks[1..], NextCursor(body, chunks[0], cursor))
  {
    head := Located(body, chunks, cursor)[0];
  }

  lemma SearchesCons(body: string, c: Chunk, head: Chunk, cursor: nat, chunks: seq<Chunk>, located: seq<Chunk>,
                     cursors: seq<nat>)
    requires SearchesFrom(body, chunks, located, cursors) && Searched(body, c, head, cursor, cursors[0])
    ensures SearchesFrom(body, [c] + chunks, [head] + located, [cursor] + cursors)
  {
    var cs, ls, us := [c] + chunks, [head] + located, [cursor] + cursors;
    forall k | 0 <= k < |cs| ensures Searched(body, cs[k], ls[k], us[k], us[k + 1]) {
      if k == 0 {
        assert cs[0] == c && ls[0] == head && us[0] == cursor && us[1] == cursors[0];
      } else {
        assert cs[k] == chunks[k - 1] && ls[k] == located[k - 1] && us[k] == cursors[k - 1] && us[k + 1] == cursors[k];
        assert Searched(body, chunks[k - 1], located[k - 1], cursors[k - 1], cursors[k]);
      }
    }
  }

  // --- where a chunk is located -------------------------------------------------------------

  /** The end of the last chunk located before the i-th. */
  function LastEnd(located: seq<Chunk>, i: nat): nat
    requires i <= |located|
  {
    if i == 0 then 0
    else if located[i - 1].span.Some? then located[i - 1].span.value.1
    else LastEnd(located, i - 1)
  }

  lemma {:induction false} CursorIsLastEnd(body: string, chunks: seq<Chunk>, located: seq<Chunk>, cursors: seq<nat>,
                                           i: nat)
    requires SearchesFrom(body, chunks, located, cursors) && cursors[0] == 0 && i <= |chunks|
    ensures cursors[i] == LastEnd(located, i)
  {
    if i > 0 {
      CursorIsLastEnd(body, chunks, located, cursors, i - 1);
      assert Searched(body, chunks[i - 1], located[i - 1], cursors[i - 1], cursors[i]);
    }
  }

  /** Each chunk is searched for from the end of the last one located before it. */
  ghost predicate Spanned(body: string, chunks: seq<Chunk>, r: seq<Chunk>) {
    |r| == |chunks| && forall i :: 0 <= i < |r| ==> SearchedAt(body, chunks, r, i)
  }

  ghost predicate SearchedAt(body: string, chunks: seq<Chunk>, r: seq<Chunk>, i: nat)
    requires i < |r| == |chunks|
  {
    exists next :: Searched(body, chunks[i], r[i], LastEnd(r, i), next)
  }

  lemma LocatedIsSpanned(body: string, chunks: seq<Chunk>)
    ensures Spanned(body, chunks, Located(body, chunks, 0))
  {
    var r := Located(body, chunks, 0);
    var cursors := Cursors(body, chunks, 0);
    forall i | 0 <= i < |r| ensures SearchedAt(body, chunks, r, i) {
      CursorIsLastEnd(body, chunks, r, cursors, i);
      assert Searched(body, chunks[i], r[i], cursors[i], cursors[i + 1]);
    }
  }

  /** No copy of the text starts earlier than `own`, from a place on. */
  ghost predicate FirstFrom(body: string, text: string, start: nat, own: nat) {
    start <= own && forall k :: start <= k < own ==> !OccursAt(body, text, k)
  }

  ghost predicate NoneFrom(body: string, text: string, start: nat) {
    forall k :: start <= k ==> !OccursAt(body, text, k)
  }

  /** Where each chunk stands in the body; none for a chunk that stands nowhere. */
  type Places = seq<Option<nat>>

  ghost predicate Stands(body: string, chunks: seq<Chunk>, own: Places) {
    |own| == |chunks| && forall i :: 0 <= i < |own| && own[i].Some? ==> OccursAt(body, chunks[i].text, own[i].value)
  }

  /** The end of the last chunk before the i-th that stands somewhere. */
  function OwnEnd(chunks: seq<Chunk>, own: Places, i: nat): nat
    requires i <= |own| == |chunks|
  {
    if i == 0 then 0
    else if own[i - 1].Some? then own[i - 1].value + |chunks[i - 1].text|
    else OwnEnd(chunks, own, i - 1)
  }

  function OwnSpan(chunk: Chunk, own: Option<nat>): Option<Span> {
    if own.None? then None else Some((own.value, own.value + |chunk.text|))
  }

  /** Between the end of the last chunk that stands before it and its place, no copy of the chunk's text
      starts; after that end none at all when it stands nowhere. */
  ghost predicate Unrepeated(body: string, chunks: seq<Chunk>, own: Places, i: nat)
    requires i < |own| == |chunks|
  {
    if own[i].Some? then FirstFrom(body, chunks[i].text, OwnEnd(chunks, own, i), own[i].value)
    else NoneFrom(body, chunks[i].text, OwnEnd(chunks, own, i))
  }

  /** The first `n` chunks were given their own spans. */
  ghost predicate GivenOwn(chunks: seq<Chunk>, own: Places, r: seq<Chunk>, n: nat)
    requires n <= |r| == |own| == |chunks|
  {
    forall i :: 0 <= i < n ==> HasOwn(chunks, own, r, i)
  }

  predicate HasOwn(chunks: seq<Chunk>, own: Places, r: seq<Chunk>, i: nat)
    requires i < |r| == |own| == |chunks|
  {
    r[i].span == OwnSpan(chunks[i], own[i])
  }

  /** The spans given are the chunks' own, one for one, exactly when no text is repeated where it would be
      found first: a condition on the body, the chunks and where they stand. */
  lemma LocatedAsTheyStand(body: string, chunks: seq<Chunk>, own: Places)
    requires Stands(body, chunks, own)
    ensures GivenOwn(chunks, own, Located(body, chunks, 0), |chunks|) <==>
            forall i :: 0 <= i < |chunks| ==> Unrepeated(body, chunks, own, i)
  {
    var r := Located(body, chunks, 0);
    LocatedIsSpanned(body, chunks);
    PrefixAsItStands(body, chunks, own, r, |chunks|);
  }

  lemma {:induction false} PrefixAsItStands(body: string, chunks: seq<Chunk>, own: Places, r: seq<Chunk>, n: nat)
    requires Stands(body, chunks, own) && Spanned(body, chunks, r) && n <= |chunks|
    ensures GivenOwn(chunks, own, r, n) <==> forall i :: 0 <= i < n ==> Unrepeated(body, chunks, own, i)
  {
    if n > 0 {
      PrefixAsItStands(body, chunks, own, r, n - 1);
      if GivenOwn(chunks, own, r, n - 1) {
        EndsAgree(chunks, own, r, n - 1);
        SpanAsItStands(body, chunks, own, r, n - 1);
      }
    }
  }

  lemma {:induction false} EndsAgree(chunks: seq<Chunk>, own: Places, r: seq<Chunk>, n: nat)
    requires n <= |r| == |own| == |chunks| && GivenOwn(chunks, own, r, n)
    ensures LastEnd(r, n) == OwnEnd(chunks, own, n)
  {
    if n > 0 {
      EndsAgree(chunks, own, r, n - 1);
      assert HasOwn(chunks, own, r, n - 1);
    }
  }

  lemma SpanAsItStands(body: string, chunks: seq<Chunk>, own: Places, r: seq<Chunk>, i: nat)
    requires Stands(body, chunks, own) && Spanned(body, chunks, r) && i < |chunks|
    requires LastEnd(r, i) == OwnEnd(chunks, own, i)
    ensures HasOwn(chunks, own, r, i) <==> Unrepeated(body, chunks, own, i)
  {
    assert SearchedAt(body, chunks, r, i);
    var next :| Searched(body, chunks[i], r[i], LastEnd(r, i), next);
    SearchFindsOwn(body, chunks[i], r[i], LastEnd(r, i), next, own[i]);
  }

  /** One search finds the chunk's own place, or nothing for none, exactly when no copy comes first. */
  lemma SearchFindsOwn(body: string, chunk: Chunk, located: Chunk, cursor: nat, next: nat, own: Option<nat>)
    requires Searched(body, chunk, located, cursor, next) && (own.Some? ==> OccursAt(body, chunk.text, own.value))
    ensures located.span == OwnSpan(chunk, own) <==>
            if own.Some? then FirstFrom(body, chunk.text, cursor, own.value) else NoneFrom(body, chunk.text, cursor)
  {
    FindsFirst(body, chunk.text, cursor);
  }

  /** A document the loader cuts into three short sections, the last two alike. */
  const TWICE := "## T\n" + "a" + "\n## S\n" + "b" + "\n## G\n" + "b"
  const TWICE_SECTIONS := [Section("T", "a"), Section("S", "b"), Section("G", "b")]

  const MERGED_CHUNK := Chunk("T", "a\n\nb", None)
  const LAST_CHUNK := Chunk("G", "b", None)

  /** The condition can fail: the merged chunk is not located, so the next one, whose text it ends in, is
      located where the merged one has it, and not where it stands. */
  lemma RepeatIsMislocated()
    ensures Sliced(TWICE, TWICE_SECTIONS) && Stands(TWICE, Cut(TWICE_SECTIONS), [None, Some(19)])
    ensures Located(TWICE, Cut(TWICE_SECTIONS), 0) == [MERGED_CHUNK, LAST_CHUNK.(span := Some((12, 13)))]
  {
    TwiceIsSliced();
    TwiceIsCut();
    MergedIsNowhere();
    LastIsFoundEarly();
    LocatedPair(TWICE, MERGED_CHUNK, LAST_CHUNK, 12);
  }

  /** Its letters stand where they are read: one "a" and, between headings without either, two "b"s. */
  lemma TwiceChars()
    ensures |TWICE| == 20 && TWICE[5] == 'a' && TWICE[7] == '#' && TWICE[12] == 'b' && TWICE[19] == 'b'
    ensures forall k :: 0 <= k < 20 && k != 5 ==> TWICE[k] != 'a'
    ensures forall k :: 0 <= k < 20 && k != 12 && k != 19 ==> TWICE[k] != 'b'
  {
    var t, s, g := "## T\n", "\n## S\n", "\n## G\n";
    assert 'a' !in t && 'a' !in s && 'a' !in g && 'b' !in t && 'b' !in s && 'b' !in g;
    assert |t| == 5 && |s| == 6 && |g| == 6 && s[1] == '#';
    assert TWICE == t + "a" + s + "b" + g + "b";
    PartsAt(t, "a", s, "b", g, "b");
  }

  /** The characters of six parts put together, the second, fourth and last of one character each. */
  lemma PartsAt(t: string, x: string, s: string, y: string, g: string, z: string)
    requires |x| == |y| == |z| == 1
    ensures var all := t + x + s + y + g + z;
            var n, m := |t| + 1 + |s|, |t| + 2 + |s| + |g|;
            && |all| == m + 1 && all[|t|] == x[0] && all[n] == y[0] && all[m] == z[0]
            && (forall k :: 0 <= k < |t| ==> all[k] == t[k] && all[k] in t)
            && (forall k :: 0 <= k < |s| ==> all[|t| + 1 + k] == s[k])
            && (forall k :: |t| < k < n ==> all[k] in s)
            && (forall k :: n < k < m ==> all[k] in g)
  {
    var all := t + x + s + y + g + z;
    forall k | 0 <= k < |s| ensures all[|t| + 1 + k] == s[k] {}
    forall k | |t| < k < |t| + 1 + |s| ensures all[k] in s { assert all[k] == s[k - |t| - 1]; }
    forall k | |t| + 1 + |s| < k < |t| + 2 + |s| + |g| ensures all[k] in g { assert all[k] == g[k - |t| - |s| - 2]; }
  }

  lemma TwiceIsSliced()
    ensures Sliced(TWICE, TWICE_SECTIONS) && OccursAt(TWICE, "b", 19)
  {
    TwiceChars();
    OccursMeans(TWICE, "a", 5);
    OccursMeans(TWICE, "b", 12);
    OccursMeans(TWICE, "b", 19);
    assert TextsOf(TWICE_SECTIONS) == ["a", "b", "b"];
    assert Placed(TWICE, ["a", "b", "b"], 0, [5, 12, 19]);
  }

  lemma LastIsFoundEarly()
    ensures Find(TWICE, "b", 0) == Some(12)
  {
    TwiceChars();
    OccursMeans(TWICE, "b", 12);
    forall k: nat | k < 12 ensures !OccursAt(TWICE, "b", k) { Differs(TWICE, "b", k, 0); }
    FindsFirst(TWICE, "b", 0);
  }

  lemma LocatedPair(body: string, a: Chunk, b: Chunk, at: nat)
    requires Find(body, a.text, 0).None? && Find(body, b.text, 0) == Some(at)
    ensures Located(body, [a, b], 0) == [a.(span := None), b.(span := Some((at, at + |b.text|)))]
  {
    assert [a, b][1..] == [b] && [b][1..] == [];
  }

  lemma TwiceIsCut()
    ensures Cut(TWICE_SECTIONS) == [MERGED_CHUNK, LAST_CHUNK]
  {
    var merged, last := Section("T", "a\n\nb"), Section("G", "b");
    assert WordCount("a") == 1 && WordCount("b") == 1;
    assert "a" + PARAGRAPH_BREAK + "b" == "a\n\nb";
    assert Joined(TWICE_SECTIONS[0], TWICE_SECTIONS[1]) == merged && TWICE_SECTIONS[2..] == [last];
    assert Merged([last]) == [last];
    assert [merged, last][1..] == [last];
    assert Kept([last]) == [LAST_CHUNK];
  }

  lemma MergedIsNowhere()
    ensures Find(TWICE, "a\n\nb", 0).None?
  {
    TwiceChars();
    forall k: nat ensures !OccursAt(TWICE, "a\n\nb", k) { Differs(TWICE, "a\n\nb", k, if k == 5 then 2 else 0); }
  }

  lemma Differs(s: string, word: string, k: nat, j: nat)
    requires j < |word| && (k + j < |s| ==> s[k + j] != word[j])
    ensures !OccursAt(s, word, k)
  {
    OccursMeans(s, word, k);
  }

  ghost predicate SpanFits(body: string, c: Chunk) {
    c.span.Some? ==> c.span.value.0 <= c.span.value.1 <= |body| && body[c.span.value.0..c.span.value.1] == c.text
  }

  /** Spans are in bounds, hold their chunk's text, and are increasing and disjoint; nothing but the
      span of a chunk differs. */
  ghost predicate Fits(body: string, chunks: seq<Chunk>, r: seq<Chunk>, cursor: nat) {
    && |r| == |chunks|
    && (forall i :: 0 <= i < |r| ==> SpanFits(body, r[i]) && r[i] == chunks[i].(span := r[i].span))
    && (forall i :: 0 <= i < |r| && r[i].span.Some? ==> cursor <= r[i].span.value.0)
    && (forall i, j :: 0 <= i < j < |r| && r[i].span.Some? && r[j].span.Some? ==>
          r[i].span.value.1 <= r[j].span.value.0)
  }

  lemma {:induction false} SpansFit(body: string, chunks: seq<Chunk>, cursor: nat)
    ensures Fits(body, chunks, Located(body, chunks, cursor), cursor)
  {
    if chunks != [] {
      var start := Find(body, chunks[0].text, cursor);
      var end := if start.None? then cursor else start.value + |chunks[0].text|;
      var head := chunks[0].(span := if start.None? then None else Some((start.value, end)));
      SpansFit(body, chunks[1..], end);
      assert Located(body, chunks, cursor) == [head] + Located(body, chunks[1..], end);
      FitsCons(body, chunks, head, Located(body, chunks[1..], end), cursor, end);
    }
  }

  lemma FitsCons(body: string, chunks: seq<Chunk>, head: Chunk, rest: seq<Chunk>, cursor: nat, end: nat)
    requires chunks != [] && Fits(body, chunks[1..], rest, end) && cursor <= end
    requires SpanFits(body, head) && head == chunks[0].(span := head.span)
    requires head.span.Some? ==> cursor <= head.span.value.0 && head.span.value.1 == end
    ensures Fits(body, chunks, [head] + rest, cursor)
  {
    var r := [head] + rest;
    forall i | 0 <= i < |r|
      ensures SpanFits(body, r[i]) && r[i] == chunks[i].(span := r[i].span)
      ensures r[i].span.Some? ==> cursor <= r[i].span.value.0
    {
      if i > 0 { assert r[i] == rest[i - 1] && chunks[i] == chunks[1..][i - 1]; }
    }
    forall i, j | 0 <= i < j < |r| && r[i].span.Some? && r[j].span.Some?
      ensures r[i].span.value.1 <= r[j].span.value.0
    {
      assert r[j] == rest[j - 1];
      if i > 0 { assert r[i] == rest[i - 1]; }
    }
  }

  /** A located chunk, cited as a passage with its span, always holds in the body it was cut from. */
  lemma LocatedHolds(digest: Digest, body: string, chunks: seq<Chunk>, i: nat, p: Passage)
    requires i < |chunks| && Located(body, chunks, 0)[i].span.Some?
    requires p.Valid(digest) && p.text == chunks[i].text && p.span == Located(body, chunks, 0)[i].span
    ensures Holds(digest, body, p)
  {
    SpansFit(body, chunks, 0);
  }

  /** Every chunk of a document, cited with the span it was given or with none, holds in the body it
      was cut from: contiguous or merged, located or not. */
  lemma ChunksHold(digest: Digest, body: string, sections: seq<Section>, i: nat, p: Passage)
    requires Sliced(body, sections) && i < |Cut(sections)|
    requires var c := Located(body, Cut(sections), 0)[i]; p.Valid(digest) && p.text == c.text && p.span == c.span
    ensures Holds(digest, body, p)
  {
    SpansFit(body, Cut(sections), 0);
    if p.span.Some? {
      LocatedHolds(digest, body, Cut(sections), i, p);
    } else {
      KeptFrom(Merged(sections), i);
      MergedFromBody(body, sections);
      FromBodyHolds(digest, body, p);
    }
  }

  lemma FromBodyHolds(digest: Digest, body: string, p: Passage)
    requires p.Valid(digest) && p.span.None? && FromBody(body, p.text)
    ensures Holds(digest, body, p)
  {
    if at :| OccursAt(body, p.text, at) {
      ContiguousHolds(digest, body, p, at);
    } else {
      var first, second, at: nat, next: nat :| TwoSlices(body, p.text, first, second, at, next);
      MergedHolds(digest, body, p, first, second, at, next);
    }
  }
}

/** How a document's raw sections become chunks, section by section: which merge, which are dropped. */
module ChunkLaws {
  import opened Wrappers
  import opened PassageLaws
  import C = Chunks

  // --- words ------------------------------------------------------------------------------------

  /** A word ends at `i`: no white space there, and white space or nothing after it. */
  predicate WordEnds(text: string, i: int) {
    0 <= i < |text| && text[i] !in SPACES && (i == |text| - 1 || text[i + 1] in SPACES)
  }

  function Ends(text: string, from: nat): set<int> { set i | from <= i < |text| && WordEnds(text, i) }

  /** Words are counted by their ends. */
  lemma {:induction false} WordsAre(text: string)
    ensures C.WordCount(text) == |Ends(text, 0)|
  {
    WordsFrom(text, 0);
    assert text[0..] == text;
  }

  lemma {:induction false} WordsFrom(text: string, from: nat)
    requires from <= |text|
    ensures C.WordCount(text[from..]) == |Ends(text, from)|
    decreases |text| - from
  {
    if from < |text| {
      var rest := text[from..];
      assert rest[1..] == text[from + 1..] && rest[0] == text[from];
      SpacesAre(rest[0]);
      if |rest| > 1 { SpacesAre(rest[1]); }
      WordsFrom(text, from + 1);
      assert Ends(text, from) == Ends(text, from + 1) + if WordEnds(text, from) then {from} else {};
    } else {
      assert Ends(text, from) == {};
    }
  }

  // --- merging ----------------------------------------------------------------------------------

  /** One step of the merge: a section under 30 words takes the next one with it, after a blank line. */
  ghost predicate Takes(sections: seq<C.Section>, i: nat, next: nat, made: C.Section) {
    i < |sections| &&
    if |Ends(sections[i].text, 0)| < 30 && i + 1 < |sections|
    then next == i + 2 && made == C.Section(sections[i].path, sections[i].text + "\n\n" + sections[i + 1].text)
    else next == i + 1 && made == sections[i]
  }

  /** `at` lists where each merged section starts, and then the end. */
  ghost predicate MergesAt(sections: seq<C.Section>, merged: seq<C.Section>, at: seq<nat>) {
    && |at| == |merged| + 1 && at[|merged|] == |sections|
    && forall n :: 0 <= n < |merged| ==> Takes(sections, at[n], at[n + 1], merged[n])
  }

  /** Every section goes, in order, into exactly one merged section. */
  lemma MergedExactly(sections: seq<C.Section>) returns (at: seq<nat>)
    ensures MergesAt(sections, C.Merged(sections), at) && at[0] == 0
  {
    at := MergedFrom(sections, 0);
    assert sections[0..] == sections;
  }

  lemma {:induction false} MergedFrom(sections: seq<C.Section>, i: nat) returns (at: seq<nat>)
    requires i <= |sections|
    ensures MergesAt(sections, C.Merged(sections[i..]), at) && at[0] == i
    decreases |sections| - i
  {
    if i == |sections| { return [i]; }
    var rest := sections[i..];
    var next := if C.MergesNext(rest) then i + 2 else i + 1;
    WordsAre(sections[i].text);
    assert rest[0] == sections[i] && rest[1..] == sections[i + 1..];
    assert C.MergesNext(rest) ==> rest[1] == sections[i + 1] && rest[2..] == sections[i + 2..];
    var later := MergedFrom(sections, next);
    at := [i] + later;
    MergesCons(sections, C.Merged(rest)[0], C.Merged(sections[next..]), i, later);
    assert C.Merged(rest) == [C.Merged(rest)[0]] + C.Merged(sections[next..]);
  }

  lemma MergesCons(sections: seq<C.Section>, head: C.Section, merged: seq<C.Section>, i: nat, later: seq<nat>)
    requires MergesAt(sections, merged, later) && Takes(sections, i, later[0], head)
    ensures MergesAt(sections, [head] + merged, [i] + later)
  {
    var ms, at := [head] + merged, [i] + later;
    forall n | 0 <= n < |ms| ensures Takes(sections, at[n], at[n + 1], ms[n]) {
      if n > 0 { assert ms[n] == merged[n - 1] && at[n] == later[n - 1] && at[n + 1] == later[n]; }
    }
  }

  // --- dropping ---------------------------------------------------------------------------------

  /** `at` lists, in order, the sections from `i` on that are not blank. */
  ghost predicate NotBlankAt(sections: seq<C.Section>, i: nat, at: seq<nat>) {
    && (forall n :: 0 <= n < |at| ==> i <= at[n] < |sections| && !AllSpace(sections[at[n]].text))
    && (forall m, n :: 0 <= m < n < |at| ==> at[m] < at[n])
    && (forall k: nat :: i <= k < |sections| && !AllSpace(sections[k].text) ==> k in at)
  }

  ghost predicate ChunksAt(sections: seq<C.Section>, at: seq<nat>, chunks: seq<C.Chunk>) {
    |chunks| == |at| &&
    forall n :: 0 <= n < |at| ==>
      at[n] < |sections| && chunks[n] == C.Chunk(sections[at[n]].path, sections[at[n]].text, None)
  }

  /** Each section that is not blank becomes one chunk, in order, not located yet. */
  lemma {:induction false} KeptExactly(sections: seq<C.Section>, i: nat) returns (at: seq<nat>)
    requires i <= |sections|
    ensures NotBlankAt(sections, i, at) && ChunksAt(sections, at, C.Kept(sections[i..]))
    decreases |sections| - i
  {
    if i == |sections| { return []; }
    var rest := sections[i..];
    assert rest[0] == sections[i] && rest[1..] == sections[i + 1..];
    BlankMeans(sections[i].text);
    var later := KeptExactly(sections, i + 1);
    at := if AllSpace(sections[i].text) then later else [i] + later;
    NotBlankCons(sections, i, later, at);
    ChunksCons(sections, i, later, C.Kept(sections[i + 1..]), at, C.Kept(rest));
  }

  lemma NotBlankCons(sections: seq<C.Section>, i: nat, later: seq<nat>, at: seq<nat>)
    requires i < |sections| && NotBlankAt(sections, i + 1, later)
    requires at == if AllSpace(sections[i].text) then later else [i] + later
    ensures NotBlankAt(sections, i, at)
  {
    forall k: nat | i <= k < |sections| && !AllSpace(sections[k].text) ensures k in at {
      if k == i { assert at[0] == i; } else { assert k in later; }
    }
  }

  lemma ChunksCons(sections: seq<C.Section>, i: nat, later: seq<nat>, rest: seq<C.Chunk>, at: seq<nat>,
                   chunks: seq<C.Chunk>)
    requires i < |sections| && ChunksAt(sections, later, rest)
    requires || (at == later && chunks == rest)
             || (at == [i] + later && chunks == [C.Chunk(sections[i].path, sections[i].text, None)] + rest)
    ensures ChunksAt(sections, at, chunks)
  {
  }
}

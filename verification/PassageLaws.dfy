/** What a document holding a passage means, character by character: where the passage is cut into
    paragraphs, which of them are blank, and where the others stand in the document. */
module PassageLaws {
  import opened Wrappers
  import opened Texts
  import opened Passages

  // --- blank text ---------------------------------------------------------------------------------

  /** The characters Unicode calls white space or separators, and the control characters Python adds. */
  const SPACES: set<char> := {
    '\t', '\n', '\U{B}', '\U{C}', '\r', '\U{1C}', '\U{1D}', '\U{1E}', '\U{1F}', ' ', '\U{85}', '\U{A0}', '\U{1680}',
    '\U{2000}', '\U{2001}', '\U{2002}', '\U{2003}', '\U{2004}', '\U{2005}', '\U{2006}', '\U{2007}', '\U{2008}',
    '\U{2009}', '\U{200A}', '\U{2028}', '\U{2029}', '\U{202F}', '\U{205F}', '\U{3000}'}

  predicate AllSpace(s: string) { forall i :: 0 <= i < |s| ==> s[i] in SPACES }

  lemma SpacesAre(c: char)
    ensures IsSpace(c) <==> c in SPACES
  {
  }

  /** A text is blank exactly when every character of it is white space. */
  lemma {:induction false} BlankMeans(s: string)
    ensures IsBlank(s) <==> AllSpace(s)
  {
    if s != "" {
      BlankMeans(s[1..]);
      SpacesAre(s[0]);
      if AllSpace(s[1..]) && s[0] in SPACES {
        forall i | 0 <= i < |s| ensures s[i] in SPACES { assert i > 0 ==> s[i] == s[1..][i - 1]; }
      }
    }
  }

  // --- paragraphs -----------------------------------------------------------------------------------

  /** Two line feeds stand at `i`. */
  predicate BreaksAt(s: string, i: int) { 0 <= i < |s| - 1 && s[i] == '\n' && s[i + 1] == '\n' }

  predicate Unbroken(s: string) { forall i :: 0 <= i < |s| ==> !BreaksAt(s, i) }

  function Joined(pieces: seq<string>): string
    requires pieces != []
  {
    if |pieces| == 1 then pieces[0] else pieces[0] + ['\n', '\n'] + Joined(pieces[1..])
  }

  /** Pieces that join to the text, each followed by the first break after it begins, the last by none. */
  ghost predicate IsCut(text: string, pieces: seq<string>) {
    && pieces != [] && text == Joined(pieces)
    && (forall k, i :: 0 <= k < |pieces| - 1 && i < |pieces[k]| ==> !BreaksAt(pieces[k] + ['\n', '\n'], i))
    && Unbroken(pieces[|pieces| - 1])
  }

  lemma BreakOccurs(s: string, i: int)
    ensures OccursAt(s, PARAGRAPH_BREAK, i) <==> BreaksAt(s, i)
  {
    OccursMeans(s, PARAGRAPH_BREAK, i);
  }

  lemma FirstBreak(s: string, n: nat)
    requires BreaksAt(s, n) && forall i :: i < n ==> !BreaksAt(s, i)
    ensures Find(s, PARAGRAPH_BREAK, 0) == Some(n)
  {
    FindsFirst(s, PARAGRAPH_BREAK, 0);
    BreakOccurs(s, n);
    var found := Find(s, PARAGRAPH_BREAK, 0);
    if found.Some? { BreakOccurs(s, found.value); }
  }

  lemma NoBreak(s: string)
    requires Unbroken(s)
    ensures Find(s, PARAGRAPH_BREAK, 0) == None
  {
    var found := Find(s, PARAGRAPH_BREAK, 0);
    if found.Some? { BreakOccurs(s, found.value); }
  }

  /** A break before the end of the head is one of the head followed by a break. */
  lemma BreaksInHead(head: string, tail: string, i: int)
    requires i < |head|
    ensures BreaksAt(head + ['\n', '\n'] + tail, i) <==> BreaksAt(head + ['\n', '\n'], i)
  {
  }

  /** The split is the one way to cut a text at its paragraph breaks. */
  lemma {:induction false} SplitIsUnique(text: string, pieces: seq<string>)
    ensures IsCut(text, pieces) <==> pieces == Split(text)
    decreases |text|
  {
    SplitCuts(text);
    if IsCut(text, pieces) { CutIsSplit(text, pieces); }
  }

  lemma {:induction false} CutIsSplit(text: string, pieces: seq<string>)
    requires IsCut(text, pieces)
    ensures pieces == Split(text)
    decreases |pieces|
  {
    if |pieces| == 1 {
      NoBreak(text);
    } else {
      var head, rest := pieces[0], pieces[1..];
      var tail := Joined(rest);
      assert text == head + ['\n', '\n'] + tail;
      forall i | i < |head| ensures !BreaksAt(text, i) { BreaksInHead(head, tail, i); }
      FirstBreak(text, |head|);
      assert rest[|rest| - 1] == pieces[|pieces| - 1];
      assert IsCut(tail, rest);
      CutIsSplit(tail, rest);
      assert text[..|head|] == head && text[|head| + 2..] == tail;
    }
  }

  lemma {:induction false} SplitCuts(text: string)
    ensures IsCut(text, Split(text))
    decreases |text|
  {
    FindsFirst(text, PARAGRAPH_BREAK, 0);
    forall i ensures OccursAt(text, PARAGRAPH_BREAK, i) <==> BreaksAt(text, i) { BreakOccurs(text, i); }
    var found := Find(text, PARAGRAPH_BREAK, 0);
    if found.Some? {
      var head, tail := text[..found.value], text[found.value + 2..];
      SplitCuts(tail);
      CutCons(text, head, tail, Split(tail));
    } else {
      assert Split(text) == [text];
    }
  }

  lemma CutCons(text: string, head: string, tail: string, rest: seq<string>)
    requires IsCut(tail, rest) && |head| + 2 <= |text| && head == text[..|head|] && tail == text[|head| + 2..]
    requires BreaksAt(text, |head|) && forall i :: i < |head| ==> !BreaksAt(text, i)
    ensures IsCut(text, [head] + rest)
  {
    var pieces := [head] + rest;
    assert pieces[1..] == rest;
    assert text == head + ['\n', '\n'] + tail;
    forall k, i | 0 <= k < |pieces| - 1 && i < |pieces[k]| ensures !BreaksAt(pieces[k] + ['\n', '\n'], i) {
      if k == 0 {
        BreaksInHead(head, tail, i);
      } else {
        assert pieces[k] == rest[k - 1];
      }
    }
  }

  // --- standing in a document ----------------------------------------------------------------------

  predicate ReadsAt(text: string, word: string, i: int) {
    0 <= i <= |text| - |word| && forall k :: 0 <= k < |word| ==> text[i + k] == word[k]
  }

  /** Every piece that is not blank is read at its place, at or after `start`, one wholly after another. */
  ghost predicate Stand(text: string, pieces: seq<string>, start: nat, at: seq<nat>) {
    && |at| == |pieces|
    && (forall i :: 0 <= i < |pieces| && !AllSpace(pieces[i]) ==> start <= at[i] && ReadsAt(text, pieces[i], at[i]))
    && forall i, j :: 0 <= i < j < |pieces| && !AllSpace(pieces[i]) && !AllSpace(pieces[j]) ==>
         at[i] + |pieces[i]| <= at[j]
  }

  lemma {:induction false} StandingIsPlaced(text: string, pieces: seq<string>, start: nat, at: seq<nat>)
    requires Stand(text, pieces, start, at)
    ensures Placeable(text, NonBlank(pieces), start)
    decreases |pieces|
  {
    if pieces == [] {
      assert Placed(text, [], start, []);
    } else {
      var head, tail := pieces[0], pieces[1..];
      BlankMeans(head);
      var from := if AllSpace(head) then start else at[0] + |head|;
      StandTail(text, pieces, start, at, from);
      StandingIsPlaced(text, tail, from, at[1..]);
      if !AllSpace(head) {
        var rest :| Placed(text, NonBlank(tail), from, rest);
        OccursMeans(text, head, at[0]);
        PlacedCons(text, head, NonBlank(tail), start, at[0], rest);
      }
    }
  }

  lemma StandTail(text: string, pieces: seq<string>, start: nat, at: seq<nat>, from: nat)
    requires pieces != [] && Stand(text, pieces, start, at)
    requires from == if AllSpace(pieces[0]) then start else at[0] + |pieces[0]|
    ensures Stand(text, pieces[1..], from, at[1..])
  {
    var tail, later := pieces[1..], at[1..];
    forall i | 0 <= i < |tail| && !AllSpace(tail[i]) ensures from <= later[i] && ReadsAt(text, tail[i], later[i]) {
      assert tail[i] == pieces[i + 1] && later[i] == at[i + 1];
    }
    forall i, j | 0 <= i < j < |tail| && !AllSpace(tail[i]) && !AllSpace(tail[j])
      ensures later[i] + |tail[i]| <= later[j]
    {
      assert tail[i] == pieces[i + 1] && tail[j] == pieces[j + 1];
    }
  }

  lemma {:induction false} PlacedStand(text: string, pieces: seq<string>, start: nat, at: seq<nat>)
      returns (places: seq<nat>)
    requires Placed(text, NonBlank(pieces), start, at)
    ensures Stand(text, pieces, start, places)
    decreases |pieces|
  {
    if pieces == [] { return []; }
    var head, tail := pieces[0], pieces[1..];
    BlankMeans(head);
    if AllSpace(head) {
      var rest := PlacedStand(text, tail, start, at);
      places := [0] + rest;
      StandCons(text, pieces, start, start, 0, rest);
    } else {
      PlacedTail(text, head, NonBlank(tail), start, at);
      OccursMeans(text, head, at[0]);
      var rest := PlacedStand(text, tail, at[0] + |head|, at[1..]);
      places := [at[0]] + rest;
      StandCons(text, pieces, start, at[0] + |head|, at[0], rest);
    }
  }

  lemma PlacedTail(text: string, head: string, tail: seq<string>, start: nat, at: seq<nat>)
    requires Placed(text, [head] + tail, start, at)
    ensures start <= at[0] && OccursAt(text, head, at[0]) && Placed(text, tail, at[0] + |head|, at[1..])
  {
    var parts, later := [head] + tail, at[1..];
    assert parts[0] == head;
    forall i | 0 <= i < |later|
      ensures OccursAt(text, tail[i], later[i]) && at[0] + |head| <= later[i]
    {
      assert tail[i] == parts[i + 1] && later[i] == at[i + 1];
      assert at[0] + |parts[0]| <= at[i + 1];
    }
    forall i, j | 0 <= i < j < |later| ensures later[i] + |tail[i]| <= later[j] {
      assert tail[i] == parts[i + 1];
      assert at[i + 1] + |parts[i + 1]| <= at[j + 1];
    }
  }

  lemma StandCons(text: string, pieces: seq<string>, start: nat, from: nat, place: nat, rest: seq<nat>)
    requires pieces != [] && Stand(text, pieces[1..], from, rest) && start <= from
    requires !AllSpace(pieces[0]) ==>
               start <= place && ReadsAt(text, pieces[0], place) && from == place + |pieces[0]|
    ensures Stand(text, pieces, start, [place] + rest)
  {
    var tail, at := pieces[1..], [place] + rest;
    forall i | 0 <= i < |pieces| && !AllSpace(pieces[i]) ensures start <= at[i] && ReadsAt(text, pieces[i], at[i]) {
      if i > 0 { assert pieces[i] == tail[i - 1] && at[i] == rest[i - 1]; }
    }
    forall i, j | 0 <= i < j < |pieces| && !AllSpace(pieces[i]) && !AllSpace(pieces[j])
      ensures at[i] + |pieces[i]| <= at[j]
    {
      assert pieces[j] == tail[j - 1] && at[j] == rest[j - 1];
      if i > 0 { assert pieces[i] == tail[i - 1] && at[i] == rest[i - 1]; }
    }
  }

  /** A document holds a passage with a span when the text there has the passage's digest, and one without
      when the passage's paragraphs, cut at its breaks, stand in the document in order. */
  lemma HoldsExactly(digest: Digest, text: string, p: Passage)
    requires p.Valid(digest)
    ensures Holds(digest, text, p) <==>
            if p.span.Some? then
              var (start, end) := p.span.value;
              end <= |text| && digest(text[start..end]) == p.contentHash
            else exists pieces, at :: IsCut(p.text, pieces) && Stand(text, pieces, 0, at)
  {
    SplitIsUnique(p.text, Split(p.text));
    if p.span.None? {
      if at :| Placed(text, Paragraphs(p.text), 0, at) {
        var places := PlacedStand(text, Split(p.text), 0, at);
      }
      if pieces, at :| IsCut(p.text, pieces) && Stand(text, pieces, 0, at) {
        SplitIsUnique(p.text, pieces);
        StandingIsPlaced(text, pieces, 0, at);
      }
    }
  }
}

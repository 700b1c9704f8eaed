/** Batches: an NDJSON body cut into numbered lines, and one result for every line. */
module Ndjson {
  import opened Wrappers
  import opened Submissions
  import opened Texts

  const LF: Byte := 10
  const CR: Byte := 13
  const MAX_BATCH_LINES := 10_000
  const MAX_BATCH_BYTES := 67_108_864

  // --- lines ------------------------------------------------------------------------------------

  /** `data.find(b"\n", start)`, or the end of the body. */
  function LineEnd(data: Bytes, start: nat): (end: nat)
    requires start <= |data|
    ensures start <= end <= |data|
    decreases |data| - start
  {
    if start == |data| || data[start] == LF then start else LineEnd(data, start + 1)
  }

  lemma {:induction false} LineEndsAtFeed(data: Bytes, start: nat)
    requires start <= |data|
    ensures LF !in data[start..LineEnd(data, start)]
    ensures LineEnd(data, start) < |data| ==> data[LineEnd(data, start)] == LF
    decreases |data| - start
  {
    if start < |data| && data[start] != LF {
      LineEndsAtFeed(data, start + 1);
      var end := LineEnd(data, start + 1);
      assert data[start..end] == [data[start]] + data[start + 1..end];
    }
  }

  /** The body from `start`, cut at every line feed. */
  function CutFrom(data: Bytes, start: nat): (r: seq<Bytes>)
    requires start <= |data|
    ensures r != []
    decreases |data| - start
  {
    var end := LineEnd(data, start);
    [data[start..end]] + if end < |data| then CutFrom(data, end + 1) else []
  }

  function Cut(data: Bytes): (r: seq<Bytes>)
    ensures r != []
  {
    CutFrom(data, 0)
  }

  function Glue(pieces: seq<Bytes>): Bytes
    requires pieces != []
  {
    if |pieces| == 1 then pieces[0] else pieces[0] + [10] + Glue(pieces[1..])
  }

  ghost predicate NoFeeds(pieces: seq<Bytes>) { forall i :: 0 <= i < |pieces| ==> 10 !in pieces[i] }

  /** The cut is the one way to write the body as pieces without line feeds, joined by line feeds. */
  lemma CutIsUnique(data: Bytes, pieces: seq<Bytes>)
    requires pieces != []
    ensures pieces == Cut(data) <==> NoFeeds(pieces) && Glue(pieces) == data
  {
    CutGlues(data);
    if NoFeeds(pieces) && Glue(pieces) == data { GlueIsInjective(pieces, Cut(data)); }
  }

  lemma CutGlues(data: Bytes)
    ensures NoFeeds(Cut(data)) && Glue(Cut(data)) == data
  {
    var starts := PieceStarts(data, 0);
    PiecesGlue(data, Cut(data), starts, 0);
    assert data[0..] == data && Cut(data)[0..] == Cut(data);
  }

  lemma {:induction false} PiecesGlue(data: Bytes, pieces: seq<Bytes>, starts: seq<nat>, k: nat)
    requires StartsAt(data, pieces, starts) && k < |pieces|
    ensures NoFeeds(pieces[k..]) && Glue(pieces[k..]) == data[starts[k]..]
    decreases |pieces| - k
  {
    var start, end := starts[k], LineEnd(data, starts[k]);
    assert PieceAt(data, pieces[k], starts[k], starts[k + 1]);
    LineEndsAtFeed(data, start);
    if k + 1 < |pieces| {
      PiecesGlue(data, pieces, starts, k + 1);
      GlueStep(data, start, end, pieces[k + 1..]);
      assert pieces[k..] == [pieces[k]] + pieces[k + 1..];
    } else {
      assert data[start..end] == data[start..];
      assert pieces[k..] == [pieces[k]];
    }
  }

  /** Where each piece starts; the last start is past the end. */
  ghost predicate StartsAt(data: Bytes, pieces: seq<Bytes>, starts: seq<nat>) {
    && |starts| == |pieces| + 1 && starts[|pieces|] == |data| + 1
    && (forall k :: 0 <= k < |pieces| ==> starts[k] <= |data|)
    && (forall k :: 0 <= k < |pieces| ==> PieceAt(data, pieces[k], starts[k], starts[k + 1]))
  }

  lemma {:induction false} PieceStarts(data: Bytes, start: nat) returns (starts: seq<nat>)
    requires start <= |data|
    ensures StartsAt(data, CutFrom(data, start), starts) && starts[0] == start
    decreases |data| - start
  {
    if LineEnd(data, start) < |data| {
      var rest := PieceStarts(data, LineEnd(data, start) + 1);
      starts := [start] + rest;
      MorePieceStarts(data, start, rest);
    } else {
      starts := [start, |data| + 1];
      LastPieceStarts(data, start);
    }
  }

  lemma MorePieceStarts(data: Bytes, start: nat, rest: seq<nat>)
    requires start <= |data| && LineEnd(data, start) < |data|
    requires StartsAt(data, CutFrom(data, LineEnd(data, start) + 1), rest) && rest[0] == LineEnd(data, start) + 1
    ensures StartsAt(data, CutFrom(data, start), [start] + rest)
  {
    CutFromUnfolds(data, start);
    StartsCons(data, start, CutFrom(data, LineEnd(data, start) + 1), rest);
  }

  lemma LastPieceStarts(data: Bytes, start: nat)
    requires start <= |data| && LineEnd(data, start) == |data|
    ensures StartsAt(data, CutFrom(data, start), [start, |data| + 1])
  {
    CutFromUnfolds(data, start);
    assert data[start..|data|] == data[start..];
  }

  /** A piece found at a start, and where the next one starts. */
  predicate PieceAt(data: Bytes, piece: Bytes, start: nat, next: nat) {
    start <= |data| && next == LineEnd(data, start) + 1 && piece == data[start..LineEnd(data, start)]
  }

  lemma StartsCons(data: Bytes, start: nat, pieces: seq<Bytes>, starts: seq<nat>)
    requires start <= |data| && StartsAt(data, pieces, starts) && starts[0] == LineEnd(data, start) + 1
    ensures StartsAt(data, [data[start..LineEnd(data, start)]] + pieces, [start] + starts)
  {
    var ps, ss := [data[start..LineEnd(data, start)]] + pieces, [start] + starts;
    forall k | 0 <= k < |ps| ensures PieceAt(data, ps[k], ss[k], ss[k + 1]) {
      if k == 0 {
        assert ss[0] == start && ss[1] == starts[0];
      } else {
        assert ps[k] == pieces[k - 1] && ss[k] == starts[k - 1] && ss[k + 1] == starts[k];
        assert PieceAt(data, pieces[k - 1], starts[k - 1], starts[k]);
      }
    }
  }

  lemma CutFromUnfolds(data: Bytes, start: nat)
    requires start <= |data|
    ensures var end := LineEnd(data, start);
            CutFrom(data, start) ==
            if end < |data| then [data[start..end]] + CutFrom(data, end + 1) else [data[start..]]
  {
    assert data[start..|data|] == data[start..];
    assert [data[start..]] + [] == [data[start..]];
  }

  lemma GlueStep(data: Bytes, start: nat, end: nat, rest: seq<Bytes>)
    requires start <= end < |data| && data[end] == LF && LF !in data[start..end]
    requires rest != [] && NoFeeds(rest) && Glue(rest) == data[end + 1..]
    ensures NoFeeds([data[start..end]] + rest) && Glue([data[start..end]] + rest) == data[start..]
  {
    GlueCons(data[start..end], rest);
    SplitAtFeed(data, start, end);
  }

  lemma SplitAtFeed(data: Bytes, start: nat, end: nat)
    requires start <= end < |data| && data[end] == LF
    ensures data[start..end] + [LF] + data[end + 1..] == data[start..]
  {
  }

  lemma GlueCons(head: Bytes, rest: seq<Bytes>)
    requires rest != []
    ensures Glue([head] + rest) == head + [LF] + Glue(rest)
    ensures LF !in head && NoFeeds(rest) ==> NoFeeds([head] + rest)
  {
    assert ([head] + rest)[1..] == rest;
  }

  lemma {:induction false} GlueIsInjective(a: seq<Bytes>, b: seq<Bytes>)
    requires a != [] && b != [] && NoFeeds(a) && NoFeeds(b) && Glue(a) == Glue(b)
    ensures a == b
  {
    FirstFeed(a);
    FirstFeed(b);
    var data := Glue(a);
    assert |a[0]| == |b[0]|;
    assert a[0] == data[..|a[0]|] == b[0];
    if |a| > 1 {
      assert data[|a[0]| + 1..] == Glue(a[1..]);
      assert data[|b[0]| + 1..] == Glue(b[1..]);
      GlueIsInjective(a[1..], b[1..]);
      assert a == [a[0]] + a[1..] && b == [b[0]] + b[1..];
    }
  }

  /** The first piece ends at the first line feed of the body, or with it. */
  lemma FirstFeed(a: seq<Bytes>)
    requires a != [] && NoFeeds(a)
    ensures |a[0]| <= |Glue(a)| && Glue(a)[..|a[0]|] == a[0]
    ensures |a| == 1 <==> |a[0]| == |Glue(a)|
    ensures |a| > 1 ==> Glue(a)[|a[0]|] == LF && Glue(a)[|a[0]| + 1..] == Glue(a[1..])
    ensures forall i :: 0 <= i < |a[0]| ==> Glue(a)[i] != LF
  {
    forall i | 0 <= i < |a[0]| ensures Glue(a)[i] != LF { assert a[0][i] in a[0]; }
  }

  /** A line without the carriage return it may end in. */
  function Chop(line: Bytes): Bytes {
    if line != [] && line[|line| - 1] == CR then line[..|line| - 1] else line
  }

  predicate IsSpaceByte(b: Byte) { b == 32 || 9 <= b <= 13 }

  predicate IsBlankLine(line: Bytes) { line == [] || (IsSpaceByte(line[0]) && IsBlankLine(line[1..])) }

  /** What a piece holds: chopped, unless it is blank. */
  function Content(piece: Bytes): Option<Bytes> {
    if IsBlankLine(Chop(piece)) then None else Some(Chop(piece))
  }

  /** The items kept, each under its 1-based position. */
  function Numbered<T>(items: seq<T>, keep: T -> Option<T>): seq<(nat, T)> {
    if items == [] then []
    else
      var n := |items| - 1;
      Numbered(items[..n], keep) + if keep(items[n]).Some? then [(n + 1, keep(items[n]).value)] else []
  }

  type Line = (nat, Bytes)

  function Lines(data: Bytes): seq<Line> { Numbered(Cut(data), Content) }

  /** Exactly the kept items are there, each under its position. */
  lemma {:induction false} NumberedMeaning<T>(items: seq<T>, keep: T -> Option<T>, n: nat, x: T)
    ensures (n, x) in Numbered(items, keep) <==> 1 <= n <= |items| && keep(items[n - 1]) == Some(x)
  {
    if items != [] { NumberedMeaning(items[..|items| - 1], keep, n, x); }
  }

  lemma {:induction false} NumberedIncreases<T>(items: seq<T>, keep: T -> Option<T>)
    ensures forall i :: 0 <= i < |Numbered(items, keep)| ==> Numbered(items, keep)[i].0 <= |items|
    ensures forall i, j :: 0 <= i < j < |Numbered(items, keep)| ==>
              Numbered(items, keep)[i].0 < Numbered(items, keep)[j].0
  {
    if items != [] { NumberedIncreases(items[..|items| - 1], keep); }
  }

  lemma {:induction false} NumberedGrows<T>(items: seq<T>, keep: T -> Option<T>, k: nat)
    requires k <= |items|
    ensures |Numbered(items[..k], keep)| <= |Numbered(items, keep)|
  {
    if k == |items| {
      assert items[..k] == items;
    } else {
      var init := items[..|items| - 1];
      NumberedGrows(init, keep, k);
      assert init[..k] == items[..k];
    }
  }

  lemma NumberedNext<T>(items: seq<T>, keep: T -> Option<T>, k: nat)
    requires k < |items|
    ensures Numbered(items[..k + 1], keep) ==
            Numbered(items[..k], keep) + if keep(items[k]).Some? then [(k + 1, keep(items[k]).value)] else []
  {
    assert items[..k + 1][..k] == items[..k];
  }

  /** A body's lines are its non-blank pieces, chopped, under their 1-based positions, in order. */
  lemma LinesMeaning(data: Bytes, n: nat, line: Bytes)
    ensures (n, line) in Lines(data) <==> 1 <= n <= |Cut(data)| && line == Chop(Cut(data)[n - 1]) && !IsBlankLine(line)
    ensures forall i, j :: 0 <= i < j < |Lines(data)| ==> Lines(data)[i].0 < Lines(data)[j].0
  {
    NumberedMeaning(Cut(data), Content, n, line);
    NumberedIncreases(Cut(data), Content);
  }

  datatype BatchError = BodyTooLarge | BatchTooLarge | BatchEmpty | NotAllowed

  /** Reads the body feed by feed, counting every piece and keeping those that hold something; refuses
      once more are kept than a batch may hold. */
  method NdjsonLines(data: Bytes) returns (r: Result<seq<Line>, BatchError>)
    ensures r == if |Lines(data)| > MAX_BATCH_LINES then Err(BatchTooLarge) else Ok(Lines(data))
  {
    ghost var pieces := Cut(data);
    ghost var starts := PieceStarts(data, 0);
    var lines: seq<Line> := [];
    var start, number: nat := 0, 0;
    while start <= |data|
      invariant number <= |pieces| && start == starts[number]
      invariant lines == Numbered(pieces[..number], Content) && |lines| <= MAX_BATCH_LINES
      decreases |data| + 1 - start
    {
      assert PieceAt(data, pieces[number], starts[number], starts[number + 1]);
      NumberedNext(pieces, Content, number);
      NumberedGrows(pieces, Content, number + 1);
      var end := LineEnd(data, start);
      number := number + 1;
      var line := Chop(data[start..end]);
      if !IsBlankLine(line) {
        lines := lines + [(number, line)];
        if |lines| > MAX_BATCH_LINES { return Err(BatchTooLarge); }
      }
      start := end + 1;
    }
    assert pieces[..number] == pieces;
    return Ok(lines);
  }

  // --- a client's body --------------------------------------------------------------------------

  /** A client's batch body: every line and a line feed after it. */
  function Body(lines: seq<Bytes>): Bytes {
    if lines == [] then [] else lines[0] + [10] + Body(lines[1..])
  }

  /** A line the batch format can carry: no line feed in it, not blank, no carriage return at its end. */
  predicate Sendable(line: Bytes) { 10 !in line && !IsBlankLine(line) && line[|line| - 1] != 13 }

  function Enumerated<T>(items: seq<T>): seq<(nat, T)> {
    seq(|items|, i requires 0 <= i < |items| => (i + 1, items[i]))
  }

  lemma {:induction false} BodyGlues(lines: seq<Bytes>)
    ensures Body(lines) == Glue(lines + [[]])
  {
    if lines != [] {
      BodyGlues(lines[1..]);
      assert (lines + [[]])[1..] == lines[1..] + [[]];
    }
  }

  lemma {:induction false} AllKept<T>(items: seq<T>, keep: T -> Option<T>)
    requires forall i :: 0 <= i < |items| ==> keep(items[i]) == Some(items[i])
    ensures Numbered(items, keep) == Enumerated(items)
  {
    if items != [] {
      var n := |items| - 1;
      AllKept(items[..n], keep);
      assert Enumerated(items) == Enumerated(items[..n]) + [(n + 1, items[n])];
    }
  }

  lemma LastDropped<T>(items: seq<T>, last: T, keep: T -> Option<T>)
    requires keep(last) == None
    ensures Numbered(items + [last], keep) == Numbered(items, keep)
  {
    assert (items + [last])[..|items|] == items;
  }

  lemma {:induction false} KeptInPlace<T>(items: seq<T>, sent: seq<T>, keep: T -> Option<T>, i: nat)
    requires Numbered(items, keep) == Enumerated(sent) && i < |sent|
    ensures i < |items| && keep(items[i]) == Some(sent[i])
  {
    assert Enumerated(sent)[i] == (i + 1, sent[i]);
    NumberedMeaning(items, keep, i + 1, sent[i]);
  }

  /** A body parses back to its lines, numbered from 1, exactly when each line can be carried. */
  lemma BodyParsesBack(lines: seq<Bytes>)
    ensures Lines(Body(lines)) == Enumerated(lines) <==> forall i :: 0 <= i < |lines| ==> Sendable(lines[i])
  {
    if forall i :: 0 <= i < |lines| ==> Sendable(lines[i]) { SentIsParsed(lines); }
    if Lines(Body(lines)) == Enumerated(lines) { ParsedIsSendable(lines); }
  }

  lemma SentIsParsed(lines: seq<Bytes>)
    requires forall i :: 0 <= i < |lines| ==> Sendable(lines[i])
    ensures Lines(Body(lines)) == Enumerated(lines)
  {
    BodyCuts(lines);
    forall i | 0 <= i < |lines| ensures Content(lines[i]) == Some(lines[i]) { SendableIsContent(lines[i]); }
    AllKept(lines, Content);
    LastDropped(lines, [], Content);
  }

  lemma BodyCuts(lines: seq<Bytes>)
    requires forall i :: 0 <= i < |lines| ==> LF !in lines[i]
    ensures Cut(Body(lines)) == lines + [[]]
  {
    var pieces := lines + [[]];
    BodyGlues(lines);
    assert NoFeeds(pieces) && pieces != [];
    CutIsUnique(Body(lines), pieces);
  }

  lemma ParsedIsSendable(lines: seq<Bytes>)
    requires Lines(Body(lines)) == Enumerated(lines)
    ensures forall i :: 0 <= i < |lines| ==> Sendable(lines[i])
  {
    var pieces := Cut(Body(lines));
    CutGlues(Body(lines));
    forall i | 0 <= i < |lines| ensures LF !in lines[i] {
      KeptInPlace(pieces, lines, Content, i);
      ContentIsClean(pieces[i]);
    }
    BodyCuts(lines);
    forall i | 0 <= i < |lines| ensures Sendable(lines[i]) {
      KeptInPlace(pieces, lines, Content, i);
      SendableIsContent(lines[i]);
    }
  }

  lemma ContentIsClean(piece: Bytes)
    requires LF !in piece
    ensures Content(piece).Some? ==> LF !in Content(piece).value
  {
  }

  /** Such a line is its own content. */
  lemma SendableIsContent(line: Bytes)
    ensures LF !in line ==> (Sendable(line) <==> Content(line) == Some(line))
  {
  }

  // --- recording a batch ------------------------------------------------------------------------

  datatype LineResult<+B> = Recorded(line: nat, bundle: B) | Rejected(line: nat, code: string)

  datatype BatchResult<+B> = BatchResult(recorded: nat, rejected: nat, results: seq<LineResult<B>>)

  type Parser = Bytes -> Result<Submission, string>

  /** Deciding one line's submission. Each call is a decision of its own: two lines alike are decided
      under different ids, so the line's number matters. */
  type Decider<!B> = (nat, Submission) -> Result<B, string>

  /** What becomes of one line, on its own. */
  function Outcome<B>(parse: Parser, decide: Decider<B>, line: Line): LineResult<B> {
    var s := parse(line.1);
    if s.Err? then Rejected(line.0, s.error)
    else if !s.value.mode.Record? then Rejected(line.0, "BATCH_RECORD_ONLY")
    else
      var b := decide(line.0, s.value);
      if b.Err? then Rejected(line.0, b.error) else Recorded(line.0, b.value)
  }

  function Outcomes<B>(parse: Parser, decide: Decider<B>, lines: seq<Line>): seq<LineResult<B>> {
    seq(|lines|, i requires 0 <= i < |lines| => Outcome(parse, decide, lines[i]))
  }

  function BundlesOf<B>(results: seq<LineResult<B>>): seq<B> {
    if results == [] then []
    else
      var last := results[|results| - 1];
      BundlesOf(results[..|results| - 1]) + if last.Recorded? then [last.bundle] else []
  }

  predicate Allowed(parse: Parser, allowed: Submission -> bool, line: Line) {
    parse(line.1).Ok? ==> allowed(parse(line.1).value)
  }

  /** What a batch comes to. */
  function Batch<B>(parse: Parser, allowed: Submission -> bool, decide: Decider<B>,
                    data: Bytes): Result<seq<LineResult<B>>, BatchError> {
    if |data| > MAX_BATCH_BYTES then Err(BodyTooLarge)
    else if |Lines(data)| > MAX_BATCH_LINES then Err(BatchTooLarge)
    else if Lines(data) == [] then Err(BatchEmpty)
    else if exists i :: 0 <= i < |Lines(data)| && !Allowed(parse, allowed, Lines(data)[i]) then Err(NotAllowed)
    else Ok(Outcomes(parse, decide, Lines(data)))
  }

  /** Record every line of a batch: the lines are decided concurrently, in any order, and yet each has
      exactly one result, in line order, and the recorded bundles are written in line order. */
  method RecordBatch<B>(parse: Parser, allowed: Submission -> bool, decide: Decider<B>, data: Bytes)
    returns (r: Result<BatchResult<B>, BatchError>, written: seq<B>)
    ensures r.Err? <==> Batch(parse, allowed, decide, data).Err?
    ensures r.Err? ==> r.error == Batch(parse, allowed, decide, data).error && written == []
    ensures r.Ok? ==>
              && r.value.results == Batch(parse, allowed, decide, data).value
              && written == BundlesOf(r.value.results)
              && r.value.recorded == |written|
              && r.value.recorded + r.value.rejected == |r.value.results| == |Lines(data)|
  {
    if |data| > MAX_BATCH_BYTES { return Err(BodyTooLarge), []; }
    var numbered := NdjsonLines(data);
    if numbered.Err? { return Err(numbered.error), []; }
    var lines := numbered.value;
    if lines == [] { return Err(BatchEmpty), []; }
    NumberedIncreases(Cut(data), Content);
    var parsed, results := ParseLines<B>(parse, lines, decide);
    for i := 0 to |lines|
      invariant forall n :: 0 <= n < i ==> Allowed(parse, allowed, lines[n])
    {
      if i in parsed && !allowed(parse(lines[i].1).value) { return Err(NotAllowed), []; }
    }
    var decided: map<nat, B>;
    results, decided := DecideLines(parse, decide, lines, parsed, results);
    var ordered: seq<LineResult<B>>;
    ordered, written := Collect(parse, decide, lines, results, decided);
    r := Ok(BatchResult(|written|, |lines| - |written|, ordered));
  }

  ghost predicate DistinctNumbers(lines: seq<Line>) {
    forall i, j :: 0 <= i < j < |lines| ==> lines[i].0 != lines[j].0
  }

  /** Every line but the pending ones has its result, under its number. */
  ghost predicate ResultsFor<B>(parse: Parser, decide: Decider<B>, lines: seq<Line>, pending: set<nat>,
                                results: map<nat, LineResult<B>>) {
    forall i :: 0 <= i < |lines| && i !in pending ==>
      lines[i].0 in results && results[lines[i].0] == Outcome(parse, decide, lines[i])
  }

  /** The pending lines parsed. */
  ghost predicate Pending(parse: Parser, lines: seq<Line>, pending: set<nat>) {
    forall i :: i in pending ==> 0 <= i < |lines| && parse(lines[i].1).Ok?
  }

  method ParseLines<B>(parse: Parser, lines: seq<Line>, ghost decide: Decider<B>)
    returns (parsed: set<nat>, results: map<nat, LineResult<B>>)
    requires DistinctNumbers(lines)
    ensures Pending(parse, lines, parsed) && ResultsFor(parse, decide, lines, parsed, results)
    ensures forall i :: 0 <= i < |lines| && parse(lines[i].1).Ok? ==> i in parsed
  {
    results, parsed := map[], {};
    for i := 0 to |lines|
      invariant forall n :: n in parsed <==> 0 <= n < i && parse(lines[n].1).Ok?
      invariant ResultsFor(parse, decide, lines[..i], parsed, results)
    {
      assert lines[..i + 1] == lines[..i] + [lines[i]];
      var s := parse(lines[i].1);
      if s.Err? {
        results := results[lines[i].0 := Rejected(lines[i].0, s.error)];
      } else {
        parsed := parsed + {i};
      }
    }
    assert lines[..|lines|] == lines;
  }

  /** Decide the parsed lines, in any order. */
  method DecideLines<B>(parse: Parser, decide: Decider<B>, lines: seq<Line>, parsed: set<nat>,
                        rejected: map<nat, LineResult<B>>)
    returns (results: map<nat, LineResult<B>>, decided: map<nat, B>)
    requires DistinctNumbers(lines) && Pending(parse, lines, parsed) &&
             ResultsFor(parse, decide, lines, parsed, rejected)
    requires forall i :: 0 <= i < |lines| && parse(lines[i].1).Ok? ==> i in parsed
    ensures ResultsFor(parse, decide, lines, {}, results)
    ensures Bundled(parse, decide, lines, {}, decided)
  {
    var pending := parsed;
    results, decided := rejected, map[];
    while pending != {}
      invariant pending <= parsed && ResultsFor(parse, decide, lines, pending, results)
      invariant Bundled(parse, decide, lines, pending, decided)
      decreases |pending|
    {
      var i :| i in pending;
      var s, number := parse(lines[i].1).value, lines[i].0;
      if !s.mode.Record? {
        results := results[number := Rejected(number, "BATCH_RECORD_ONLY")];
      } else {
        var b := decide(number, s);
        if b.Err? {
          results := results[number := Rejected(number, b.error)];
        } else {
          decided := decided[number := b.value];
          results := results[number := Recorded(number, b.value)];
        }
      }
      pending := pending - {i};
    }
  }

  /** The bundles decided are those of the recorded lines, under their numbers. */
  ghost predicate Bundled<B>(parse: Parser, decide: Decider<B>, lines: seq<Line>, pending: set<nat>,
                             decided: map<nat, B>) {
    forall i :: 0 <= i < |lines| ==>
      var o := Outcome(parse, decide, lines[i]);
      && (lines[i].0 in decided <==> i !in pending && o.Recorded?)
      && (lines[i].0 in decided && o.Recorded? ==> decided[lines[i].0] == o.bundle)
  }

  lemma LineIsDone<B>(parse: Parser, decide: Decider<B>, lines: seq<Line>, results: map<nat, LineResult<B>>,
                      decided: map<nat, B>, i: nat)
    requires i < |lines|
    requires ResultsFor(parse, decide, lines, {}, results) && Bundled(parse, decide, lines, {}, decided)
    ensures lines[i].0 in results && results[lines[i].0] == Outcome(parse, decide, lines[i])
    ensures lines[i].0 in decided <==> Outcome(parse, decide, lines[i]).Recorded?
    ensures lines[i].0 in decided ==> decided[lines[i].0] == Outcome(parse, decide, lines[i]).bundle
  {
  }

  lemma CollectNext<B>(parse: Parser, decide: Decider<B>, lines: seq<Line>, i: nat)
    requires i < |lines|
    ensures var earlier, o := Outcomes(parse, decide, lines[..i]), Outcome(parse, decide, lines[i]);
            && Outcomes(parse, decide, lines[..i + 1]) == earlier + [o]
            && BundlesOf(earlier + [o]) == BundlesOf(earlier) + if o.Recorded? then [o.bundle] else []
  {
    var earlier, o := Outcomes(parse, decide, lines[..i]), Outcome(parse, decide, lines[i]);
    assert lines[..i + 1] == lines[..i] + [lines[i]];
    assert (earlier + [o])[..|earlier|] == earlier;
  }

  method Collect<B>(parse: Parser, decide: Decider<B>, lines: seq<Line>, results: map<nat, LineResult<B>>,
                    decided: map<nat, B>)
    returns (ordered: seq<LineResult<B>>, written: seq<B>)
    requires ResultsFor(parse, decide, lines, {}, results) && Bundled(parse, decide, lines, {}, decided)
    ensures ordered == Outcomes(parse, decide, lines)
    ensures written == BundlesOf(ordered) && |written| <= |lines|
  {
    ordered, written := [], [];
    for i := 0 to |lines|
      invariant ordered == Outcomes(parse, decide, lines[..i])
      invariant written == BundlesOf(ordered) && |written| <= i
    {
      LineIsDone(parse, decide, lines, results, decided, i);
      CollectNext(parse, decide, lines, i);
      var number := lines[i].0;
      ordered := ordered + [results[number]];
      if number in decided { written := written + [decided[number]]; }
    }
    assert lines[..|lines|] == lines;
  }
}

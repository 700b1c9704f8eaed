/** What a batch's lines and results are, byte by byte and line by line. */
module NdjsonLaws {
  import opened Wrappers
  import opened Submissions
  import opened Texts
  import opened Ndjson

  // --- lines ----------------------------------------------------------------------------------------

  /** Some byte is neither a space nor a tab, line feed, vertical tab, form feed or carriage return. */
  predicate HoldsSomething(line: Bytes) { exists i :: 0 <= i < |line| && line[i] !in {9, 10, 11, 12, 13, 32} }

  /** The piece without one carriage return at its end, holding something. */
  predicate IsLine(piece: Bytes, line: Bytes) {
    (piece == line + [13] || (piece == line && (line == [] || line[|line| - 1] != 13))) && HoldsSomething(line)
  }

  lemma {:induction false} BlankLineMeans(line: Bytes)
    ensures IsBlankLine(line) <==> !HoldsSomething(line)
  {
    if line != [] {
      BlankLineMeans(line[1..]);
      if i :| 0 <= i < |line| && line[i] !in {9, 10, 11, 12, 13, 32} {
        if i > 0 { assert line[1..][i - 1] == line[i]; }
      }
      if i :| 0 <= i < |line[1..]| && line[1..][i] !in {9, 10, 11, 12, 13, 32} {
        assert line[i + 1] !in {9, 10, 11, 12, 13, 32};
      }
    }
  }

  lemma ChoppedIsLine(piece: Bytes, line: Bytes)
    ensures IsLine(piece, line) <==> line == Chop(piece) && !IsBlankLine(line)
  {
    BlankLineMeans(line);
  }

  /** However a body is written as pieces without line feeds joined by line feeds, its lines are the
      pieces' lines, under their 1-based positions, in order. */
  lemma LinesExactly(data: Bytes, pieces: seq<Bytes>, n: nat, line: Bytes)
    requires pieces != [] && NoFeeds(pieces) && Glue(pieces) == data
    ensures (n, line) in Lines(data) <==> 1 <= n <= |pieces| && IsLine(pieces[n - 1], line)
    ensures forall i, j :: 0 <= i < j < |Lines(data)| ==> Lines(data)[i].0 < Lines(data)[j].0
  {
    CutIsUnique(data, pieces);
    LinesMeaning(data, n, line);
    if 1 <= n <= |pieces| { ChoppedIsLine(pieces[n - 1], line); }
  }

  // --- results ------------------------------------------------------------------------------------------

  /** One line's result: rejected as its parser or the decision rejects it, and as a gated submission;
      recorded otherwise; under the line's number. */
  ghost predicate IsResult<B>(parse: Parser, decide: Decider<B>, line: Line, result: LineResult<B>) {
    match parse(line.1)
    case Err(code) => result == Rejected(line.0, code)
    case Ok(s) =>
      if s.mode == Gate then result == Rejected(line.0, "BATCH_RECORD_ONLY")
      else match decide(line.0, s)
           case Err(code) => result == Rejected(line.0, code)
           case Ok(bundle) => result == Recorded(line.0, bundle)
  }

  /** Some line parses as a submission its sender may not make. */
  ghost predicate Forbidden(parse: Parser, allowed: Submission -> bool, lines: seq<Line>) {
    exists i, s :: 0 <= i < |lines| && parse(lines[i].1) == Ok(s) && !allowed(s)
  }

  /** A batch is refused as a whole for its size, its number of lines, having none, or a sender's line
      that is not allowed, in that order; otherwise each line has its result, in order. */
  lemma BatchExactly<B>(parse: Parser, allowed: Submission -> bool, decide: Decider<B>, data: Bytes)
    ensures var r, lines := Batch(parse, allowed, decide, data), Lines(data);
            if |data| > 64 * 1024 * 1024 then r == Err(BodyTooLarge)
            else if |lines| > 10_000 then r == Err(BatchTooLarge)
            else if lines == [] then r == Err(BatchEmpty)
            else if Forbidden(parse, allowed, lines) then r == Err(NotAllowed)
            else r.Ok? && |r.value| == |lines| &&
                 forall i :: 0 <= i < |lines| ==> IsResult(parse, decide, lines[i], r.value[i])
  {
    var lines := Lines(data);
    if i, s :| 0 <= i < |lines| && parse(lines[i].1) == Ok(s) && !allowed(s) {
      assert !Allowed(parse, allowed, lines[i]);
    }
    forall i | 0 <= i < |lines| && !Allowed(parse, allowed, lines[i]) ensures Forbidden(parse, allowed, lines) {
      assert parse(lines[i].1) == Ok(parse(lines[i].1).value);
    }
  }

  /** `at` lists, in order, the places of the recorded lines. */
  ghost predicate RecordedAt<B>(results: seq<LineResult<B>>, at: seq<nat>) {
    && (forall n :: 0 <= n < |at| ==> at[n] < |results| && results[at[n]].Recorded?)
    && (forall m, n :: 0 <= m < n < |at| ==> at[m] < at[n])
    && (forall i: nat :: i < |results| && results[i].Recorded? ==> i in at)
  }

  ghost predicate BundlesAt<B>(results: seq<LineResult<B>>, at: seq<nat>, bundles: seq<B>) {
    |bundles| == |at| &&
    forall n :: 0 <= n < |at| ==> at[n] < |results| && results[at[n]] == Recorded(results[at[n]].line, bundles[n])
  }

  /** The bundles written are those of the recorded lines, each once, in line order. */
  lemma {:induction false} WrittenInOrder<B>(results: seq<LineResult<B>>) returns (at: seq<nat>)
    ensures RecordedAt(results, at) && BundlesAt(results, at, BundlesOf(results))
  {
    if results == [] { return []; }
    var n := |results| - 1;
    var rest := WrittenInOrder(results[..n]);
    at := if results[n].Recorded? then rest + [n] else rest;
    RecordedExtend(results, rest, at);
    BundlesExtend(results, rest, at, BundlesOf(results[..n]), BundlesOf(results));
  }

  lemma RecordedExtend<B>(results: seq<LineResult<B>>, rest: seq<nat>, at: seq<nat>)
    requires results != [] && RecordedAt(results[..|results| - 1], rest)
    requires at == if results[|results| - 1].Recorded? then rest + [|results| - 1] else rest
    ensures RecordedAt(results, at)
  {
    var n := |results| - 1;
    forall i: nat | i < |results| && results[i].Recorded? ensures i in at {
      if i < n {
        assert results[..n][i] == results[i];
        assert i in rest;
      } else {
        assert at[|rest|] == n;
      }
    }
  }

  lemma BundlesExtend<B>(results: seq<LineResult<B>>, rest: seq<nat>, at: seq<nat>, earlier: seq<B>, bundles: seq<B>)
    requires results != [] && BundlesAt(results[..|results| - 1], rest, earlier)
    requires var last := results[|results| - 1];
             || (at == rest && bundles == earlier)
             || (last.Recorded? && at == rest + [|results| - 1] && bundles == earlier + [last.bundle])
    ensures BundlesAt(results, at, bundles)
  {
  }
}

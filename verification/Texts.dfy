/** Bytes, and strings as Python searches and splits them. */
module Texts {
  import opened Wrappers

  newtype Byte = b: int | 0 <= b < 256

  type Bytes = seq<Byte>

  predicate OccursAt(s: string, word: string, i: int) {
    0 <= i <= |s| - |word| && s[i..i + |word|] == word
  }

  lemma OccursMeans(s: string, word: string, i: int)
    ensures OccursAt(s, word, i) <==> 0 <= i <= |s| - |word| && forall k :: 0 <= k < |word| ==> s[i + k] == word[k]
  {
    if 0 <= i <= |s| - |word| {
      var part := s[i..i + |word|];
      assert forall k :: 0 <= k < |word| ==> part[k] == s[i + k];
    }
  }

  predicate Contains(s: string, word: string) {
    exists i :: 0 <= i <= |s| && OccursAt(s, word, i)
  }

  /** `s.find(word, start)`: the first occurrence at or after `start`. */
  function Find(s: string, word: string, start: nat): (r: Option<nat>)
    ensures r.Some? ==> start <= r.value && OccursAt(s, word, r.value)
    decreases |s| - start
  {
    if start + |word| > |s| then None
    else if OccursAt(s, word, start) then Some(start)
    else Find(s, word, start + 1)
  }

  lemma {:induction false} FindsFirst(s: string, word: string, start: nat)
    ensures var r := Find(s, word, start);
            forall i :: start <= i && (r.Some? ==> i < r.value) ==> !OccursAt(s, word, i)
    decreases |s| - start
  {
    if start + |word| <= |s| && !OccursAt(s, word, start) { FindsFirst(s, word, start + 1); }
  }

  function LowerChar(c: char): char { if 'A' <= c <= 'Z' then c - 'A' + 'a' else c }

  /** Lower case, as far as matching ASCII words needs it. */
  function Lower(s: string): string { seq(|s|, i requires 0 <= i < |s| => LowerChar(s[i])) }

  const PARAGRAPH_BREAK := "\n\n"

  /** `s.split("\n\n")`. */
  function Split(s: string): (r: seq<string>)
    ensures r != []
    decreases |s|
  {
    var i := Find(s, PARAGRAPH_BREAK, 0);
    if i.None? then [s] else [s[..i.value]] + Split(s[i.value + 2..])
  }

  /** What `str.strip` strips. */
  predicate IsSpace(c: char) {
    || '\t' <= c <= '\r' || '\U{1C}' <= c <= ' '
    || c == '\U{85}' || c == '\U{A0}' || c == '\U{1680}' || c == '\U{2028}' || c == '\U{2029}' || c == '\U{202F}'
    || c == '\U{205F}' || c == '\U{3000}'
    || '\U{2000}' <= c <= '\U{200A}'
  }

  predicate IsBlank(s: string) { s == "" || (IsSpace(s[0]) && IsBlank(s[1..])) }
}

/** The escrow's store: content kept once under its digest, and never removed. */
module Artifacts {
  import opened Wrappers
  import opened Texts
  import opened Passages

  /** SHA-256 of bytes, and UTF-8. */
  datatype Codec = Codec(sha: Bytes -> string, encode: string -> Bytes, decode: Bytes -> Option<string>)
  {
    function TextDigest(): Digest { (t: string) => sha(encode(t)) }

    ghost predicate Lawful() {
      (forall t :: decode(encode(t)) == Some(t)) && (forall b :: IsDigest(sha(b)))
    }

    ghost predicate Collide(a: Bytes, b: Bytes) { a != b && sha(a) == sha(b) }
  }

  /** 64 lower-case hexadecimal digits. */
  predicate IsDigest(s: string) {
    |s| == 64 && forall i :: 0 <= i < |s| ==> '0' <= s[i] <= '9' || 'a' <= s[i] <= 'f'
  }

  datatype Artifact = Artifact(mediaType: string, bytes: Bytes, firstDecision: string, firstGate: string)

  type ArtifactRows = map<string, Artifact>

  /** Every row is keyed by the digest of its bytes. */
  ghost predicate Addressed(codec: Codec, rows: ArtifactRows) {
    forall h :: h in rows ==> codec.sha(rows[h].bytes) == h
  }

  /** Rows are only ever added. */
  ghost predicate Grown(rows: ArtifactRows, later: ArtifactRows) {
    forall h :: h in rows ==> h in later && later[h] == rows[h]
  }

  class ArtifactStore {
    const codec: Codec
    const enabled: bool
    var rows: ArtifactRows

    constructor (codec: Codec, enabled: bool)
      ensures this.codec == codec && this.enabled == enabled && rows == map[]
    {
      this.codec, this.enabled, rows := codec, enabled, map[];
    }

    ghost predicate Valid() reads this { codec.Lawful() && Addressed(codec, rows) }

    /** Add a row unless the digest has one; None with escrow off, an error for a blank label. */
    method Put(content: Bytes, mediaType: string, decisionId: string, gateId: string)
        returns (r: Result<Option<string>, string>)
      requires Valid()
      modifies this
      ensures Valid() && Grown(old(rows), rows)
      ensures r.Err? <==> IsBlank(mediaType) || IsBlank(decisionId) || IsBlank(gateId)
      ensures r.Err? || !enabled ==> rows == old(rows)
      ensures r.Ok? && !enabled ==> r.value == None
      ensures r.Ok? && enabled ==>
                && r.value == Some(codec.sha(content))
                && rows == (if codec.sha(content) in old(rows) then old(rows)
                            else old(rows)[codec.sha(content) := Artifact(mediaType, content, decisionId, gateId)])
    {
      if IsBlank(mediaType) || IsBlank(decisionId) || IsBlank(gateId) { return Err("blank label"); }
      var digest := codec.sha(content);
      if !enabled { return Ok(None); }
      if digest !in rows {
        rows := rows[digest := Artifact(mediaType, content, decisionId, gateId)];
      }
      return Ok(Some(digest));
    }

    /** The escrowed bytes with a digest; a malformed one is answered without a look. */
    method Get(hash: string) returns (r: Option<Bytes>)
      requires Valid()
      ensures r == Lookup(rows, hash)
    {
      if !IsDigest(hash) {
        assert hash in rows ==> codec.sha(rows[hash].bytes) == hash;
        return None;
      }
      return if hash in rows then Some(rows[hash].bytes) else None;
    }

    /** Which of some digests the escrow holds. */
    method Held(hashes: set<string>) returns (r: set<string>)
      requires Valid()
      ensures r == hashes * rows.Keys
    {
      var wanted := set h | h in hashes && IsDigest(h);
      if wanted == {} {
        forall h | h in hashes * rows.Keys ensures h in wanted { assert codec.sha(rows[h].bytes) == h; }
        return {};
      }
      r := set h | h in wanted && h in rows;
      forall h | h in hashes * rows.Keys ensures h in r { assert codec.sha(rows[h].bytes) == h; }
    }
  }

  function Lookup(rows: ArtifactRows, hash: string): Option<Bytes> {
    if hash in rows then Some(rows[hash].bytes) else None
  }
}

/** The content-hash text used throughout the system: `sha256:` followed
    by the lowercase hex SHA-256 of the bytes (PHP `'sha256:' . hash('sha256',
    …)`, Rust `format!("sha256:{}", hex::encode(…))`). */
module Digests {
  import opened Wrappers
  import opened Numbers
  import opened Strings
  import Hex
  import opened Primitives

  const SHA256_PREFIX := "sha256:"

  function TaggedDigest(p: Suite, data: Bytes): (h: string)
    ensures StartsWith(h, SHA256_PREFIX)
    ensures Hex.AllLowerHex(h[|SHA256_PREFIX|..])
    ensures Hex.Decode(h[|SHA256_PREFIX|..]) == Some(p.sha256(data))
  {
    Hex.DecodeEncode(p.sha256(data));
    var h := SHA256_PREFIX + Hex.Encode(p.sha256(data));
    assert h[|SHA256_PREFIX|..] == Hex.Encode(p.sha256(data));
    h
  }

  /** With a 32-byte digest the text is 71 characters: the prefix and 64
      hex digits. */
  lemma TaggedDigestLength(p: Suite, data: Bytes)
    requires Sound(p)
    ensures |TaggedDigest(p, data)| == |SHA256_PREFIX| + 64
  {
    Hex.DecodeEncode(p.sha256(data));
  }

  /** Two byte strings have the same tagged digest only if their digests are
      equal. */
  lemma TaggedDigestInjective(p: Suite, a: Bytes, b: Bytes)
    requires TaggedDigest(p, a) == TaggedDigest(p, b)
    ensures p.sha256(a) == p.sha256(b)
  {
  }

  /** The buffer `compute_hash` and `compute_file_hash` read into. */
  const READ_BUFFER_SIZE := 8192

  /** The read loop of `compute_hash` / `compute_file_hash`: the content is
      read a buffer at a time until a read returns nothing, every chunk is
      fed to the hasher, and the digest of all that was fed is tagged.
      `fed` is the hasher's state: the bytes it has been given. */
  method HashInChunks(p: Suite, content: Bytes) returns (h: string)
    ensures h == TaggedDigest(p, content)
  {
    var fed: Bytes := [];
    var pos := 0;
    while true
      invariant 0 <= pos <= |content|
      invariant fed == content[..pos]
      decreases |content| - pos
    {
      var bytesRead := if |content| - pos < READ_BUFFER_SIZE then |content| - pos else READ_BUFFER_SIZE;
      if bytesRead == 0 {
        break;
      }
      fed := fed + content[pos..pos + bytesRead];
      pos := pos + bytesRead;
    }
    assert fed == content;
    h := SHA256_PREFIX + Hex.Encode(p.sha256(fed));
  }
}

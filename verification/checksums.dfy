/** Checksums of downloaded files: the first 12 characters of the SHA-256 hex
    digest of a file's bytes, and the syntactic check a manifest's checksums
    must pass.

    SHA-256 itself is a parameter: a `Digest` maps the bytes a hasher has
    absorbed to its hex digest. Feeding the hasher chunk by chunk absorbs the
    concatenation of the chunks.
 */
module Checksums {
  import opened Files

  const CHECKSUM_LENGTH: nat := 12
  const CHUNK_SIZE: nat := 4096

  /** `c in string.hexdigits`: "0123456789abcdefABCDEF". */
  predicate IsHexDigit(c: char) {
    ('0' <= c <= '9') || ('a' <= c <= 'f') || ('A' <= c <= 'F')
  }

  predicate AllHex(s: string) {
    forall i :: 0 <= i < |s| ==> IsHexDigit(s[i])
  }

  /** `valid_checksum(hash)`. */
  predicate ValidChecksum(h: string) {
    |h| == CHECKSUM_LENGTH && AllHex(h)
  }

  /** The hash function, from absorbed bytes to hex digest. */
  type Digest = seq<byte> -> string

  /** What `hashlib.sha256().hexdigest()` always returns: 64 lower-case hex digits. */
  ghost predicate IsHexDigest(digest: Digest) {
    forall data :: |digest(data)| == 64 && AllHex(digest(data))
  }

  /** `s[:n]`. */
  function Take(s: string, n: nat): (r: string)
    ensures |r| == if |s| < n then |s| else n
    ensures r == s[..|r|]
  {
    if |s| < n then s else s[..n]
  }

  /** `generate_checksum(path)` for a file holding `content`: the hasher absorbs
      the file 4096 bytes at a time and the result is the first 12 characters of
      the digest. */
  method GenerateChecksum(content: seq<byte>, digest: Digest) returns (h: string)
    ensures h == Take(digest(content), CHECKSUM_LENGTH)
  {
    var absorbed: seq<byte> := [];
    var pos := 0;
    while pos < |content|
      invariant 0 <= pos <= |content|
      invariant absorbed == content[..pos]
      decreases |content| - pos
    {
      var end := if pos + CHUNK_SIZE < |content| then pos + CHUNK_SIZE else |content|;
      var block := content[pos..end];
      absorbed := absorbed + block;
      assert content[..end] == content[..pos] + content[pos..end];
      pos := end;
    }
    assert content[..pos] == content;
    h := Take(digest(absorbed), CHECKSUM_LENGTH);
  }

  /** The checksum as a function of the file contents alone. */
  function Checksum(content: seq<byte>, digest: Digest): string {
    Take(digest(content), CHECKSUM_LENGTH)
  }

  /** `matches_checksum(path, hash)`. */
  predicate MatchesChecksum(content: seq<byte>, digest: Digest, h: string) {
    Checksum(content, digest) == h
  }

  /** A generated checksum is always a valid one when the digest is a SHA-256 hex
      digest. */
  lemma GeneratedChecksumValid(content: seq<byte>, digest: Digest)
    requires IsHexDigest(digest)
    ensures ValidChecksum(Checksum(content, digest))
  {
    var d := digest(content);
    assert |d| == 64 && AllHex(d);
    var h := Checksum(content, digest);
    forall i | 0 <= i < |h| ensures IsHexDigit(h[i]) {
      assert h[i] == d[i];
    }
  }

  /** A file matches its own checksum, but not a shortened one (the length
      differs) when the digest is a SHA-256 hex digest. */
  lemma MatchesOwnChecksum(content: seq<byte>, digest: Digest)
    requires IsHexDigest(digest)
    ensures MatchesChecksum(content, digest, Checksum(content, digest))
    ensures !MatchesChecksum(content, digest, Checksum(content, digest)[..CHECKSUM_LENGTH - 1])
  {
    GeneratedChecksumValid(content, digest);
  }

  /** Lengths other than 12 are rejected; at length 12 a single non-hex character
      is enough to reject. */
  lemma ValidChecksumRejects(h: string)
    ensures |h| != CHECKSUM_LENGTH ==> !ValidChecksum(h)
    ensures |h| == CHECKSUM_LENGTH && (exists i :: 0 <= i < |h| && !IsHexDigit(h[i])) ==> !ValidChecksum(h)
  {
  }

  /** Concrete cases: upper- and lower-case hex of length 12 passes; 11 and 17
      characters, and a 'g', fail. */
  lemma ValidChecksumExamples()
    ensures ValidChecksum("0123456789aB")
    ensures !ValidChecksum("0123456789a")
    ensures !ValidChecksum("0123456789abcdef0")
    ensures !ValidChecksum("0123456789ag")
  {
    assert !IsHexDigit("0123456789ag"[11]);
  }
}

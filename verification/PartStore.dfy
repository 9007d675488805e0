/** The content-addressed part files (src/storage/parts.rs). Digests are uninterpreted functions. */
module PartStore {
  import opened ByteStrings
  import opened Manifests

  /** A source of bytes that hands them out in pieces of any length; an empty piece means the end. */
  class Reader {
    var remaining: Bytes

    constructor (input: Bytes)
      ensures remaining == input
    {
      remaining := input;
    }

    method Read(buf: array<byte>) returns (n: nat)
      requires buf.Length > 0
      modifies this, buf
      ensures n <= buf.Length && n <= |old(remaining)|
      ensures n == 0 <==> old(remaining) == []
      ensures buf[..n] == old(remaining)[..n] && remaining == old(remaining)[n..]
    {
      if remaining == [] {
        return 0;
      }
      n :| 1 <= n <= buf.Length && n <= |remaining|;
      for i := 0 to n
        invariant remaining == old(remaining)
        invariant buf[..i] == remaining[..i]
      {
        buf[i] := remaining[i];
        assert buf[..i + 1] == buf[..i] + [remaining[i]];
      }
      remaining := remaining[n..];
    }
  }

  predicate NamedByContent(contentHash: Bytes -> Hash, files: map<Hash, Bytes>) {
    forall h :: h in files ==> contentHash(files[h]) == h
  }

  const BUFFER_SIZE: nat := 64 * 1024

  class Disk {
    const contentHash: Bytes -> Hash
    const md5: Bytes -> Bytes
    var files: map<Hash, Bytes>

    constructor (contentHash: Bytes -> Hash, md5: Bytes -> Bytes)
      ensures this.contentHash == contentHash && this.md5 == md5 && files == map[]
    {
      this.contentHash, this.md5, files := contentHash, md5, map[];
    }

    /** Every file's content hashes to its name. */
    predicate Addressed()
      reads this
    {
      NamedByContent(contentHash, files)
    }

    /** No other content has the same hash. */
    ghost predicate Unmatched(content: Bytes) {
      forall x :: contentHash(x) == contentHash(content) ==> x == content
    }

    /** However the reader splits its bytes, the result describes the whole input. Existing files
        stay as they are, and the stored content is the input unless hashes collide. */
    method WriteStream(reader: Reader) returns (hash: Hash, digest: Bytes, size: nat)
      modifies reader, this`files
      ensures var input := old(reader.remaining);
        && hash == contentHash(input) && digest == md5(input) && size == |input|
        && files == if hash in old(files) then old(files) else old(files)[hash := input]
      ensures hash in files && forall h :: h in old(files) ==> h in files && files[h] == old(files)[h]
      ensures old(Addressed()) ==> Addressed()
      ensures old(Addressed()) && Unmatched(old(reader.remaining)) ==> files[hash] == old(reader.remaining)
    {
      ghost var input := reader.remaining;
      var tmpFile, hashed, digested: Bytes := [], [], [];
      size := 0;
      var buf := new byte[BUFFER_SIZE](_ => 0);
      var n := 1;
      while n != 0
        invariant tmpFile == hashed == digested && size == |tmpFile|
        invariant input == tmpFile + reader.remaining
        invariant n == 0 ==> reader.remaining == []
        invariant fresh(buf) && files == old(files)
        decreases n != 0, |reader.remaining|
      {
        ghost var before := reader.remaining;
        n := reader.Read(buf);
        if n != 0 {
          var chunk := buf[..n];
          assert before == chunk + reader.remaining;
          tmpFile, hashed, digested := tmpFile + chunk, hashed + chunk, digested + chunk;
          size := size + n;
        }
      }
      assert tmpFile == input;
      hash, digest := contentHash(hashed), md5(digested);
      if hash !in files {
        files := files[hash := tmpFile];
      }
    }

    /** Unlink; a missing file is fine. The files in `stuck` cannot be unlinked at the moment. */
    method Delete(h: Hash, stuck: set<Hash>) returns (ok: bool)
      modifies this`files
      ensures ok <==> h !in stuck
      ensures files == if ok then old(files) - {h} else old(files)
      ensures old(Addressed()) ==> Addressed()
    {
      ok := h !in stuck;
      if ok {
        files := files - {h};
      }
    }
  }
}

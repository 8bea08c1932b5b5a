/**
 * `File.checksum()`: the file's bytes are streamed through an 8192-byte buffer into an
 * XXH3-64 digest, and the digest is rendered as ", "-joined two-digit hex. The XXH3
 * algorithm itself is a parameter: any function from the full byte sequence to an
 * eight-byte digest.
 */
module Checksums {

  import opened Wrappers
  import opened HexFormat
  import opened Fs

  /** The size of the read buffer, `ByteArray(8192)`. */
  const BufferSize: nat := 8192

  /** An XXH3-64 digest: eight bytes. */
  type Digest64 = s: seq<byte> | |s| == 8 witness [0, 0, 0, 0, 0, 0, 0, 0]

  /** The digest algorithm, as a function of every byte fed to it. */
  type Algorithm = seq<byte> -> Digest64

  /** The checksum string of some content. */
  function Fingerprint(algorithm: Algorithm, content: seq<byte>): (r: string)
    ensures |r| == 30
  {
    HexLength(algorithm(content));
    Hex(algorithm(content))
  }

  /** What `File(dir, name).checksum()` returns: null for an absent file. */
  function ChecksumOf(tree: Tree, dir: Path, name: string, algorithm: Algorithm): (r: Option<string>)
    ensures r.Some? <==> FileExists(tree, dir, name)
    ensures r.Some? ==> |r.value| == 30
  {
    if FileExists(tree, dir, name) then Some(Fingerprint(algorithm, tree[dir][name].content)) else None
  }

  /** Two contents have the same checksum exactly when the algorithm gives them the same digest. */
  lemma FingerprintMatchesDigest(algorithm: Algorithm, a: seq<byte>, b: seq<byte>)
    ensures Fingerprint(algorithm, a) == Fingerprint(algorithm, b) <==> algorithm(a) == algorithm(b)
  {
    HexInjective(algorithm(a), algorithm(b));
  }

  /** The chunks, one after the other. */
  function Concat(chunks: seq<seq<byte>>): seq<byte> {
    if chunks == [] then [] else Concat(chunks[..|chunks| - 1]) + chunks[|chunks| - 1]
  }

  /** A file opened with `inputStream()`: its bytes and how many have been read. */
  class InputStream {
    const content: seq<byte>
    var position: nat

    ghost predicate Valid()
      reads this
    {
      position <= |content|
    }

    constructor (content: seq<byte>)
      ensures Valid() && this.content == content && position == 0
    {
      this.content := content;
      position := 0;
    }

    /**
     * `read(buffer)`: 0 for an empty buffer, -1 at the end of the file, and otherwise
     * between 1 and `buffer.Length` of the next bytes, placed at the start of the buffer.
     */
    method Read(buffer: array<byte>) returns (n: int)
      requires Valid()
      modifies this, buffer
      ensures Valid()
      ensures buffer.Length == 0 ==> n == 0 && position == old(position)
      ensures buffer.Length > 0 && old(position) == |content| ==> n == -1 && position == old(position)
      ensures buffer.Length > 0 && old(position) < |content| ==>
        && 1 <= n <= buffer.Length
        && position == old(position) + n
        && buffer[..n] == content[old(position)..position]
    ensures n <= 0 ==> buffer[..] == old(buffer[..])
    ensures n > 0 ==> buffer[n..] == old(buffer[n..])
    {
      if buffer.Length == 0 {
        return 0;
      }
      if position == |content| {
        return -1;
      }
      var available := |content| - position;
      n :| 1 <= n <= (if available < buffer.Length then available else buffer.Length);
      forall i | 0 <= i < n {
        buffer[i] := content[position + i];
      }
      position := position + n;
    }
  }

  /** The streaming digest of `createDigest()`: what it keeps is the bytes fed so far. */
  class StreamingDigest {
    const algorithm: Algorithm
    var fed: seq<byte>

    constructor (algorithm: Algorithm)
      ensures this.algorithm == algorithm && fed == []
    {
      this.algorithm := algorithm;
      fed := [];
    }

    /** `update(buffer, offset, length)`. */
    method Update(buffer: array<byte>, offset: nat, length: nat)
      requires offset + length <= buffer.Length
      modifies this
      ensures fed == old(fed) + buffer[offset..offset + length]
    {
      fed := fed + buffer[offset..offset + length];
    }

    /** `digest()`. */
    method Digest() returns (d: Digest64)
      ensures d == algorithm(fed)
    {
      d := algorithm(fed);
    }
  }

  /**
   * One pass of the read loop of `checksum`: the `bufferRead` bytes at the start of the
   * buffer, the `consumed`-th byte of the file onwards, are fed to the digest, and the next
   * bytes are read into the buffer.
   */
  method Feed(md: StreamingDigest, input: InputStream, buffer: array<byte>, bufferRead: int, ghost consumed: nat)
    returns (next: int)
    requires input.Valid() && buffer.Length == BufferSize
    requires 1 <= bufferRead <= BufferSize && consumed + bufferRead == input.position
    requires buffer[..bufferRead] == input.content[consumed..input.position]
    requires md.fed == input.content[..consumed]
    modifies md, input, buffer
    ensures input.Valid()
    ensures md.fed == old(md.fed) + old(buffer[..bufferRead]) == input.content[..old(input.position)]
    ensures next == -1 ==> input.position == old(input.position) == |input.content|
    ensures next != -1 ==>
      && 1 <= next <= BufferSize && input.position == old(input.position) + next
      && buffer[..next] == input.content[old(input.position)..input.position]
  {
    md.Update(buffer, 0, bufferRead);
    assert input.content[..consumed] + input.content[consumed..input.position] == input.content[..input.position];
    next := input.Read(buffer);
  }

  /**
   * `File(dir, name).checksum()`. The ghost `chunks` are the byte runs passed to
   * `update`, in order (the loop keeps what the digest was fed equal to their
   * concatenation): together they are the whole file, and none is empty or larger than
   * the buffer.
   */
  method Checksum(fs: FileSystem, dir: Path, name: string, algorithm: Algorithm)
    returns (r: Option<string>, ghost chunks: seq<seq<byte>>)
    ensures r == ChecksumOf(fs.tree, dir, name, algorithm)
    ensures r.Some? ==> Concat(chunks) == fs.tree[dir][name].content
    ensures forall i :: 0 <= i < |chunks| ==> 1 <= |chunks[i]| <= BufferSize
  {
    chunks := [];
    var present := fs.Exists(dir, name);
    if !present {
      return None, chunks;
    }
    ghost var content := fs.tree[dir][name].content;
    var md := new StreamingDigest(algorithm);
    var input := new InputStream(fs.tree[dir][name].content);
    var buffer := new byte[BufferSize];
    var bufferRead := input.Read(buffer);
    ghost var consumed: nat := 0;
    while bufferRead != -1
      invariant input.Valid() && input.content == content && md.algorithm == algorithm
      invariant consumed <= |content| && md.fed == Concat(chunks) == content[..consumed]
      invariant bufferRead == -1 ==> consumed == |content|
      invariant bufferRead != -1 ==>
        && 1 <= bufferRead <= BufferSize && consumed + bufferRead == input.position
        && buffer[..bufferRead] == content[consumed..input.position]
      invariant forall i :: 0 <= i < |chunks| ==> 1 <= |chunks[i]| <= BufferSize
      decreases |content| - consumed
    {
      ghost var chunk := buffer[..bufferRead];
      assert Concat(chunks + [chunk]) == Concat(chunks) + chunk;
      chunks := chunks + [chunk];
      consumed := input.position;
      bufferRead := Feed(md, input, buffer, bufferRead, consumed - bufferRead);
    }
    assert content[..consumed] == content;
    var digest := md.Digest();
    r := Some(Hex(digest));
  }
}

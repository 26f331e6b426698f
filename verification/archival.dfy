/**
 * The chunked digest of sha1sum and the description create_archive returns. The SHA-1
 * function itself is a parameter (`digest`); the hash object is represented by the bytes
 * it has absorbed, which is all the digest of a Merkle-Damgard hash depends on.
 */
module Archival {
  import Naming

  newtype byte = x: int | 0 <= x < 256

  /** Size of the reusable read buffer: 128 KiB. */
  const BufferSize: nat := 128 * 1024

  /** A running hash computation: the bytes fed to it so far. */
  datatype HashState = HashState(absorbed: seq<byte>)

  function Update(h: HashState, chunk: seq<byte>): HashState
  {
    HashState(h.absorbed + chunk)
  }

  /** The chunks fed to the hash, concatenated in order. */
  function Concat(chunks: seq<seq<byte>>): seq<byte>
  {
    if chunks == [] then [] else Concat(chunks[..|chunks| - 1]) + chunks[|chunks| - 1]
  }

  /** Feeding the next slice of the content extends the concatenation to the end of that slice. */
  lemma ConcatStep(content: seq<byte>, chunks: seq<seq<byte>>, lo: nat, hi: nat)
    requires lo <= hi <= |content| && Concat(chunks) == content[..lo]
    ensures Concat(chunks + [content[lo..hi]]) == content[..hi]
  {
    assert (chunks + [content[lo..hi]])[..|chunks|] == chunks;
    assert content[..lo] + content[lo..hi] == content[..hi];
  }

  /** A file opened for unbuffered binary reading. */
  class BinaryFile {
    const content: seq<byte>
    var position: nat

    ghost predicate Valid()
      reads this
    {
      position <= |content|
    }

    constructor Open(content: seq<byte>)
      ensures Valid() && this.content == content && position == 0
    {
      this.content := content;
      position := 0;
    }

    /**
     * readinto: copies the next bytes of the file into the front of `buffer` and returns how
     * many. It may return fewer than the buffer holds, but returns 0 only at end of file.
     */
    method ReadInto(buffer: array<byte>) returns (n: nat)
      requires Valid() && buffer.Length > 0
      modifies this, buffer
      ensures Valid()
      ensures n <= buffer.Length
      ensures n == 0 <==> old(position) == |content|
      ensures position == old(position) + n
      ensures buffer[..n] == content[old(position)..position]
    {
      var remaining := |content| - position;
      if remaining == 0 {
        n := 0;
      } else {
        n :| 0 < n <= buffer.Length && n <= remaining;
        forall k | 0 <= k < n {
          buffer[k] := content[position + k];
        }
        position := position + n;
      }
    }
  }

  /**
   * sha1sum: reads the file through one BufferSize buffer and feeds every chunk read to the
   * hash. The chunks, concatenated, are the whole file, so the hex digest is the digest of
   * the whole content, however the reads were cut.
   */
  method Sha1Sum(content: seq<byte>, digest: seq<byte> -> string)
    returns (hex: string, ghost chunks: seq<seq<byte>>)
    ensures hex == digest(content)
    ensures Concat(chunks) == content
    ensures forall i :: 0 <= i < |chunks| ==> 0 < |chunks[i]| <= BufferSize
  {
    var h := HashState([]);
    var buffer := new byte[BufferSize];
    var f := new BinaryFile.Open(content);
    chunks := [];
    while true
      invariant f.Valid() && f.content == content && buffer.Length == BufferSize
      invariant h.absorbed == Concat(chunks) == content[..f.position]
      invariant forall i :: 0 <= i < |chunks| ==> 0 < |chunks[i]| <= BufferSize
      decreases |content| - f.position
    {
      ghost var start := f.position;
      var n := f.ReadInto(buffer);
      if n == 0 {
        break;
      }
      ConcatStep(content, chunks, start, f.position);
      h := Update(h, buffer[..n]);
      chunks := chunks + [buffer[..n]];
    }
    assert content[..f.position] == content;
    hex := digest(h.absorbed);
  }

  /** What create_archive reports: the archive's path, its size in bytes and its hex digest. */
  datatype ArchiveInfo = ArchiveInfo(path: string, size: nat, sha1: string)

  /**
   * create_archive, after the zip library has written `archive` (the compressed bytes):
   * the archive sits beside the CSV, and size and digest describe exactly its bytes.
   */
  method CreateArchive(directory: string, area: string, archive: seq<byte>,
                       digest: seq<byte> -> string)
    returns (info: ArchiveInfo)
    ensures info.path == Naming.CsvPath(directory, area) + ".zip"
    ensures info.size == |archive|
    ensures info.sha1 == digest(archive)
  {
    var hex, _ := Sha1Sum(archive, digest);
    info := ArchiveInfo(Naming.ArchivePath(directory, area), |archive|, hex);
  }
}

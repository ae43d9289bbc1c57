/**
  The PBZX container: a magic number, a nominal chunk size and length-prefixed
  chunks, each stored or compressed.
*/
module PbzxContainer {
  import opened ByteStrings
  import opened Streams
  import opened Wrappers

  datatype Error = NotPbzx | Truncated | Corrupted | LzmaError

  /** What the payload is read from: a window on the package, or that window inflated. */
  datatype Source = Plain(take: Take) | Deflated(zlib: ZlibFile) {
    ghost predicate Valid()
      reads Objects()
    {
      match this
      case Plain(t) => t.Valid() && t.Exact()
      case Deflated(z) => z.Valid()
    }

    ghost function Objects(): set<object> {
      match this
      case Plain(t) => {t, t.fileobj.Handle()}
      case Deflated(z) => {z, z.fileobj, z.fileobj.fileobj.Handle()}
    }

    ghost function Remaining(): Bytes
      requires Valid()
      reads Objects()
    {
      match this
      case Plain(t) => t.Remaining()
      case Deflated(z) => z.Remaining()
    }

    method Read(length: nat) returns (r: Bytes)
      requires Valid()
      modifies Objects()
      ensures Valid()
      ensures r == Front(old(Remaining()), length)
      ensures Remaining() == Back(old(Remaining()), length)
    {
      match this
      case Plain(t) =>
        ghost var before := t.Remaining();
        r := t.Read(Some(length));
        CutAt(before, length, r, t.Remaining());
      case Deflated(z) => r := z.Read(length);
    }
  }

  lemma CutAt<T>(all: seq<T>, n: nat, front: seq<T>, back: seq<T>)
    requires front == Front(all, n) && front + back == all
    ensures back == Back(all, n)
  {
    assert all == Front(all, n) + Back(all, n);
  }

  const PBZX_MAGIC: Bytes := [0x70, 0x62, 0x7a, 0x78]

  /** A chunk as it lies in the container. */
  datatype Chunk = Chunk(decompressedSize: nat, compressedSize: nat, data: Bytes)

  function BigEndian(s: Bytes): nat {
    FromDigits(256, s)
  }

  function PackBigEndian(n: nat, width: nat): (r: Bytes)
    ensures |r| == width
  {
    ToDigits(256, n, width)
  }

  /** The chunks a container body holds; a last chunk cut short is not noticed here. */
  function SplitChunks(s: Bytes): Result<seq<Chunk>, Error> {
    if s == [] then Ok([])
    else if |s| < 16 then Err(Corrupted)
    else
      var size := BigEndian(s[8..16]);
      var chunk := Chunk(BigEndian(s[..8]), size, Front(s[16..], size));
      Prepend([chunk], SplitChunks(Back(s[16..], size)))
  }

  function Prepend<T>(front: seq<T>, r: Result<seq<T>, Error>): Result<seq<T>, Error> {
    match r
    case Ok(rest) => Ok(front + rest)
    case Err(e) => Err(e)
  }

  lemma PrependNone<T>(r: Result<seq<T>, Error>)
    ensures Prepend([], r) == r
  {
    if r.Ok? {
      assert [] + r.value == r.value;
    }
  }

  lemma PrependMore<T>(front: seq<T>, x: T, r: Result<seq<T>, Error>)
    ensures Prepend(front, Prepend([x], r)) == Prepend(front + [x], r)
  {
    if r.Ok? {
      assert front + ([x] + r.value) == (front + [x]) + r.value;
    }
  }

  method Chunker(src: Source) returns (r: Result<seq<Chunk>, Error>)
    requires src.Valid()
    modifies src.Objects()
    ensures src.Valid()
    ensures r == SplitChunks(old(src.Remaining()))
  {
    var chunks := [];
    ghost var all := SplitChunks(src.Remaining());
    PrependNone(all);
    while true
      invariant src.Valid()
      invariant all == Prepend(chunks, SplitChunks(src.Remaining()))
      decreases |src.Remaining()|
    {
      ghost var rem := src.Remaining();
      var header := src.Read(16);
      if header == [] {
        assert chunks + [] == chunks;
        return Ok(chunks);
      }
      if |header| != 16 {
        return Err(Corrupted);
      }
      var size := BigEndian(header[8..16]);
      var data := src.Read(size);
      var chunk := Chunk(BigEndian(header[..8]), size, data);
      SplitStep(rem, header, size);
      PrependMore(chunks, chunk, SplitChunks(src.Remaining()));
      chunks := chunks + [chunk];
    }
  }

  lemma SplitStep(s: Bytes, header: Bytes, size: nat)
    requires header == Front(s, 16) && |header| == 16 && size == BigEndian(header[8..16])
    ensures |Back(Back(s, 16), size)| < |s|
    ensures SplitChunks(s)
         == Prepend([Chunk(BigEndian(header[..8]), size, Front(Back(s, 16), size))],
                    SplitChunks(Back(Back(s, 16), size)))
  {
    assert header[8..16] == s[8..16] && header[..8] == s[..8];
  }

  function UncompressChunk(c: Chunk, lzma: Bytes -> Option<Bytes>): Result<Bytes, Error> {
    if c.compressedSize != c.decompressedSize then
      match lzma(c.data)
      case None => Err(LzmaError)
      case Some(data) => if |data| != c.decompressedSize then Err(Corrupted) else Ok(data)
    else
      Ok(c.data)
  }

  function UncompressAll(chunks: seq<Chunk>, lzma: Bytes -> Option<Bytes>): Result<seq<Bytes>, Error> {
    if chunks == [] then Ok([])
    else
      match UncompressChunk(chunks[0], lzma)
      case Err(e) => Err(e)
      case Ok(data) =>
        Prepend([data], UncompressAll(chunks[1..], lzma))
  }

  /** The decompressed chunks of a whole PBZX file. */
  function Payload(s: Bytes, lzma: Bytes -> Option<Bytes>): Result<seq<Bytes>, Error> {
    if Front(s, 4) != PBZX_MAGIC then Err(NotPbzx)
    else if |s| < 12 then Err(Truncated)
    else
      match SplitChunks(s[12..])
      case Err(e) => Err(e)
      case Ok(chunks) => UncompressAll(chunks, lzma)
  }

  method Open(src: Source, lzma: Bytes -> Option<Bytes>) returns (r: Result<Pbzx, Error>)
    requires src.Valid()
    modifies src.Objects()
    ensures match Payload(old(src.Remaining()), lzma)
            case Err(e) => r == Err(e)
            case Ok(chunks) =>
              r.Ok? && fresh(r.value) && r.value.Valid() && r.value.Ahead() == Opened(chunks)
  {
    ghost var all := src.Remaining();
    var magic := src.Read(4);
    if magic != PBZX_MAGIC {
      return Err(NotPbzx);
    }
    var chunkSize := src.Read(8);
    if |chunkSize| != 8 {
      return Err(Truncated);
    }
    assert src.Remaining() == all[12..];
    var split := Chunker(src);
    if split.Err? {
      return Err(split.error);
    }
    var chunks := UncompressAll(split.value, lzma);
    if chunks.Err? {
      return Err(chunks.error);
    }
    var pbzx := new Pbzx(chunks.value);
    return Ok(pbzx);
  }

  /** A way to write one chunk: as it is, or compressed. */
  datatype Packing = Stored(data: Bytes) | Compressed(data: Bytes, packed: Bytes) {
    function Body(): Bytes {
      if Stored? then data else packed
    }

    /** A compressed chunk is told from a stored one only by its two sizes being different. */
    predicate Valid(lzma: Bytes -> Option<Bytes>) {
      && |data| < Pow(256, 8) && |Body()| < Pow(256, 8)
      && (Compressed? ==> |packed| != |data| && lzma(packed) == Some(data))
    }

    function Bytes(): Bytes {
      PackBigEndian(|data|, 8) + PackBigEndian(|Body()|, 8) + Body()
    }
  }

  function PackAll(ps: seq<Packing>): Bytes {
    if ps == [] then [] else ps[0].Bytes() + PackAll(ps[1..])
  }

  function Datas(ps: seq<Packing>): seq<Bytes> {
    seq(|ps|, i requires 0 <= i < |ps| => ps[i].data)
  }

  lemma SplitPackedChunk(p: Packing, lzma: Bytes -> Option<Bytes>, rest: Bytes)
    requires p.Valid(lzma)
    ensures SplitChunks(p.Bytes() + rest)
         == Prepend([Chunk(|p.data|, |p.Body()|, p.Body())], SplitChunks(rest))
  {
    hide SplitChunks, Prepend, FromDigits, ToDigits, Pow, Front, Back;
    var header := PackBigEndian(|p.data|, 8) + PackBigEndian(|p.Body()|, 8);
    var s := p.Bytes() + rest;
    Assoc(header, p.Body(), rest);
    FrontOfConcat(header, p.Body() + rest);
    FrontOfConcat(p.Body(), rest);
    FromToDigits(256, |p.data|, 8);
    FromToDigits(256, |p.Body()|, 8);
    assert header[..8] == PackBigEndian(|p.data|, 8);
    assert header[8..16] == PackBigEndian(|p.Body()|, 8);
    SplitStep(s, header, |p.Body()|);
  }

  lemma UncompressPacked(p: Packing, lzma: Bytes -> Option<Bytes>, chunks: seq<Chunk>)
    requires p.Valid(lzma)
    ensures UncompressAll([Chunk(|p.data|, |p.Body()|, p.Body())] + chunks, lzma)
         == Prepend([p.data], UncompressAll(chunks, lzma))
  {
    hide Pow;
    var chunk := Chunk(|p.data|, |p.Body()|, p.Body());
    assert ([chunk] + chunks)[1..] == chunks;
  }

  lemma DatasCons(ps: seq<Packing>)
    requires ps != []
    ensures Datas(ps) == [ps[0].data] + Datas(ps[1..])
  {
  }

  lemma {:induction false} UnpackPacked(ps: seq<Packing>, lzma: Bytes -> Option<Bytes>)
    requires forall p :: p in ps ==> p.Valid(lzma)
    ensures SplitChunks(PackAll(ps)).Ok?
    ensures UncompressAll(SplitChunks(PackAll(ps)).value, lzma) == Ok(Datas(ps))
  {
    hide Datas, Packing.Valid, Packing.Bytes;
    if ps == [] {
      assert Datas(ps) == [] by {
        NoDatas();
      }
    } else {
      hide SplitChunks, UncompressAll;
      UnpackPacked(ps[1..], lzma);
      SplitPackedChunk(ps[0], lzma, PackAll(ps[1..]));
      UncompressPacked(ps[0], lzma, SplitChunks(PackAll(ps[1..])).value);
      DatasCons(ps);
    }
  }

  lemma NoDatas()
    ensures Datas([]) == []
  {
  }

  /** Any list of chunks, each stored or compressed as the writer likes, is read back unchanged. */
  lemma ContainerRoundTrip(ps: seq<Packing>, chunkSize: Bytes, lzma: Bytes -> Option<Bytes>)
    requires forall p :: p in ps ==> p.Valid(lzma)
    requires |chunkSize| == 8
    ensures Payload(PBZX_MAGIC + chunkSize + PackAll(ps), lzma) == Ok(Datas(ps))
  {
    var s := PBZX_MAGIC + chunkSize + PackAll(ps);
    assert Front(s, 4) == PBZX_MAGIC;
    assert s[12..] == PackAll(ps);
    UnpackPacked(ps, lzma);
  }
}

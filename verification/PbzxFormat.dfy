/** Which bytes are accepted as a PBZX container, and what each chunk in it gives. */
module PbzxFormat {
  import opened ByteStrings
  import opened PbzxContainer
  import opened Wrappers

  /** A chunk as it is written: its two sizes, and its data. */
  function Written(c: Chunk): Bytes {
    PackBigEndian(c.decompressedSize, 8) + PackBigEndian(c.compressedSize, 8) + c.data
  }

  function AllWritten(cs: seq<Chunk>): Bytes {
    if cs == [] then [] else Written(cs[0]) + AllWritten(cs[1..])
  }

  /** Sizes of eight bytes, and as much data as announced; there may be less of it where nothing follows. */
  predicate Fits(c: Chunk, last: bool) {
    && c.decompressedSize < Pow(256, 8) && c.compressedSize < Pow(256, 8)
    && |c.data| <= c.compressedSize && (last || |c.data| == c.compressedSize)
  }

  predicate AllFit(cs: seq<Chunk>) {
    forall i :: 0 <= i < |cs| ==> Fits(cs[i], i == |cs| - 1)
  }

  lemma SplitOne(c: Chunk, rest: Bytes)
    requires Fits(c, rest == [])
    ensures SplitChunks(Written(c) + rest) == Prepend([c], SplitChunks(rest))
  {
    hide SplitChunks, Prepend, FromDigits, ToDigits, Pow, Front, Back;
    var header := PackBigEndian(c.decompressedSize, 8) + PackBigEndian(c.compressedSize, 8);
    var s := Written(c) + rest;
    Assoc(header, c.data, rest);
    FrontOfConcat(header, c.data + rest);
    FromToDigits(256, c.decompressedSize, 8);
    FromToDigits(256, c.compressedSize, 8);
    assert header[..8] == PackBigEndian(c.decompressedSize, 8);
    assert header[8..16] == PackBigEndian(c.compressedSize, 8);
    DataOf(c, rest);
    SplitStep(s, header, c.compressedSize);
  }

  lemma DataOf(c: Chunk, rest: Bytes)
    requires |c.data| <= c.compressedSize && (rest == [] || |c.data| == c.compressedSize)
    ensures Front(c.data + rest, c.compressedSize) == c.data && Back(c.data + rest, c.compressedSize) == rest
  {
  }

  lemma {:induction false} WrittenIsSplit(cs: seq<Chunk>)
    requires AllFit(cs)
    ensures SplitChunks(AllWritten(cs)) == Ok(cs) && (cs != [] ==> AllWritten(cs) != [])
  {
    hide SplitChunks, Fits;
    if cs == [] {
      NothingToSplit();
    } else {
      var rest := cs[1..];
      assert cs == [cs[0]] + rest;
      assert Fits(cs[0], 0 == |cs| - 1);
      forall i | 0 <= i < |rest|
        ensures Fits(rest[i], i == |rest| - 1)
      {
        assert Fits(cs[i + 1], i + 1 == |cs| - 1);
      }
      WrittenIsSplit(rest);
      SplitOne(cs[0], AllWritten(rest));
      assert |Written(cs[0])| >= 16;
    }
  }

  lemma NothingToSplit()
    ensures SplitChunks([]) == Ok([])
  {
  }

  lemma HeaderIsWritten(s: Bytes, size: nat)
    requires |s| >= 16 && size == BigEndian(s[8..16])
    ensures var c := Chunk(BigEndian(s[..8]), size, Front(s[16..], size));
      Fits(c, Back(s[16..], size) == []) && s == Written(c) + Back(s[16..], size)
  {
    hide FromDigits, ToDigits, Pow;
    ToFromDigits(256, s[..8]);
    ToFromDigits(256, s[8..16]);
    FrontBack(s[16..], size);
    var c := Chunk(BigEndian(s[..8]), size, Front(s[16..], size));
    assert s == s[..8] + s[8..16] + s[16..];
    Assoc(s[..8] + s[8..16], c.data, Back(s[16..], size));
  }

  lemma {:induction false} SplitIsWritten(s: Bytes)
    requires SplitChunks(s).Ok?
    ensures AllFit(SplitChunks(s).value) && s == AllWritten(SplitChunks(s).value)
    ensures s != [] <==> SplitChunks(s).value != []
    decreases |s|
  {
    hide FromDigits, ToDigits, Pow, Written;
    if s != [] {
      var size := BigEndian(s[8..16]);
      var c, rest := Chunk(BigEndian(s[..8]), size, Front(s[16..], size)), Back(s[16..], size);
      HeaderIsWritten(s, size);
      SplitIsWritten(rest);
      var cs := SplitChunks(s).value;
      hide SplitChunks, Fits, Front, Back;
      assert cs == [c] + SplitChunks(rest).value && cs[1..] == SplitChunks(rest).value;
    }
  }

  /** What a chunk gives: its data as they are when its sizes are equal, and what they decompress to otherwise. */
  predicate Gives(c: Chunk, data: Bytes, lzma: Bytes -> Option<Bytes>) {
    if c.compressedSize == c.decompressedSize then data == c.data
    else lzma(c.data) == Some(data) && |data| == c.decompressedSize
  }

  lemma {:induction false} UncompressIff(cs: seq<Chunk>, datas: seq<Bytes>, lzma: Bytes -> Option<Bytes>)
    ensures UncompressAll(cs, lzma) == Ok(datas)
       <==> |datas| == |cs| && forall i :: 0 <= i < |cs| ==> Gives(cs[i], datas[i], lzma)
  {
    if cs != [] {
      var one := UncompressChunk(cs[0], lzma);
      assert forall data :: one == Ok(data) <==> Gives(cs[0], data, lzma);
      hide UncompressChunk, Gives;
      if datas != [] {
        UncompressIff(cs[1..], datas[1..], lzma);
        assert datas == [datas[0]] + datas[1..];
      }
    }
  }

  ghost predicate Holds(s: Bytes, cs: seq<Chunk>, datas: seq<Bytes>, lzma: Bytes -> Option<Bytes>) {
    && |s| >= 12 && s[..4] == [0x70, 0x62, 0x7a, 0x78] && AllFit(cs) && s[12..] == AllWritten(cs)
    && |datas| == |cs| && forall i :: 0 <= i < |cs| ==> Gives(cs[i], datas[i], lzma)
  }

  /** Bytes are accepted, with these data, exactly when they are the magic number, a size, and chunks that give them. */
  lemma PayloadIff(s: Bytes, datas: seq<Bytes>, lzma: Bytes -> Option<Bytes>)
    ensures Payload(s, lzma) == Ok(datas) <==> exists cs :: Holds(s, cs, datas, lzma)
  {
    hide SplitChunks, UncompressAll, AllWritten, AllFit, Gives;
    if Payload(s, lzma) == Ok(datas) {
      var cs := SplitChunks(s[12..]).value;
      SplitIsWritten(s[12..]);
      UncompressIff(cs, datas, lzma);
      assert Holds(s, cs, datas, lzma);
    }
    if cs :| Holds(s, cs, datas, lzma) {
      WrittenIsSplit(cs);
      UncompressIff(cs, datas, lzma);
    }
  }
}

/** From an archiver's members to the files of the output directory. */
module PackageEndToEnd {
  import opened ByteStrings
  import opened Cpio
  import opened ExtractionCuts
  import opened HardLinks
  import opened PbzxContainer
  import opened StreamExtraction
  import opened Streams
  import opened UnpackSdk
  import opened Wrappers

  /**
    Encode members as a cpio archive, cut it into chunks, store or compress each chunk.
    When the reads do not notice the empty chunks, extracting the package creates exactly
    the selected members.
  */
  lemma PackThenExtract(ms: seq<RawMember>, trailer: RawEntry, size: nat, rest: Bytes,
                        ps: seq<Packing>, chunkSize: Bytes, lzma: Bytes -> Option<Bytes>, job: Job)
    requires forall m :: m in ms ==> m.Valid()
    requires IsTrailer(trailer, size, rest)
    requires forall p :: p in ps ==> p.Valid(lzma)
    requires Concat(Datas(ps)) == EncodeMembers(ms) + (trailer.Encode() + rest)
    requires Smooth(job.q, State(map[], job.fs0, None), Opened(Datas(ps)))
    requires |chunkSize| == 8
    requires job.es == DecodedMembers(ms) && job.CompleteGroups() && job.CleanPaths()
    ensures Payload(PBZX_MAGIC + chunkSize + PackAll(ps), lzma) == Ok(Datas(ps))
    ensures var st := ExtractAt(job.q, State(map[], job.fs0, None), Opened(Datas(ps)));
      st.error == None && Extracted(job, st.fs)
  {
    hide Extracted, Extraction, ExtractAt, EncodeMembers, DecodedMembers, RawEntry.Encode, ParseArchive, Concat, Smooth,
      Job.CompleteGroups, Job.CleanPaths, RawMember.Valid, Payload, PackAll, Opened, Datas;
    ContainerRoundTrip(ps, chunkSize, lzma);
    DecodeEncoded(ms, trailer, size, rest);
    OpenedConcat(Datas(ps));
    ExtractionThrough(job.q, job.fs0, Opened(Datas(ps)));
    ExtractionOfAll(job, rest);
  }

  lemma ExtractionOfAll(job: Job, rest: Bytes)
    requires job.CompleteGroups() && job.CleanPaths()
    ensures var st := Extraction(job.q, job.fs0, Archive(job.es, Ok(rest)));
      st.error == None && Extracted(job, st.fs)
  {
    hide Extracted, Run;
    ExtractionCorrect(job);
  }

  /** Chunks that are not empty are one stretch, wherever the archive is cut: there is nothing to notice. */
  lemma NonEmptyChunksAreSmooth(ps: seq<Packing>, q: Request, st: State)
    requires forall p :: p in ps ==> p.data != []
    ensures Opened(Datas(ps))[0] == Concat(Datas(ps)) && Smooth(q, st, Opened(Datas(ps)))
  {
    hide Concat, Opened, Smooth;
    var chunks := Datas(ps);
    assert forall i :: 0 <= i < |ps| ==> ps[i] in ps && chunks[i] == ps[i].data;
    OpenedConcat(chunks);
    AllOpenedInReach(chunks);
    NoCuts(q, st, Opened(chunks));
    FirstStretch(Opened(chunks));
    assert Opened(chunks)[0] + [] == Opened(chunks)[0];
  }

  lemma AllOpenedInReach(chunks: seq<Bytes>)
    requires forall i :: 0 <= i < |chunks| ==> chunks[i] != []
    ensures AllInReach(Opened(chunks))
  {
    if chunks == [] {
      OneStretch([]);
    } else {
      assert forall i :: 0 <= i < |chunks[1..]| ==> chunks[1..][i] == chunks[i + 1];
      InReachIff(chunks[0], chunks[1..]);
    }
  }

  /**
    The same package with an empty chunk inside its first header, and nothing else
    changed: the container still holds the whole archive, but the reader takes the header
    for a short one, and nothing at all is extracted.
  */
  lemma EmptyChunkInHeader(s: Bytes, k: nat, chunkSize: Bytes, lzma: Bytes -> Option<Bytes>, q: Request, fs: FileSystem)
    requires 6 <= k < 6 + HEADER_SIZE <= |s| < 0x1_0000_0000_0000_0000 && MAGIC <= s && |chunkSize| == 8
    ensures var ps := [Stored(s[..k]), Stored([]), Stored(s[k..])];
      && Payload(PBZX_MAGIC + chunkSize + PackAll(ps), lzma) == Ok(Datas(ps)) && Concat(Datas(ps)) == s
      && ExtractAt(q, State(map[], fs, None), Opened(Datas(ps)))
         == State(map[], fs, Some(BadArchive(ShortHeader)))
  {
    hide ExtractAt, Opened, PackAll, Payload, Concat;
    var ps := [Stored(s[..k]), Stored([]), Stored(s[k..])];
    ContainerRoundTrip(ps, chunkSize, lzma);
    assert Datas(ps) == [s[..k], [], s[k..]];
    HeaderCutShort(q, State(map[], fs, None), s, k);
    OpenedConcat(Datas(ps));
  }
}

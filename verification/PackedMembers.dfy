/** What the bytes of a packed member's header say about it, and where they have it put. */
module PackedMembers {
  import opened ByteStrings
  import opened Cpio
  import opened ExtractionCuts
  import opened HardLinks
  import opened OctalFields
  import opened PbzxContainer
  import opened StreamExtraction
  import opened Streams
  import opened UnpackSdk
  import opened Wrappers

  // ----- Fields of digits -----

  lemma FieldNumber(field: Bytes)
    requires field != [] && OctalDigits(field)
    ensures ReadInt(field) == Some(FromDigits(8, DigitValues(field))) == ParseOctal(field)
  {
    hide FromDigits, Digits, DigitValues, LeftStrip, RightStrip;
    DigitsRead([], field, []);
    assert [] + (field + []) == field;
  }

  /** Fields of digits hold the same number only if they are the same. */
  lemma SameNumberIff(a: Bytes, b: Bytes)
    requires OctalDigits(a) && OctalDigits(b) && |a| == |b| > 0
    ensures ReadInt(a) == ReadInt(b) <==> a == b
  {
    hide ReadInt, PackOctal;
    FieldNumber(a);
    FieldNumber(b);
    ParseThenPack(a);
    ParseThenPack(b);
  }

  // ----- Kinds and link groups -----

  lemma SixDigits(ds: seq<nat>)
    requires |ds| == 6
    ensures FromDigits(8, ds) == 8 * (8 * (8 * (8 * (8 * ds[0] + ds[1]) + ds[2]) + ds[3]) + ds[4]) + ds[5]
  {
    assert FromDigits(8, ds[..0]) == 0;
    forall k | 0 <= k < 6
      ensures FromDigits(8, ds[..k + 1]) == 8 * FromDigits(8, ds[..k]) + ds[k]
    {
      assert ds[..k + 1] == ds[..k] + [ds[k]];
      FromDigitsSnoc(8, ds[..k], ds[k]);
    }
    assert ds[..6] == ds;
    assert FromDigits(8, ds[..1]) == ds[0] && FromDigits(8, ds[..2]) == 8 * ds[0] + ds[1];
  }

  lemma HighDigits(a: nat, b: nat, c: nat, d: nat, e: nat, f: nat)
    requires b < 8 && c < 8 && d < 8 && e < 8 && f < 8
    ensures (8 * (8 * (8 * (8 * (8 * a + b) + c) + d) + e) + f) / 0x1000 % 0x10 == 8 * (a % 2) + b
  {
    var n := 8 * (8 * (8 * (8 * (8 * a + b) + c) + d) + e) + f;
    DivModUnique(0x1000, 8 * a + b, 8 * (8 * (8 * c + d) + e) + f, n);
    DivMod(2, a);
    DivModUnique(0x10, a / 2, 8 * (a % 2) + b, 8 * a + b);
  }

  lemma TypeDigits(mode: Bytes)
    requires |mode| == 6 && OctalDigits(mode)
    ensures ParseOctal(mode).Some?
    ensures FileType(ParseOctal(mode).value) == 8 * ((mode[0] - ZERO) % 2) + (mode[1] - ZERO)
  {
    hide FromDigits, ReadInt, ParseOctal;
    FieldNumber(mode);
    var ds := DigitValues(mode);
    SixDigits(ds);
    assert forall k :: 0 <= k < 6 ==> IsOctal(mode[k]) && ds[k] == mode[k] - ZERO;
    HighDigits(ds[0], ds[1], ds[2], ds[3], ds[4], ds[5]);
  }

  /**
    The first two digits of the mode tell the kinds apart: "04" is a directory, "10" a file,
    "12" a symbolic link; the bits above those do not matter.
  */
  lemma KindInTheMode(m: RawMember)
    requires m.Valid() && OctalDigits(m.raw.mode)
    ensures var e, mode := m.Decoded(), m.raw.mode;
      && (IsDir(e) <==> mode[0] in Text("0246") && mode[1] in Text("4"))
      && (IsReg(e) <==> mode[0] in Text("1357") && mode[1] in Text("0"))
      && (IsLnk(e) <==> mode[0] in Text("1357") && mode[1] in Text("2"))
  {
    hide ReadInt, ParseOctal, FileType, Text, CleanName, HasParent;
    var mode := m.raw.mode;
    TypeDigits(mode);
    assert IsOctal(mode[0]) && IsOctal(mode[1]);
    TypeTexts();
  }

  lemma TypeTexts()
    ensures Text("0246") == [0x30, 0x32, 0x34, 0x36] && Text("1357") == [0x31, 0x33, 0x35, 0x37]
    ensures Text("4") == [0x34] && Text("0") == [0x30] && Text("2") == [0x32]
  {
  }

  /** A file is one of a link group when its count is neither 0 nor 1. */
  lemma LinkedInTheCount(m: RawMember)
    requires m.Valid() && OctalDigits(m.raw.nlink)
    ensures IsLinked(m.Decoded()) <==>
      IsReg(m.Decoded()) && m.raw.nlink != Text("000000") && m.raw.nlink != Text("000001")
  {
    hide ReadInt, ParseOctal, Text, CleanName, HasParent;
    CountTexts();
    FieldNumber(m.raw.nlink);
    SameNumberIff(m.raw.nlink, Text("000000"));
    SameNumberIff(m.raw.nlink, Text("000001"));
  }

  lemma OneDigit(field: Bytes)
    requires |field| == 6 && OctalDigits(field) && forall k :: 0 <= k < 5 ==> field[k] == ZERO
    ensures ReadInt(field) == Some(field[5] - ZERO)
  {
    hide ReadInt, ParseOctal, FromDigits;
    FieldNumber(field);
    var ds := DigitValues(field);
    assert ds[0] == 0 && ds[1] == 0 && ds[2] == 0 && ds[3] == 0 && ds[4] == 0 && ds[5] == field[5] - ZERO;
    SixDigits(ds);
  }

  lemma CountTexts()
    ensures OctalDigits(Text("000000")) && OctalDigits(Text("000001"))
    ensures ReadInt(Text("000000")) == Some(0) && ReadInt(Text("000001")) == Some(1)
  {
    hide ReadInt, Text;
    CountBytes();
    OneDigit(Text("000000"));
    OneDigit(Text("000001"));
  }

  lemma CountBytes()
    ensures Text("000000") == [ZERO, ZERO, ZERO, ZERO, ZERO, ZERO]
    ensures Text("000001") == [ZERO, ZERO, ZERO, ZERO, ZERO, 0x31]
  {
  }

  /** Two members have one key only if their device and inode fields are the same. */
  lemma KeyInTheHeader(m: RawMember, m': RawMember)
    requires m.Valid() && m'.Valid()
    requires OctalDigits(m.raw.dev) && OctalDigits(m.raw.ino) && OctalDigits(m'.raw.dev) && OctalDigits(m'.raw.ino)
    ensures KeyOf(m.Decoded()) == KeyOf(m'.Decoded()) <==> m.raw.dev == m'.raw.dev && m.raw.ino == m'.raw.ino
  {
    hide ReadInt, ParseOctal, CleanName, HasParent;
    SameNumberIff(m.raw.dev, m'.raw.dev);
    SameNumberIff(m.raw.ino, m'.raw.ino);
  }

  // ----- Where a packed member goes -----

  /** The members `ms`, packed into a payload that the job extracts, with no cut that is noticed. */
  ghost predicate PackedFor(job: Job, ms: seq<RawMember>, trailer: RawEntry, size: nat, rest: Bytes, ps: seq<Packing>,
                            lzma: Bytes -> Option<Bytes>)
  {
    && (forall m :: m in ms ==> m.Valid()) && IsTrailer(trailer, size, rest)
    && (forall p :: p in ps ==> p.Valid(lzma))
    && Concat(Datas(ps)) == EncodeMembers(ms) + (trailer.Encode() + rest)
    && Smooth(job.q, State(map[], job.fs0, None), Opened(Datas(ps)))
    && job.es == DecodedMembers(ms) && job.CompleteGroups() && job.CleanPaths()
  }

  /** The place `n` says, below the output directory. */
  function Below(outDir: UnpackSdk.Path, n: Bytes): Spot {
    if outDir == [] then Spot(false, Names(n)) else Spot(outDir[0] == SLASH, Names(outDir) + Names(n))
  }

  ghost predicate FileHolds(fs: FileSystem, s: Spot, data: Bytes) {
    fs.Valid() && s in fs.files && fs.inodes[fs.files[s]] == data
  }

  /** A file is written under "./", the prefix and `n`. */
  ghost predicate FileNamed(m: RawMember, prefix: Bytes, n: Bytes) {
    && m.Valid() && m.raw.name == Text("./") + (prefix + n) && prefix + n != []
    && OctalDigits(m.raw.mode) && m.raw.mode[0] == 0x31 && m.raw.mode[1] == 0x30
  }

  lemma NamedFile(m: RawMember, prefix: Bytes, n: Bytes)
    requires FileNamed(m, prefix, n)
    ensures m.Valid() && IsReg(m.Decoded()) && m.Decoded().name == prefix + n
  {
    hide RawMember.Valid, Text, IsReg, IsDir, IsLnk;
    KindInTheMode(m);
    TypeTexts();
    CleanNameIs(m.raw.name);
  }

  lemma DecodedAt(ms: seq<RawMember>, i: nat)
    requires (forall m :: m in ms ==> m.Valid()) && i < |ms|
    ensures |DecodedMembers(ms)| == |ms| && DecodedMembers(ms)[i] == ms[i].Decoded()
    ensures DecodedMembers(ms)[i].data == ms[i].data
  {
    hide RawMember.Valid;
    assert ms[i].Valid();
  }

  lemma FileLands(job: Job, i: nat, n: Bytes)
    requires job.CompleteGroups() && job.CleanPaths() && i < |job.es| && IsReg(job.es[i])
    requires job.es[i].name != [] && job.es[i].name == job.q.prefix + n
    ensures i < |job.leader| && job.leader[i] < |job.es|
    ensures FileHolds(Run(job.q, job.fs0, job.es).fs, Below(job.q.outDir, n), job.es[job.leader[i]].data)
  {
    hide Names, Run, FileSystem.Valid, Job.CleanPaths, IsReg;
    MemberLands(job, i, n);
  }

  /** What is packed is extracted as from the list of members. */
  lemma PackedRuns(job: Job, ms: seq<RawMember>, trailer: RawEntry, size: nat, rest: Bytes, ps: seq<Packing>,
                   chunkSize: Bytes, lzma: Bytes -> Option<Bytes>)
    requires PackedFor(job, ms, trailer, size, rest, ps, lzma) && |chunkSize| == 8
    ensures Payload(PBZX_MAGIC + chunkSize + PackAll(ps), lzma) == Ok(Datas(ps))
    ensures ExtractAt(job.q, State(map[], job.fs0, None), Opened(Datas(ps)))
         == State(map[], Run(job.q, job.fs0, job.es).fs, None)
  {
    hide ExtractAt, EncodeMembers, DecodedMembers, RawEntry.Encode, ParseArchive, Concat, Smooth, Run,
      Job.CompleteGroups, Job.CleanPaths, RawMember.Valid, Payload, PackAll, Opened, Datas, IsTrailer, Extracted;
    ContainerRoundTrip(ps, chunkSize, lzma);
    DecodeEncoded(ms, trailer, size, rest);
    OpenedConcat(Datas(ps));
    ExtractionThrough(job.q, job.fs0, Opened(Datas(ps)));
    ExtractionCorrect(job);
  }

  /**
    A file that is packed under "./", the prefix and `n` is put at `n` below the output
    directory, with the data of its group's first member.
  */
  lemma PackedFileLands(job: Job, ms: seq<RawMember>, trailer: RawEntry, size: nat, rest: Bytes, ps: seq<Packing>,
                        chunkSize: Bytes, lzma: Bytes -> Option<Bytes>, i: nat, n: Bytes)
    requires PackedFor(job, ms, trailer, size, rest, ps, lzma) && |chunkSize| == 8
    requires i < |ms| && FileNamed(ms[i], job.q.prefix, n)
    ensures Payload(PBZX_MAGIC + chunkSize + PackAll(ps), lzma) == Ok(Datas(ps))
    ensures i < |job.leader| && job.leader[i] < |ms|
    ensures var st := ExtractAt(job.q, State(map[], job.fs0, None), Opened(Datas(ps)));
      st.error == None && FileHolds(st.fs, Below(job.q.outDir, n), ms[job.leader[i]].data)
  {
    assert (forall m :: m in ms ==> m.Valid()) && job.es == DecodedMembers(ms)
        && job.CompleteGroups() && job.CleanPaths() && ms[i].raw.name != [] && job.q.prefix + n != [];
    hide *;
    PackedRuns(job, ms, trailer, size, rest, ps, chunkSize, lzma);
    NamedFile(ms[i], job.q.prefix, n);
    DecodedAt(ms, i);
    FileLands(job, i, n);
    DecodedAt(ms, job.leader[i]);
  }
}

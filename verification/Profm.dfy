/**
  The canonicaliser of binary ART profile metadata (`.profm`, version 002): parse the
  length-prefixed records, sort them, number them afresh and write them back.
*/
module Profm {
  import opened ByteOrder
  import opened ByteStrings
  import opened Wrappers

  datatype Error =
    | BadMagic | UnsupportedProf | UnsupportedVersion
    | Truncated | CompressedSize | ZlibError | UncompressedSize | TrailingData | TooLarge

  // ----- Little-endian integers -----

  function Le16(s: Bytes): nat
    requires |s| == 2
  {
    s[0] as int + 0x100 * (s[1] as int)
  }

  function Pack16(n: nat): (r: Bytes)
    requires n < 0x1_0000
    ensures |r| == 2
  {
    [n % 0x100, n / 0x100]
  }

  function Le32(s: Bytes): nat
    requires |s| == 4
  {
    s[0] as int + 0x100 * (s[1] as int) + 0x1_0000 * (s[2] as int) + 0x100_0000 * (s[3] as int)
  }

  function Pack32(n: nat): (r: Bytes)
    requires n < 0x1_0000_0000
    ensures |r| == 4
  {
    [n % 0x100, n / 0x100 % 0x100, n / 0x1_0000 % 0x100, n / 0x100_0000]
  }

  lemma Le16RoundTrip(n: nat, s: Bytes)
    ensures n < 0x1_0000 ==> Le16(Pack16(n)) == n
    ensures |s| == 2 ==> Pack16(Le16(s)) == s
  {
  }

  /** The four digits of a number to the base 0x100. */
  lemma FourDigits(n: nat, q1: nat, q2: nat, q3: nat)
    requires q1 == n / 0x100 && q2 == q1 / 0x100 && q3 == q2 / 0x100
    ensures n == n % 0x100 + 0x100 * (q1 % 0x100) + 0x1_0000 * (q2 % 0x100) + 0x100_0000 * q3
    ensures n / 0x1_0000 == q2 && n / 0x100_0000 == q3
  {
    DivMod(0x100, n);
    DivMod(0x100, q1);
    DivMod(0x100, q2);
    DivModUnique(0x1_0000, q2, n % 0x100 + 0x100 * (q1 % 0x100), n);
    DivModUnique(0x100_0000, q3, n % 0x100 + 0x100 * (q1 % 0x100) + 0x1_0000 * (q2 % 0x100), n);
  }

  lemma Le32RoundTrip(n: nat)
    requires n < 0x1_0000_0000
    ensures Le32(Pack32(n)) == n
  {
    FourDigits(n, n / 0x100, n / 0x100 / 0x100, n / 0x100 / 0x100 / 0x100);
  }

  // ----- Records -----

  /** The records at the start of some data, with what follows them. */
  datatype Records = Records(profiles: seq<Pair>, rest: Bytes)

  /**
    One record: index, key size, key, type count, class count, class ids.  The class ids
    of a last record may fall short of their count; nothing checks it.
  */
  function ParseRecord(data: Bytes): Result<(Pair, Bytes), Error> {
    if |data| < 4 then Err(Truncated)
    else
      var keySize := Le16(data[2..4]);
      var key, after := Front(data[4..], keySize), Back(data[4..], keySize);
      if |after| < 6 then Err(Truncated)
      else
        var size := 2 * Le16(after[4..6]);
        Ok((Pair(key, data[..4] + (key + after[..6]) + Front(after[6..], size)), Back(after[6..], size)))
  }

  lemma CutTwice(data: Bytes, n: nat, m: nat)
    requires |data| >= 4 && |Back(data[4..], n)| >= 6
    ensures var after := Back(data[4..], n);
      data == data[..4] + (Front(data[4..], n) + after[..6]) + Front(after[6..], m) + Back(after[6..], m)
  {
    var after := Back(data[4..], n);
    FrontBack(data[4..], n);
    FrontBack(after[6..], m);
    assert after == after[..6] + after[6..];
    assert data == data[..4] + data[4..];
    Assoc(Front(data[4..], n), after[..6], after[6..]);
    Assoc(data[..4], Front(data[4..], n) + after[..6], after[6..]);
    Assoc(data[..4] + (Front(data[4..], n) + after[..6]), Front(after[6..], m), Back(after[6..], m));
  }

  lemma RecordShrinks(data: Bytes)
    requires ParseRecord(data).Ok?
    ensures |ParseRecord(data).value.1| < |data|
    ensures data == ParseRecord(data).value.0.bytes + ParseRecord(data).value.1
    ensures |ParseRecord(data).value.0.bytes| >= 10
  {
    var n := Le16(data[2..4]);
    CutTwice(data, n, 2 * Le16(Back(data[4..], n)[4..6]));
  }

  function ParseRecords(n: nat, data: Bytes): Result<Records, Error> {
    if n == 0 then Ok(Records([], data))
    else
      match ParseRecord(data)
      case Err(e) => Err(e)
      case Ok((p, rest)) =>
        match ParseRecords(n - 1, rest)
        case Err(e) => Err(e)
        case Ok(more) => Ok(Records([p] + more.profiles, more.rest))
  }

  function Flat(ps: seq<Pair>): Bytes {
    if ps == [] then [] else ps[0].bytes + Flat(ps[1..])
  }

  /** Nothing is lost in parsing: the profiles are the data, cut up. */
  lemma {:induction false} ParsedIsData(n: nat, data: Bytes)
    requires ParseRecords(n, data).Ok?
    ensures var r := ParseRecords(n, data).value;
      |r.profiles| == n && Flat(r.profiles) + r.rest == data
      && forall p :: p in r.profiles ==> |p.bytes| >= 10
  {
    if n > 0 {
      var (p, rest) := ParseRecord(data).value;
      var more := ParseRecords(n - 1, rest).value;
      RecordShrinks(data);
      ParsedIsData(n - 1, rest);
      assert ([p] + more.profiles)[1..] == more.profiles;
      Assoc(p.bytes, Flat(more.profiles), more.rest);
    }
  }

  /** The record without its index. */
  function Body(p: Pair): Bytes {
    Back(p.bytes, 2)
  }

  function Renumber(ps: seq<Pair>, from: nat): Bytes
    requires from + |ps| <= 0x1_0000
  {
    if ps == [] then [] else Pack16(from) + Body(ps[0]) + Renumber(ps[1..], from + 1)
  }

  // ----- The whole file -----

  /** zlib, as a pair of functions. */
  datatype Zlib = Zlib(compress: Bytes -> Bytes, decompress: Bytes -> Option<Bytes>) {
    ghost predicate Inverse() {
      forall s :: decompress(compress(s)) == Some(s)
    }
  }

  /** The data of a version 002 payload: the number of records and their bytes. */
  function Unpack(z: Zlib, data: Bytes): Result<(nat, Bytes), Error> {
    if |data| < 10 then Err(Truncated)
    else if |data| - 10 != Le32(data[6..10]) then Err(CompressedSize)
    else
      match z.decompress(data[10..])
      case None => Err(ZlibError)
      case Some(raw) =>
        if |raw| != Le32(data[2..6]) then Err(UncompressedSize) else Ok((Le16(data[..2]), raw))
  }

  /** The profiles of a version 002 payload. */
  function Profiles(z: Zlib, data: Bytes): Result<seq<Pair>, Error> {
    match Unpack(z, data)
    case Err(e) => Err(e)
    case Ok((n, raw)) =>
      match ParseRecords(n, raw)
      case Err(e) => Err(e)
      case Ok(r) => if r.rest != [] then Err(TrailingData) else Ok(r.profiles)
  }

  /** A payload with the given number of records and size, and these bytes compressed. */
  function Pack(z: Zlib, n: nat, size: nat, raw: Bytes): Result<Bytes, Error>
    requires n < 0x1_0000 && size < 0x1_0000_0000
  {
    var cdata := z.compress(raw);
    if |cdata| >= 0x1_0000_0000 then Err(TooLarge)
    else Ok(Pack16(n) + Pack32(size) + Pack32(|cdata|) + cdata)
  }

  /** The canonical payload of some profiles. */
  function Canonical(z: Zlib, ps: seq<Pair>): Result<Bytes, Error>
    requires |ps| < 0x1_0000 && |Flat(ps)| < 0x1_0000_0000
  {
    SortSorts(ps);
    Pack(z, |ps|, |Flat(ps)|, Renumber(Sort(ps), 0))
  }

  lemma ProfilesFit(z: Zlib, data: Bytes)
    requires Profiles(z, data).Ok?
    ensures var ps := Profiles(z, data).value;
      && |ps| == Le16(data[..2]) < 0x1_0000 && |Flat(ps)| == Le32(data[2..6]) < 0x1_0000_0000
      && (forall p :: p in ps ==> |p.bytes| >= 10)
  {
    var (n, raw) := Unpack(z, data).value;
    ParsedIsData(n, raw);
    assert Flat(ParseRecords(n, raw).value.profiles) + [] == raw;
  }

  /** The parsing loop. */
  method ParseLoop(n: nat, data: Bytes) returns (r: Result<Records, Error>)
    ensures r == ParseRecords(n, data)
  {
    var profiles, rest := [], data;
    PrependedNone(ParseRecords(n, data));
    for i := 0 to n
      invariant ParseRecords(n, data) == Prepended(profiles, ParseRecords(n - i, rest))
    {
      var p := ParseRecord(rest);
      if p.Err? {
        return Err(p.error);
      }
      PrependedMore(profiles, p.value.0, ParseRecords(n - i - 1, p.value.1));
      profiles, rest := profiles + [p.value.0], p.value.1;
    }
    assert profiles + [] == profiles;
    r := Ok(Records(profiles, rest));
  }

  /** `sort_profm_002`: the header keeps the counts and sizes it came with. */
  method SortProfm002(z: Zlib, data: Bytes) returns (r: Result<Bytes, Error>)
    ensures match Profiles(z, data)
      case Err(e) => r == Err(e)
      case Ok(ps) => |ps| < 0x1_0000 && |Flat(ps)| < 0x1_0000_0000 && r == Canonical(z, ps)
  {
    if |data| < 10 {
      return Err(Truncated);
    }
    var numDexFiles, uncompressedSize, compressedSize := Le16(data[..2]), Le32(data[2..6]), Le32(data[6..10]);
    var rest := data[10..];
    if |rest| != compressedSize {
      return Err(CompressedSize);
    }
    var raw := z.decompress(rest);
    if raw.None? {
      return Err(ZlibError);
    }
    rest := raw.value;
    if |rest| != uncompressedSize {
      return Err(UncompressedSize);
    }
    var parsed := ParseLoop(numDexFiles, rest);
    if parsed.Err? {
      return Err(parsed.error);
    }
    var profiles := parsed.value.profiles;
    if parsed.value.rest != [] {
      return Err(TrailingData);
    }
    ProfilesFit(z, data);
    SortSorts(profiles);
    var sorted := RenumberLoop(Sort(profiles));
    return Pack(z, numDexFiles, uncompressedSize, sorted);
  }

  function Prepended(front: seq<Pair>, r: Result<Records, Error>): Result<Records, Error> {
    match r
    case Err(e) => Err(e)
    case Ok(more) => Ok(Records(front + more.profiles, more.rest))
  }

  lemma PrependedNone(r: Result<Records, Error>)
    ensures Prepended([], r) == r
  {
    if r.Ok? {
      assert [] + r.value.profiles == r.value.profiles;
    }
  }

  lemma PrependedMore(front: seq<Pair>, p: Pair, r: Result<Records, Error>)
    ensures Prepended(front, Prepended([p], r)) == Prepended(front + [p], r)
  {
    if r.Ok? {
      Assoc(front, [p], r.value.profiles);
    }
  }

  /** The join over `enumerate(sorted(profiles))`. */
  method RenumberLoop(ps: seq<Pair>) returns (r: Bytes)
    requires |ps| <= 0x1_0000
    ensures r == Renumber(ps, 0)
  {
    r := [];
    for i := 0 to |ps|
      invariant r + Renumber(ps[i..], i) == Renumber(ps, 0)
    {
      assert ps[i..][1..] == ps[i + 1..];
      Assoc(r, Pack16(i) + Body(ps[i]), Renumber(ps[i + 1..], i + 1));
      r := r + (Pack16(i) + Body(ps[i]));
    }
  }

  const PROF_MAGIC: Bytes := [0x70, 0x72, 0x6f, 0]
  const PROFM_MAGIC: Bytes := [0x70, 0x72, 0x6d, 0]
  const PROFM_002: Bytes := [0x30, 0x30, 0x32, 0]

  /** `_sort_baseline`: only version 002 metadata is sorted; its magic and version are kept. */
  method SortBaseline(z: Zlib, data: Bytes) returns (r: Result<Bytes, Error>)
    ensures Front(data, 4) == [0x70, 0x72, 0x6f, 0] ==> r == Err(UnsupportedProf)
    ensures Front(data, 4) != [0x70, 0x72, 0x6f, 0] && Front(data, 4) != [0x70, 0x72, 0x6d, 0] ==> r == Err(BadMagic)
    ensures Front(data, 4) == [0x70, 0x72, 0x6d, 0] && Front(Back(data, 4), 4) != [0x30, 0x30, 0x32, 0] ==>
      r == Err(UnsupportedVersion)
    ensures [0x70, 0x72, 0x6d, 0] + [0x30, 0x30, 0x32, 0] <= data ==>
      match Profiles(z, data[8..])
      case Err(e) => r == Err(e)
      case Ok(ps) =>
        && |ps| < 0x1_0000 && |Flat(ps)| < 0x1_0000_0000
        && match Canonical(z, ps)
           case Err(e) => r == Err(e)
           case Ok(out) => r == Ok([0x70, 0x72, 0x6d, 0] + [0x30, 0x30, 0x32, 0] + out)
  {
    hide Profiles, Canonical;
    var magic, rest := Front(data, 4), Back(data, 4);
    var version := Front(rest, 4);
    rest := Back(rest, 4);
    if magic == PROF_MAGIC {
      return Err(UnsupportedProf);
    } else if magic == PROFM_MAGIC {
      if version == PROFM_002 {
        assert rest == data[8..];
        var out := SortProfm002(z, rest);
        return if out.Err? then out else Ok(PROFM_MAGIC + PROFM_002 + out.value);
      } else {
        return Err(UnsupportedVersion);
      }
    } else {
      return Err(BadMagic);
    }
  }
}

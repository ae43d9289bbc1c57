/**
  The stack of byte streams behind a macOS package payload: a file, a length-limited
  window on a file object, a zlib stream and a PBZX stream.

  A stream is a cursor into one byte sequence that may be divided into stretches: a
  single `read` ends where its stretch ends.  A file is one stretch; in a PBZX stream
  every empty chunk but the current one begins a new stretch.
*/
module Streams {
  import opened ByteStrings
  import opened Wrappers

  // ----- Stretches -----

  /** What a read gives, and the stretches it leaves. */
  datatype Reading = Reading(data: Bytes, left: seq<Bytes>)

  /** One read: it takes from the first stretch, and goes on to the next when it asks for more than is there. */
  function ReadFrom(ss: seq<Bytes>, length: Option<nat>): (r: Reading)
    requires ss != []
    ensures r.left != []
  {
    if length.Some? && length.value <= |ss[0]| then
      Reading(ss[0][..length.value], [ss[0][length.value..]] + ss[1..])
    else
      Reading(ss[0], if |ss| == 1 then [[]] else ss[1..])
  }

  /** Nothing lies beyond the first stretch. */
  predicate AllInReach(ss: seq<Bytes>)
    requires ss != []
  {
    Concat(ss[1..]) == []
  }

  lemma OneStretch(s: Bytes)
    ensures [s][1..] == [] && Concat([s]) == s
  {
  }

  /** Whatever the stretches, a read loses nothing and changes nothing. */
  lemma ReadConserves(ss: seq<Bytes>, length: Option<nat>)
    requires ss != []
    ensures var r := ReadFrom(ss, length); r.data + Concat(r.left) == Concat(ss) && r.data <= ss[0]
  {
    var r := ReadFrom(ss, length);
    FirstStretch(ss);
    FirstStretch(r.left);
    hide Concat;
    if length.Some? && length.value <= |ss[0]| {
      var n := length.value;
      Assoc(ss[0][..n], ss[0][n..], Concat(ss[1..]));
      assert ss[0][..n] + ss[0][n..] == ss[0];
      assert r.left[1..] == ss[1..];
    } else if |ss| == 1 {
      assert ss[1..] == [];
      OneStretch([]);
    }
  }

  lemma FirstStretch(ss: seq<Bytes>)
    requires ss != []
    ensures Concat(ss) == ss[0] + Concat(ss[1..])
    ensures |ss| == 1 ==> Concat(ss[1..]) == []
  {
  }

  /** A read is as long as it could be exactly when its stretch is long enough or is the last with data. */
  lemma FullReadIff(ss: seq<Bytes>, n: nat)
    requires ss != []
    ensures |ReadFrom(ss, Some(n)).data| == Min(n, |Concat(ss)|) <==> n <= |ss[0]| || AllInReach(ss)
  {
    assert |Concat(ss)| == |ss[0]| + |Concat(ss[1..])|;
  }

  /** With nothing out of reach reads are those of a plain file, and nothing gets out of reach. */
  lemma ExactReads(ss: seq<Bytes>, length: Option<nat>)
    requires ss != [] && AllInReach(ss)
    ensures var r := ReadFrom(ss, length);
      && AllInReach(r.left)
      && r.data == (if length.None? then Concat(ss) else Front(Concat(ss), length.value))
      && Concat(r.left) == Back(Concat(ss), |r.data|)
  {
    var r := ReadFrom(ss, length);
    ReadConserves(ss, length);
    assert Concat(ss) == ss[0] + [] == ss[0];
    if length.Some? && length.value <= |ss[0]| {
      assert r.left[1..] == ss[1..];
    } else if |ss| > 1 {
      assert Concat(ss[1..]) == ss[1..][0] + Concat(ss[1..][1..]);
    } else {
      OneStretch([]);
    }
  }

  /** Reading past the bytes at hand: what the continued read returns is appended to them. */
  lemma ReadOn(head: Bytes, ss: seq<Bytes>, length: Option<nat>)
    requires ss != [] && (length.Some? ==> length.value > |head|)
    ensures var more := ReadFrom(ss, if length.None? then None else Some(length.value - |head|));
      ReadFrom([head + ss[0]] + ss[1..], length) == Reading(head + more.data, more.left)
  {
    var all := [head + ss[0]] + ss[1..];
    assert all[1..] == ss[1..];
    if length.Some? && length.value - |head| <= |ss[0]| {
      assert all[0][length.value..] == ss[0][length.value - |head|..];
      assert all[0][..length.value] == head + ss[0][..length.value - |head|];
    } else {
      assert |all| == 1 <==> |ss| == 1;
    }
  }

  // ----- Files -----

  /** An operating system file: bytes and a position. */
  class ByteFile {
    const data: Bytes
    var pos: nat

    constructor (data: Bytes)
      ensures this.data == data && pos == 0
    {
      this.data := data;
      pos := 0;
    }

    ghost function Remaining(): Bytes
      reads this
    {
      Back(data, pos)
    }

    method Read(length: nat) returns (r: Bytes)
      modifies this
      ensures r == Front(old(Remaining()), length) && Remaining() == Back(old(Remaining()), length)
      ensures Reading(r, [Remaining()]) == ReadFrom([old(Remaining())], Some(length))
    {
      r := Front(Back(data, pos), length);
      pos := pos + |r|;
      assert [old(Remaining())][1..] == [];
    }
  }

  // ----- PBZX streams -----

  /** The stretches that `head` and some chunks make up: each empty chunk begins another. */
  function Stretches(head: Bytes, chunks: seq<Bytes>): (r: seq<Bytes>)
    ensures r != []
    decreases |chunks|
  {
    if chunks == [] then [head]
    else if chunks[0] == [] then [head] + Stretches([], chunks[1..])
    else Stretches(head + chunks[0], chunks[1..])
  }

  /** The stretches of a stream that is opened on some chunks: the first chunk may be empty. */
  function Opened(chunks: seq<Bytes>): (r: seq<Bytes>)
    ensures r != []
  {
    if chunks == [] then [[]] else Stretches(chunks[0], chunks[1..])
  }

  lemma {:induction false} StretchesPrepend(h: Bytes, head: Bytes, chunks: seq<Bytes>)
    ensures Stretches(h + head, chunks) == [h + Stretches(head, chunks)[0]] + Stretches(head, chunks)[1..]
    decreases |chunks|
  {
    if chunks != [] && chunks[0] != [] {
      Assoc(h, head, chunks[0]);
      StretchesPrepend(h, head + chunks[0], chunks[1..]);
    }
  }

  /** However they are divided, the stretches are the chunks' bytes. */
  lemma {:induction false} StretchesConcat(head: Bytes, chunks: seq<Bytes>)
    ensures Concat(Stretches(head, chunks)) == head + Concat(chunks)
    decreases |chunks|
  {
    if chunks == [] {
      assert [head][1..] == [] && head + [] == head;
    } else if chunks[0] == [] {
      StretchesConcat([], chunks[1..]);
      assert ([head] + Stretches([], chunks[1..]))[1..] == Stretches([], chunks[1..]);
      assert chunks[0] + Concat(chunks[1..]) == [] + Concat(chunks[1..]) == Concat(chunks[1..]);
    } else {
      StretchesConcat(head + chunks[0], chunks[1..]);
      Assoc(head, chunks[0], Concat(chunks[1..]));
    }
  }

  lemma OpenedConcat(chunks: seq<Bytes>)
    ensures Concat(Opened(chunks)) == Concat(chunks)
  {
    if chunks != [] {
      StretchesConcat(chunks[0], chunks[1..]);
    } else {
      OneStretch([]);
    }
  }

  /** Nothing but empty chunks follow the first empty chunk. */
  predicate EmptyOnlyAtEnd(chunks: seq<Bytes>) {
    forall i, j :: 0 <= i < j < |chunks| && chunks[i] == [] ==> chunks[j] == []
  }

  lemma {:induction false} ConcatEmpty(chunks: seq<Bytes>)
    ensures Concat(chunks) == [] <==> forall k :: 0 <= k < |chunks| ==> chunks[k] == []
  {
    if chunks != [] {
      ConcatEmpty(chunks[1..]);
      assert forall k :: 0 < k < |chunks| ==> chunks[k] == chunks[1..][k - 1];
      assert forall k :: 0 <= k < |chunks[1..]| ==> chunks[1..][k] == chunks[k + 1];
    }
  }

  /** Everything is in reach exactly when the chunks to come are empty only at their end. */
  lemma {:induction false} InReachIff(head: Bytes, chunks: seq<Bytes>)
    ensures AllInReach(Stretches(head, chunks)) <==> EmptyOnlyAtEnd(chunks)
    decreases |chunks|
  {
    if chunks != [] {
      var rest := chunks[1..];
      assert forall k :: 0 <= k < |rest| ==> rest[k] == chunks[k + 1];
      assert forall k :: 0 < k < |chunks| ==> chunks[k] == rest[k - 1];
      if chunks[0] == [] {
        assert ([head] + Stretches([], rest))[1..] == Stretches([], rest);
        StretchesConcat([], rest);
        assert [] + Concat(rest) == Concat(rest);
        ConcatEmpty(rest);
      } else {
        InReachIff(head + chunks[0], rest);
      }
    }
  }

  /** The decompressed PBZX payload, served chunk by chunk. */
  class Pbzx {
    var chunkGetter: seq<Bytes>
    var offset: nat
    var chunk: Bytes

    ghost predicate Valid()
      reads this
    {
      offset <= |chunk|
    }

    ghost function Ahead(): (ss: seq<Bytes>)
      requires Valid()
      reads this
      ensures ss != []
    {
      Stretches(chunk[offset..], chunkGetter)
    }

    /** Everything still ahead of the cursor. */
    ghost function Remaining(): Bytes
      requires Valid()
      reads this
    {
      Concat(Ahead())
    }

    /** The part of it that one read can return. */
    ghost function Reachable(): Bytes
      requires Valid()
      reads this
    {
      Ahead()[0]
    }

    /** One read can reach every byte exactly when no data follows an empty chunk that is still to come. */
    lemma ReachesAllIff()
      requires Valid()
      ensures Reachable() == Remaining() <==> EmptyOnlyAtEnd(chunkGetter)
    {
      hide Stretches, EmptyOnlyAtEnd;
      InReachIff(chunk[offset..], chunkGetter);
      var ss := Ahead();
      assert Concat(ss) == ss[0] + Concat(ss[1..]);
      assert |Concat(ss)| == |ss[0]| + |Concat(ss[1..])|;
    }

    constructor (chunks: seq<Bytes>)
      ensures Valid() && Ahead() == Opened(chunks)
      ensures Remaining() == Concat(chunks)
      ensures Reachable() == Remaining() <==> chunks == [] || EmptyOnlyAtEnd(chunks[1..])
    {
      hide EmptyOnlyAtEnd;
      chunkGetter := chunks;
      offset := 0;
      chunk := [];
      new;
      InitOneChunk();
      OpenedConcat(chunks);
      ReachesAllIff();
      NoneAtAll();
    }

    method InitOneChunk()
      modifies this
      ensures Valid() && offset == 0
      ensures old(chunkGetter) == [] ==> chunk == [] && chunkGetter == []
      ensures old(chunkGetter) != [] ==> chunk == old(chunkGetter)[0] && chunkGetter == old(chunkGetter)[1..]
    {
      offset := 0;
      if chunkGetter == [] {
        chunk := [];
      } else {
        chunk, chunkGetter := chunkGetter[0], chunkGetter[1..];
      }
    }

    /**
      A read for any chunks at all; it is as long as it could be exactly when it ends in
      its stretch, or no data follows an empty chunk.
    */
    method Read(length: Option<nat>) returns (r: Bytes)
      requires Valid()
      modifies this
      ensures Valid() && Reading(r, Ahead()) == ReadFrom(old(Ahead()), length)
      ensures r + Remaining() == old(Remaining())
      ensures length.Some? ==>
        (|r| == Min(length.value, |old(Remaining())|)
         <==> length.value <= |old(Reachable())| || EmptyOnlyAtEnd(old(chunkGetter)))
      decreases |chunkGetter|
    {
      hide Stretches, ReadFrom, EmptyOnlyAtEnd, Concat;
      ghost var ss, head, chunks := Ahead(), chunk[offset..], chunkGetter;
      ReadConserves(ss, length);
      if length.Some? {
        FullReadIff(ss, length.value);
        InReachIff(head, chunks);
      }
      if length == Some(0) {
        ReadNothing(ss);
        return [];
      }
      if length.Some? && |chunk| >= offset + length.value {
        var start := offset;
        offset := offset + length.value;
        r := chunk[start..offset];
        ReadAtHand(r, chunk[offset..], chunks);
        assert head == r + chunk[offset..];
      } else {
        r := chunk[offset..];
        InitOneChunk();
        NextStretches(head, chunks);
        assert chunk[0..] == chunk;
        if chunk != [] {
          ghost var next := Ahead();
          var more := Read(if length.None? then None else Some(length.value - |r|));
          ReadOn(head, next, length);
          r := r + more;
        } else {
          ReadLast(head, chunks, length);
        }
      }
    }
  }

  lemma NoneAtAll()
    ensures EmptyOnlyAtEnd([])
  {
  }

  lemma ReadNothing(ss: seq<Bytes>)
    requires ss != []
    ensures ReadFrom(ss, Some(0)) == Reading([], ss)
  {
    assert [ss[0][0..]] + ss[1..] == ss;
  }

  lemma ReadAtHand(r: Bytes, rest: Bytes, chunks: seq<Bytes>)
    ensures ReadFrom(Stretches(r + rest, chunks), Some(|r|)) == Reading(r, Stretches(rest, chunks))
  {
    hide Stretches;
    StretchesPrepend(r, rest, chunks);
    var ss := Stretches(rest, chunks);
    assert (r + ss[0])[..|r|] == r && (r + ss[0])[|r|..] == ss[0];
    assert ([r + ss[0]] + ss[1..])[1..] == ss[1..] && [ss[0]] + ss[1..] == ss;
  }

  lemma NextStretches(head: Bytes, chunks: seq<Bytes>)
    ensures chunks != [] && chunks[0] != [] ==>
      var next := Stretches(chunks[0], chunks[1..]); Stretches(head, chunks) == [head + next[0]] + next[1..]
  {
    if chunks != [] && chunks[0] != [] {
      StretchesPrepend(head, chunks[0], chunks[1..]);
    }
  }

  /** A read that ends at an empty chunk, or at the end. */
  lemma ReadLast(head: Bytes, chunks: seq<Bytes>, length: Option<nat>)
    requires (length.Some? ==> length.value > |head|) && (chunks == [] || chunks[0] == [])
    ensures ReadFrom(Stretches(head, chunks), length)
         == Reading(head, Stretches([], if chunks == [] then [] else chunks[1..]))
  {
    if chunks != [] {
      var next := Stretches([], chunks[1..]);
      assert ([head] + next)[1..] == next;
    }
  }

  // ----- Windows -----

  /** What `Take` may wrap. */
  datatype FileObj = OnFile(file: ByteFile) | OnPbzx(pbzx: Pbzx) {
    function Handle(): object {
      match this
      case OnFile(f) => f
      case OnPbzx(p) => p
    }

    ghost predicate Valid()
      reads Handle()
    {
      OnPbzx? ==> pbzx.Valid()
    }

    ghost function Ahead(): (ss: seq<Bytes>)
      requires Valid()
      reads Handle()
      ensures ss != []
    {
      match this
      case OnFile(f) => [f.Remaining()]
      case OnPbzx(p) => p.Ahead()
    }

    method Read(length: nat) returns (r: Bytes)
      requires Valid()
      modifies Handle()
      ensures Valid() && Reading(r, Ahead()) == ReadFrom(old(Ahead()), Some(length))
    {
      match this
      case OnFile(f) => r := f.Read(length);
      case OnPbzx(p) => r := p.Read(Some(length));
    }
  }

  /** At most `limit` more bytes of some stretches. */
  datatype Window = Window(ss: seq<Bytes>, limit: nat) {
    predicate Valid() {
      ss != []
    }

    /** The bytes of the window, if reads were of full length. */
    function Whole(): Bytes {
      Front(Concat(ss), limit)
    }

    /** What lies behind the window. */
    function Behind(): Bytes {
      Back(Concat(ss), limit)
    }
  }

  /** What a read through a window gives, and the window it leaves. */
  datatype Viewing = Viewing(data: Bytes, w: Window)

  function View(w: Window, length: Option<nat>): (v: Viewing)
    requires w.Valid()
    ensures v.w.Valid() && |v.data| <= w.limit && v.w.limit == w.limit - |v.data|
  {
    var r := ReadFrom(w.ss, Some(if length.None? then w.limit else Min(length.value, w.limit)));
    Viewing(r.data, Window(r.left, w.limit - |r.data|))
  }

  /** The window lies in the first stretch with `slack` bytes to spare, or nothing is out of reach. */
  predicate Inside(w: Window, slack: nat)
    requires w.Valid()
  {
    AllInReach(w.ss) || w.limit + slack <= |w.ss[0]|
  }

  /** A read inside a window gives its front, and moves neither its end nor what is behind it. */
  lemma ViewInside(w: Window, length: Option<nat>, slack: nat)
    requires w.Valid() && Inside(w, slack)
    ensures var v := View(w, length);
      && Inside(v.w, slack) && v.w.Behind() == w.Behind() && v.data + v.w.Whole() == w.Whole()
      && v.data == (if length.None? then w.Whole() else Front(w.Whole(), length.value))
  {
    hide ReadFrom, Concat, AllInReach;
    var want := if length.None? then w.limit else Min(length.value, w.limit);
    var r := ReadFrom(w.ss, Some(want));
    ReadInside(w.ss, want, w.limit, slack);
    WindowMoves(Concat(w.ss), w.limit, r.data, Concat(r.left));
    FrontOfFront(Concat(w.ss), w.limit, want);
  }

  /** A read of no more than lies in the first stretch, or of anything when all lies there. */
  lemma ReadInside(ss: seq<Bytes>, want: nat, limit: nat, slack: nat)
    requires ss != [] && want <= limit && (AllInReach(ss) || limit + slack <= |ss[0]|)
    ensures var r := ReadFrom(ss, Some(want));
      && r.left != [] && r.data == Front(Concat(ss), want) && Concat(ss) == r.data + Concat(r.left)
      && |r.data| <= want && (AllInReach(r.left) || limit - |r.data| + slack <= |r.left[0]|)
  {
    var r := ReadFrom(ss, Some(want));
    ReadConserves(ss, Some(want));
    if AllInReach(ss) {
      ExactReads(ss, Some(want));
    } else {
      FrontOfFirst(ss, want);
    }
  }

  lemma FrontOfFront(s: Bytes, limit: nat, n: nat)
    requires n <= limit
    ensures Front(Front(s, limit), n) == Front(s, n)
  {
  }

  lemma FrontOfFirst(ss: seq<Bytes>, n: nat)
    requires ss != [] && n <= |ss[0]|
    ensures Front(Concat(ss), n) == ss[0][..n]
  {
  }

  lemma WindowMoves(s: Bytes, limit: nat, data: Bytes, s': Bytes)
    requires s == data + s' && |data| <= limit
    ensures Back(s', limit - |data|) == Back(s, limit) && data + Front(s', limit - |data|) == Front(s, limit)
  {
  }

  lemma ViewReads(w: Window, length: Option<nat>)
    requires w.Valid()
    ensures var v := View(w, length);
      var r := ReadFrom(w.ss, Some(if length.None? then w.limit else Min(length.value, w.limit)));
      v == Viewing(r.data, Window(r.left, w.limit - |r.data|)) && |r.data| <= w.limit
  {
  }

  /** With nothing out of reach a view is the window's front. */
  lemma ExactView(w: Window, length: Option<nat>)
    requires w.Valid() && AllInReach(w.ss)
    ensures var v := View(w, length);
      && AllInReach(v.w.ss) && v.data + v.w.Whole() == w.Whole()
      && v.data == (if length.None? then w.Whole() else Front(w.Whole(), length.value))
  {
    ViewInside(w, length, 0);
    ExactReads(w.ss, Some(if length.None? then w.limit else Min(length.value, w.limit)));
  }

  /** A window that allows to read at most `limit` more bytes of a file object. */
  class Take {
    const fileobj: FileObj
    var limit: nat

    constructor (fileobj: FileObj, limit: nat)
      ensures this.fileobj == fileobj && this.limit == limit
    {
      this.fileobj := fileobj;
      this.limit := limit;
    }

    ghost predicate Valid()
      reads this, fileobj.Handle()
    {
      fileobj.Valid()
    }

    ghost function Contents(): (w: Window)
      requires Valid()
      reads this, fileobj.Handle()
      ensures w.Valid()
    {
      Window(fileobj.Ahead(), limit)
    }

    /** Nothing of the file object is out of reach. */
    ghost predicate Exact()
      requires Valid()
      reads this, fileobj.Handle()
    {
      AllInReach(fileobj.Ahead())
    }

    ghost function Remaining(): Bytes
      requires Valid()
      reads this, fileobj.Handle()
    {
      Contents().Whole()
    }

    method Read(length: Option<nat>) returns (r: Bytes)
      requires Valid()
      modifies this`limit, fileobj.Handle()
      ensures Valid() && Viewing(r, Contents()) == View(old(Contents()), length)
      ensures limit == old(limit) - |r|
      ensures old(Exact()) ==> Exact() && r + Remaining() == old(Remaining())
      ensures old(Exact()) && length.None? ==> r == old(Remaining())
      ensures old(Exact()) && length.Some? ==> r == Front(old(Remaining()), length.value)
    {
      hide View, ReadFrom, AllInReach, Window.Whole;
      ghost var w := Contents();
      ViewReads(w, length);
      if AllInReach(w.ss) {
        ExactView(w, length);
      }
      var want := if length.None? then limit else Min(length.value, limit);
      r := fileobj.Read(want);
      limit := limit - |r|;
    }
  }

  /** The buffer size Python's io module reads with. */
  const DEFAULT_BUFFER_SIZE: nat := 8192

  /**
    A streaming decompressor, given by the total output it has produced after each
    input prefix: output once produced is never taken back.
  */
  ghost predicate Streaming(inflate: Bytes -> Bytes) {
    forall p: Bytes, q: Bytes :: Extends(inflate, p, q)
  }

  ghost predicate Extends(inflate: Bytes -> Bytes, p: Bytes, q: Bytes) {
    inflate(p) <= inflate(p + q)
  }

  /** The output a decompressor fed with `fed` produces when `data` follows. */
  ghost function Output(inflate: Bytes -> Bytes, fed: Bytes, data: Bytes): Bytes {
    Back(inflate(fed + data), |inflate(fed)|)
  }

  lemma OutputSplits(inflate: Bytes -> Bytes, fed: Bytes, data: Bytes, ahead: Bytes)
    requires Streaming(inflate)
    ensures Output(inflate, fed, data + ahead)
         == Output(inflate, fed, data) + Output(inflate, fed + data, ahead)
  {
    assert fed + (data + ahead) == (fed + data) + ahead;
    var all := inflate((fed + data) + ahead);
    assert Extends(inflate, fed, data) && Extends(inflate, fed + data, ahead);
  }

  lemma OutputNothing(inflate: Bytes -> Bytes, fed: Bytes)
    ensures Output(inflate, fed, []) == []
  {
    assert fed + [] == fed;
  }

  class ZlibFile {
    const fileobj: Take
    const inflate: Bytes -> Bytes
    // The state of the decompression object: the compressed bytes it was fed.
    var fed: Bytes
    var buf: Bytes

    constructor (fileobj: Take, inflate: Bytes -> Bytes)
      requires fileobj.Valid() && fileobj.Exact() && Streaming(inflate)
      ensures this.fileobj == fileobj && this.inflate == inflate
      ensures Valid()
      ensures Remaining() == Back(inflate(fileobj.Remaining()), |inflate([])|)
    {
      this.fileobj := fileobj;
      this.inflate := inflate;
      fed := [];
      buf := [];
      new;
      assert [] + fileobj.Remaining() == fileobj.Remaining();
    }

    ghost predicate Valid()
      reads fileobj, fileobj.fileobj.Handle()
    {
      fileobj.Valid() && fileobj.Exact() && Streaming(inflate)
    }

    /** Everything the decompressor will still output for the bytes left in the file. */
    ghost function Ahead(): Bytes
      requires fileobj.Valid()
      reads this`fed, fileobj, fileobj.fileobj.Handle()
    {
      Output(inflate, fed, fileobj.Remaining())
    }

    ghost function Remaining(): Bytes
      requires fileobj.Valid()
      reads this, fileobj, fileobj.fileobj.Handle()
    {
      buf + Ahead()
    }

    /** The new output for a block of input, given what the decompressor was fed before. */
    function Decompress(before: Bytes, data: Bytes): (r: Bytes)
      requires Streaming(inflate)
      ensures r == Output(inflate, before, data)
    {
      assert Extends(inflate, before, data);
      inflate(before + data)[|inflate(before)|..]
    }

    /** Decompresses the next block of the file, if there is one. */
    method NextOutput() returns (eof: bool, out: Bytes)
      requires Valid()
      modifies this`fed, fileobj`limit, fileobj.fileobj.Handle()
      ensures Valid()
      ensures out + Ahead() == old(Ahead())
      ensures if eof then out == Ahead() == [] else |fileobj.Remaining()| < old(|fileobj.Remaining()|)
    {
      ghost var ahead := fileobj.Remaining();
      var data := fileobj.Read(Some(DEFAULT_BUFFER_SIZE));
      ghost var rest := fileobj.Remaining();
      assert data + rest == ahead;
      eof := data == [];
      out := [];
      if eof {
        OutputNothing(inflate, fed);
      } else {
        OutputSplits(inflate, fed, data, rest);
        out := Decompress(fed, data);
        fed := fed + data;
      }
    }

    /** One turn of the loop of `Read`, with `got` the result so far. */
    method Fill(got: Bytes, length: nat) returns (eof: bool, r: Bytes)
      requires Valid() && |got| < length && buf == []
      modifies this, fileobj`limit, fileobj.fileobj.Handle()
      ensures Valid() && r + Remaining() == got + old(Remaining())
      ensures |r| <= length && (|r| < length ==> buf == [])
      ensures if eof then r == got && Remaining() == [] else |fileobj.Remaining()| < old(|fileobj.Remaining()|)
    {
      hide Output, Streaming, Front, Back, ReadFrom;
      ghost var all := got + Remaining();
      var out;
      eof, out := NextOutput();
      if eof {
        return eof, got;
      }
      var cutoff := Min(length - |got|, |out|);
      SplitBlock(got, out, cutoff, Ahead(), all);
      r := got + out[..cutoff];
      buf := buf + out[cutoff..];
    }

    method Read(length: nat) returns (r: Bytes)
      requires Valid()
      modifies this, fileobj`limit, fileobj.fileobj.Handle()
      ensures Valid()
      ensures r == Front(old(Remaining()), length)
      ensures Remaining() == Back(old(Remaining()), |r|)
      ensures |r| < length ==> buf == []
    {
      hide Output, Streaming, Front, Back, ReadFrom;
      ghost var before := Remaining();
      var cutoff := Min(length, |buf|);
      Assoc(buf[..cutoff], buf[cutoff..], Ahead());
      assert buf == buf[..cutoff] + buf[cutoff..];
      r := buf[..cutoff];
      buf := buf[cutoff..];
      while |r| < length
        invariant Valid()
        invariant r + Remaining() == before
        invariant |r| <= length
        invariant |r| < length ==> buf == []
        decreases |fileobj.Remaining()|
      {
        var eof;
        eof, r := Fill(r, length);
        if eof {
          break;
        }
      }
      FrontOfParts(r, Remaining(), length);
    }
  }

  lemma SplitBlock<T>(a: seq<T>, block: seq<T>, cut: nat, b: seq<T>, all: seq<T>)
    requires cut <= |block|
    requires a + ([] + (block + b)) == all
    ensures [] + block[cut..] == block[cut..]
    ensures (a + block[..cut]) + (block[cut..] + b) == all
    ensures cut == |block| ==> block[cut..] == []
    ensures |a + block[..cut]| == |a| + cut
  {
    var front, back := block[..cut], block[cut..];
    assert [] + (block + b) == block + b;
    assert block == front + back;
    Assoc(front, back, b);
    Assoc(a, front, back + b);
  }

  lemma FrontOfParts<T>(a: seq<T>, b: seq<T>, n: nat)
    requires |a| == n || (|a| < n && b == [])
    ensures Front(a + b, n) == a && Back(a + b, |a|) == b
  {
  }
}

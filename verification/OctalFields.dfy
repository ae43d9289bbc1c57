/** Octal numbers in the fields of a header: `int(field, 8)`, and fields that read as a number. */
module OctalFields {
  import opened ByteStrings
  import opened Wrappers

  const ZERO: Byte := 0x30
  const PLUS: Byte := 0x2b
  const MINUS: Byte := 0x2d
  const UNDERSCORE: Byte := 0x5f

  // ----- Reading -----

  predicate IsBlank(b: Byte) {
    b == 0x20 || 0x09 <= b <= 0x0d
  }

  predicate IsOctal(b: Byte) {
    0x30 <= b < 0x38
  }

  function LeftStrip(s: Bytes): Bytes {
    if s != [] && IsBlank(s[0]) then LeftStrip(s[1..]) else s
  }

  function RightStrip(s: Bytes): Bytes {
    if s != [] && IsBlank(s[|s| - 1]) then RightStrip(s[..|s| - 1]) else s
  }

  /** The prefix "0o", in either case, may have one underscore after it. */
  function AfterPrefix(s: Bytes): Bytes {
    if |s| >= 2 && s[0] == ZERO && (s[1] == 0x6f || s[1] == 0x4f) then
      (if |s| > 2 && s[2] == UNDERSCORE then s[3..] else s[2..])
    else s
  }

  /** Octal digits, which may have single underscores between them. */
  function Digits(s: Bytes): Option<seq<nat>>
    decreases |s|
  {
    if s == [] || !IsOctal(s[0]) then None
    else if |s| == 1 then Some([(s[0] - ZERO) as nat])
    else
      match Digits(if s[1] == UNDERSCORE then s[2..] else s[1..])
      case None => None
      case Some(ds) => Some([(s[0] - ZERO) as nat] + ds)
  }

  /** `int(s, 8)`; nothing stands for the error. */
  function ReadInt(s: Bytes): Option<int> {
    var t := RightStrip(LeftStrip(s));
    var signed := t != [] && (t[0] == PLUS || t[0] == MINUS);
    match Digits(AfterPrefix(if signed then t[1..] else t))
    case None => None
    case Some(ds) =>
      var n: int := FromDigits(8, ds);
      Some(if signed && t[0] == MINUS then -n else n)
  }

  /** The number in a field that gives a size or a mode; one below zero is refused. */
  function ParseOctal(s: Bytes): Option<nat> {
    match ReadInt(s)
    case None => None
    case Some(n) => if n < 0 then None else Some(n)
  }

  // ----- Writing -----

  predicate OctalDigits(s: Bytes) {
    forall k :: 0 <= k < |s| ==> IsOctal(s[k])
  }

  function DigitValues(s: Bytes): (r: seq<nat>)
    requires OctalDigits(s)
    ensures |r| == |s| && forall k :: 0 <= k < |s| ==> r[k] == s[k] - 0x30
  {
    if s == [] then [] else [s[0] - 0x30] + DigitValues(s[1..])
  }

  function Ascii(digits: seq<nat>): (r: Bytes)
    requires forall k :: 0 <= k < |digits| ==> digits[k] < 8
    ensures |r| == |digits| && forall k :: 0 <= k < |digits| ==> r[k] == digits[k] + 0x30
  {
    if digits == [] then [] else [digits[0] + 0x30] + Ascii(digits[1..])
  }

  /** A number as the standard has it written: digits only, with zeros in front. */
  function PackOctal(n: nat, width: nat): (r: Bytes)
    ensures |r| == width && OctalDigits(r)
  {
    Ascii(ToDigits(8, n, width))
  }

  predicate Blanks(s: Bytes) {
    forall k :: 0 <= k < |s| ==> IsBlank(s[k])
  }

  lemma {:induction false} LeftStripBlanks(pre: Bytes, s: Bytes)
    requires Blanks(pre) && (s == [] || !IsBlank(s[0]))
    ensures LeftStrip(pre + s) == s
  {
    if pre == [] {
      assert pre + s == s;
    } else {
      assert (pre + s)[1..] == pre[1..] + s;
      LeftStripBlanks(pre[1..], s);
    }
  }

  lemma {:induction false} RightStripBlanks(s: Bytes, post: Bytes)
    requires Blanks(post) && (s == [] || !IsBlank(s[|s| - 1]))
    ensures RightStrip(s + post) == s
  {
    if post == [] {
      assert s + post == s;
    } else {
      assert (s + post)[..|s + post| - 1] == s + post[..|post| - 1];
      RightStripBlanks(s, post[..|post| - 1]);
    }
  }

  lemma {:induction false} PlainDigits(s: Bytes)
    requires s != [] && OctalDigits(s)
    ensures Digits(s) == Some(DigitValues(s))
  {
    if |s| > 1 {
      assert IsOctal(s[1]);
      PlainDigits(s[1..]);
    } else {
      assert DigitValues(s) == [(s[0] - ZERO) as nat];
    }
  }

  /** Digits read as their number, with any blanks around them and a plus sign or none. */
  lemma DigitsRead(pre: Bytes, s: Bytes, post: Bytes)
    requires s != [] && OctalDigits(s) && Blanks(pre) && Blanks(post)
    ensures ReadInt(pre + (s + post)) == ReadInt(pre + ([PLUS] + s + post)) == Some(FromDigits(8, DigitValues(s)))
  {
    hide FromDigits, Digits, DigitValues, LeftStrip, RightStrip;
    assert IsOctal(s[0]) && IsOctal(s[|s| - 1]) && (|s| > 1 ==> IsOctal(s[1]));
    LeftStripBlanks(pre, s + post);
    RightStripBlanks(s, post);
    LeftStripBlanks(pre, [PLUS] + s + post);
    RightStripBlanks([PLUS] + s, post);
    PlainDigits(s);
    assert ([PLUS] + s)[1..] == s;
  }

  /** A number written with enough digits reads back. */
  lemma PackThenParse(n: nat, width: nat)
    requires width > 0 && n < Pow(8, width)
    ensures ReadInt(PackOctal(n, width)) == Some(n) && ParseOctal(PackOctal(n, width)) == Some(n)
  {
    hide FromDigits, ToDigits, Ascii, DigitValues, Pow, ReadInt;
    var s := PackOctal(n, width);
    assert DigitValues(s) == ToDigits(8, n, width);
    FromToDigits(8, n, width);
    DigitsRead([], s, []);
    assert [] + (s + []) == s;
  }

  /** A field of digits only is the standard's way to write its number. */
  lemma ParseThenPack(s: Bytes)
    requires s != [] && OctalDigits(s)
    ensures ParseOctal(s).Some? && ParseOctal(s).value < Pow(8, |s|)
    ensures PackOctal(ParseOctal(s).value, |s|) == s
  {
    hide FromDigits, ToDigits, Ascii, DigitValues, Pow, ReadInt;
    var digits := DigitValues(s);
    DigitsRead([], s, []);
    assert [] + (s + []) == s;
    assert forall k :: 0 <= k < |s| ==> IsOctal(s[k]) && digits[k] < 8;
    ToFromDigits(8, digits);
    assert Ascii(digits) == s;
  }
}

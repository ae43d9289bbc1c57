/** Every way to spell an octal number in a field: `int(field, 8)` takes exactly these. */
module OctalSpellings {
  import opened ByteStrings
  import opened OctalFields
  import opened Wrappers

  /** Octal digits with single underscores between them. */
  predicate IsBody(s: Bytes) {
    && s != [] && IsOctal(s[0]) && IsOctal(s[|s| - 1])
    && (forall k :: 0 <= k < |s| ==> IsOctal(s[k]) || s[k] == UNDERSCORE)
    && forall k :: 0 <= k < |s| - 1 ==> IsOctal(s[k]) || IsOctal(s[k + 1])
  }

  /** The digits in their order. */
  function Plain(s: Bytes): (r: Bytes)
    ensures OctalDigits(r)
  {
    if s == [] then [] else (if IsOctal(s[0]) then [s[0]] else []) + Plain(s[1..])
  }

  predicate IsSign(s: Bytes) {
    s == [] || s == [PLUS] || s == [MINUS]
  }

  /** "0o" or "0O", which one underscore may follow. */
  predicate IsPrefix(s: Bytes) {
    s == [] || (2 <= |s| <= 3 && s[0] == ZERO && (s[1] == 0x6f || s[1] == 0x4f) && (|s| == 3 ==> s[2] == UNDERSCORE))
  }

  // ----- Digits -----

  lemma PlainNext(s: Bytes)
    requires s != [] && IsOctal(s[0])
    ensures Plain(s) == [s[0]] + Plain(s[1..])
    ensures DigitValues(Plain(s)) == [(s[0] - ZERO) as nat] + DigitValues(Plain(s[1..]))
    ensures |s| > 1 && s[1] == UNDERSCORE ==> Plain(s[1..]) == Plain(s[2..])
  {
    assert Plain(s)[1..] == Plain(s[1..]);
    if |s| > 1 && s[1] == UNDERSCORE {
      assert s[1..][1..] == s[2..];
    }
  }

  lemma BodyNext(s: Bytes)
    requires |s| > 1
    ensures IsBody(s) <==> IsOctal(s[0]) && if s[1] == UNDERSCORE then IsBody(s[2..]) else IsBody(s[1..])
  {
    var rest := if s[1] == UNDERSCORE then s[2..] else s[1..];
    var d := |s| - |rest|;
    assert forall k :: 0 <= k < |rest| ==> rest[k] == s[k + d];
    if IsBody(s) && s[1] == UNDERSCORE {
      assert IsOctal(s[1]) || IsOctal(s[1 + 1]);
    }
    if IsOctal(s[0]) && IsBody(rest) {
      BodyLonger(s, rest, d);
    }
  }

  lemma BodyLonger(s: Bytes, rest: Bytes, d: nat)
    requires |s| > 1 && IsOctal(s[0]) && 1 <= d <= 2 <= |s| && rest == s[d..] && IsBody(rest)
    requires d == 2 ==> s[1] == UNDERSCORE
    ensures IsBody(s)
  {
    assert forall k :: d <= k < |s| ==> s[k] == rest[k - d];
    forall k | 0 <= k < |s| - 1
      ensures IsOctal(s[k]) || IsOctal(s[k + 1])
    {
      if k >= d {
        assert IsOctal(rest[k - d]) || IsOctal(rest[k - d + 1]);
      }
    }
  }

  lemma {:induction false} DigitsIff(s: Bytes)
    ensures Digits(s) == if IsBody(s) then Some(DigitValues(Plain(s))) else None
    decreases |s|
  {
    if s == [] || !IsOctal(s[0]) {
    } else if |s| == 1 {
      PlainNext(s);
      assert s[1..] == [] && DigitValues([]) == [];
      assert [(s[0] - ZERO) as nat] + [] == [(s[0] - ZERO) as nat];
    } else {
      var rest := if s[1] == UNDERSCORE then s[2..] else s[1..];
      DigitsIff(rest);
      BodyNext(s);
      PlainNext(s);
    }
  }

  // ----- The whole field -----

  /** How a field is spelled: sign, prefix and digits between blanks. */
  datatype Spelling = Spelling(pre: Bytes, sign: Bytes, prefix: Bytes, body: Bytes, post: Bytes) {
    predicate Valid() {
      Blanks(pre) && IsSign(sign) && IsPrefix(prefix) && IsBody(body) && Blanks(post)
    }

    function Text(): Bytes {
      pre + (sign + (prefix + body) + post)
    }

    function Number(): int {
      var n: int := FromDigits(8, DigitValues(Plain(body)));
      if sign == [MINUS] then -n else n
    }
  }

  lemma PrefixIsTaken(prefix: Bytes, body: Bytes)
    requires IsPrefix(prefix) && IsBody(body)
    ensures AfterPrefix(prefix + body) == body
    ensures prefix + body != [] && (prefix + body)[0] !in {PLUS, MINUS} && !IsBlank((prefix + body)[0])
  {
    var s := prefix + body;
    if prefix == [] {
      assert s == body;
      assert |s| > 1 ==> IsOctal(s[1]) || s[1] == UNDERSCORE;
    } else {
      assert s[|prefix|..] == body && s[|prefix|] == body[0];
    }
  }

  lemma SignIsTaken(sign: Bytes, rest: Bytes)
    requires IsSign(sign) && rest != [] && rest[0] !in {PLUS, MINUS} && !IsBlank(rest[0])
    ensures var t := sign + rest;
      var signed := t != [] && (t[0] == PLUS || t[0] == MINUS);
      && t != [] && !IsBlank(t[0]) && (signed <==> sign != []) && (if signed then t[1..] else t) == rest
      && (signed && t[0] == MINUS <==> sign == [MINUS])
  {
    if sign == [] {
      assert sign + rest == rest;
    } else {
      assert (sign + rest)[1..] == rest;
    }
  }

  lemma Stripped(pre: Bytes, t: Bytes, post: Bytes)
    requires Blanks(pre) && Blanks(post) && t != [] && !IsBlank(t[0]) && !IsBlank(t[|t| - 1])
    ensures RightStrip(LeftStrip(pre + (t + post))) == t
  {
    LeftStripBlanks(pre, t + post);
    RightStripBlanks(t, post);
  }

  /** A number spelled in any of these ways is read. */
  lemma SpelledIsRead(p: Spelling)
    requires p.Valid()
    ensures ReadInt(p.Text()) == Some(p.Number())
  {
    hide FromDigits, Digits, DigitValues, Plain, LeftStrip, RightStrip, AfterPrefix, IsPrefix, Blanks;
    var rest := p.prefix + p.body;
    PrefixIsTaken(p.prefix, p.body);
    SignIsTaken(p.sign, rest);
    var t := p.sign + rest;
    assert t[|t| - 1] == p.body[|p.body| - 1];
    Stripped(p.pre, t, p.post);
    DigitsIff(p.body);
  }

  lemma {:induction false} LeftBlanks(s: Bytes) returns (pre: Bytes)
    ensures Blanks(pre) && s == pre + LeftStrip(s)
  {
    if s != [] && IsBlank(s[0]) {
      pre := LeftBlanks(s[1..]);
      assert s == [s[0]] + s[1..];
      Assoc([s[0]], pre, LeftStrip(s[1..]));
      pre := [s[0]] + pre;
    } else {
      pre := [];
      assert [] + s == s;
    }
  }

  lemma {:induction false} RightBlanks(s: Bytes) returns (post: Bytes)
    ensures Blanks(post) && s == RightStrip(s) + post
  {
    if s != [] && IsBlank(s[|s| - 1]) {
      var n := |s| - 1;
      post := RightBlanks(s[..n]);
      assert s == s[..n] + [s[n]];
      Assoc(RightStrip(s[..n]), post, [s[n]]);
      post := post + [s[n]];
    } else {
      post := [];
      assert s + [] == s;
    }
  }

  lemma PrefixParts(s: Bytes) returns (prefix: Bytes)
    ensures IsPrefix(prefix) && s == prefix + AfterPrefix(s)
  {
    prefix := s[..|s| - |AfterPrefix(s)|];
  }

  lemma SignParts(t: Bytes) returns (sign: Bytes)
    ensures var signed := t != [] && (t[0] == PLUS || t[0] == MINUS);
      && IsSign(sign) && t == sign + (if signed then t[1..] else t) && (sign == [MINUS] <==> signed && t[0] == MINUS)
  {
    sign := if t != [] && (t[0] == PLUS || t[0] == MINUS) then [t[0]] else [];
  }

  /** Whatever is read is spelled in one of these ways. */
  lemma ReadIsSpelled(s: Bytes) returns (p: Spelling)
    requires ReadInt(s).Some?
    ensures p.Valid() && s == p.Text() && ReadInt(s) == Some(p.Number())
  {
    hide FromDigits, Digits, DigitValues, Plain, LeftStrip, RightStrip, AfterPrefix, IsPrefix, Blanks;
    var t := RightStrip(LeftStrip(s));
    var signed := t != [] && (t[0] == PLUS || t[0] == MINUS);
    var rest := if signed then t[1..] else t;
    var pre := LeftBlanks(s);
    var post := RightBlanks(LeftStrip(s));
    var sign := SignParts(t);
    var prefix := PrefixParts(rest);
    var body := AfterPrefix(rest);
    DigitsIff(body);
    p := Spelling(pre, sign, prefix, body, post);
    assert s == pre + (t + post) && t == sign + (prefix + body);
  }
}

/** The encoder's string rules: escaping, the test for text that may stay
    unquoted, the numeric-looking test, and the encoding of keys and string
    values. Letters, digits and word characters are the ASCII ones. */
module Quoting {
  import opened ToonValue
  import opened Text
  import opened Numbers
  import opened Scan
  import opened Primitive
  import opened Header

  // ---------------------------------------------------------------------------
  // `escaped`

  /** `replacingOccurrences(of:with:)` for a one-character pattern: every
      occurrence of `c` becomes `t`, everything else is kept. */
  function ReplaceChar(s: string, c: char, t: string): (r: string)
    ensures |t| >= 1 ==> |r| >= |s|
  {
    if s == [] then [] else (if s[0] == c then t else [s[0]]) + ReplaceChar(s[1..], c, t)
  }

  /** What the replacement holds: the characters of `s` other than `c`, and
      those of `t` when `c` occurred. */
  lemma {:induction false} ReplaceCharMembers(s: string, c: char, t: string)
    ensures forall x :: x in ReplaceChar(s, c, t) <==> (x in s && x != c) || (c in s && x in t)
  {
    if s != [] {
      ReplaceCharMembers(s[1..], c, t);
      assert forall x :: x in s <==> x == s[0] || x in s[1..];
    }
  }

  /** `escaped`: backslash first, then quote, newline, carriage return and tab. */
  function Escaped(s: string): (r: string)
    ensures '\n' !in r && '\r' !in r && '\t' !in r
    ensures |r| >= |s|
  {
    var a := ReplaceChar(s, '\\', "\\\\");
    var b := ReplaceChar(a, '"', "\\\"");
    var c := ReplaceChar(b, '\n', "\\n");
    var e := ReplaceChar(c, '\r', "\\r");
    ReplaceCharMembers(b, '\n', "\\n");
    ReplaceCharMembers(c, '\r', "\\r");
    ReplaceCharMembers(e, '\t', "\\t");
    ReplaceChar(e, '\t', "\\t")
  }

  /** Escaping adds no character other than a backslash and the letters of
      the escapes, and removes none but the escaped ones. */
  lemma EscapedKeeps(s: string, x: char)
    requires !IsSpecial(x) && x != 'n' && x != 'r' && x != 't'
    ensures x in Escaped(s) <==> x in s
  {
    var a := ReplaceChar(s, '\\', "\\\\");
    var b := ReplaceChar(a, '"', "\\\"");
    var c := ReplaceChar(b, '\n', "\\n");
    var e := ReplaceChar(c, '\r', "\\r");
    ReplaceCharMembers(s, '\\', "\\\\");
    ReplaceCharMembers(a, '"', "\\\"");
    ReplaceCharMembers(b, '\n', "\\n");
    ReplaceCharMembers(c, '\r', "\\r");
    ReplaceCharMembers(e, '\t', "\\t");
  }

  /** The escape of one character: the five special characters become a
      backslash and a letter or themselves, every other character is kept. */
  function EscapeOf(x: char): (r: string)
    ensures |r| == 1 <==> !IsSpecial(x)
  {
    if x == '\\' then "\\\\"
    else if x == '"' then "\\\""
    else if x == '\n' then "\\n"
    else if x == '\r' then "\\r"
    else if x == '\t' then "\\t"
    else [x]
  }

  predicate IsSpecial(x: char)
  {
    x == '\\' || x == '"' || x == '\n' || x == '\r' || x == '\t'
  }

  /** Character-by-character escaping. */
  function EscapeEach(s: string): (r: string)
    ensures |r| >= |s|
  {
    if s == [] then [] else EscapeOf(s[0]) + EscapeEach(s[1..])
  }

  lemma {:induction false} ReplaceCharAppend(a: string, b: string, c: char, t: string)
    ensures ReplaceChar(a + b, c, t) == ReplaceChar(a, c, t) + ReplaceChar(b, c, t)
  {
    if a == [] {
      assert a + b == b;
    } else {
      assert (a + b)[1..] == a[1..] + b;
      ReplaceCharAppend(a[1..], b, c, t);
    }
  }

  lemma ReplaceCharAbsent(s: string, c: char, t: string)
    requires c !in s
    ensures ReplaceChar(s, c, t) == s
  {
    if s != [] {
      assert c !in s[1..];
      ReplaceCharAbsent(s[1..], c, t);
    }
  }

  lemma ReplaceCharOne(c: char, t: string)
    ensures ReplaceChar([c], c, t) == t
  {
    assert [c][1..] == [];
  }

  lemma EscapedAppend(a: string, b: string)
    ensures Escaped(a + b) == Escaped(a) + Escaped(b)
  {
    var a1 := ReplaceChar(a, '\\', "\\\\");
    var b1 := ReplaceChar(b, '\\', "\\\\");
    ReplaceCharAppend(a, b, '\\', "\\\\");
    var a2 := ReplaceChar(a1, '"', "\\\"");
    var b2 := ReplaceChar(b1, '"', "\\\"");
    ReplaceCharAppend(a1, b1, '"', "\\\"");
    var a3 := ReplaceChar(a2, '\n', "\\n");
    var b3 := ReplaceChar(b2, '\n', "\\n");
    ReplaceCharAppend(a2, b2, '\n', "\\n");
    var a4 := ReplaceChar(a3, '\r', "\\r");
    var b4 := ReplaceChar(b3, '\r', "\\r");
    ReplaceCharAppend(a3, b3, '\r', "\\r");
    ReplaceCharAppend(a4, b4, '\t', "\\t");
  }

  /** The chain of replacements on a single character is its escape: a later
      replacement never touches what an earlier one inserted. */
  lemma EscapedOne(x: char)
    ensures Escaped([x]) == EscapeOf(x)
  {
    var a := ReplaceChar([x], '\\', "\\\\");
    if x == '\\' { ReplaceCharOne(x, "\\\\"); } else { ReplaceCharAbsent([x], '\\', "\\\\"); }
    var b := ReplaceChar(a, '"', "\\\"");
    if x == '"' { ReplaceCharOne(x, "\\\""); } else { ReplaceCharAbsent(a, '"', "\\\""); }
    var c := ReplaceChar(b, '\n', "\\n");
    if x == '\n' { ReplaceCharOne(x, "\\n"); } else { ReplaceCharAbsent(b, '\n', "\\n"); }
    var e := ReplaceChar(c, '\r', "\\r");
    if x == '\r' { ReplaceCharOne(x, "\\r"); } else { ReplaceCharAbsent(c, '\r', "\\r"); }
    if x == '\t' { ReplaceCharOne(x, "\\t"); } else { ReplaceCharAbsent(e, '\t', "\\t"); }
  }

  /** The five chained replacements escape each character on its own. */
  lemma {:induction false} EscapedIsEscapeEach(s: string)
    ensures Escaped(s) == EscapeEach(s)
  {
    if s == [] {
      assert Escaped(s) == [];
    } else {
      assert s == [s[0]] + s[1..];
      EscapedAppend([s[0]], s[1..]);
      EscapedOne(s[0]);
      EscapedIsEscapeEach(s[1..]);
    }
  }

  lemma UnescapeChunk(x: char, rest: string)
    ensures Unescape(EscapeOf(x) + rest) == Prepend([x], Unescape(rest))
  {
    var t := EscapeOf(x) + rest;
    if IsSpecial(x) {
      assert t[1..] == [t[1]] + rest;
      assert t[1..][1..] == rest;
    } else {
      assert t[1..] == rest;
    }
  }

  lemma {:induction false} UnescapeEscapeEach(s: string)
    ensures Unescape(EscapeEach(s)) == Ok(s)
  {
    if s != [] {
      UnescapeChunk(s[0], EscapeEach(s[1..]));
      UnescapeEscapeEach(s[1..]);
      assert [s[0]] + s[1..] == s;
    }
  }

  /** The decoder's unescaping undoes the encoder's escaping. */
  lemma UnescapeEscaped(s: string)
    ensures Unescape(Escaped(s)) == Ok(s)
  {
    EscapedIsEscapeEach(s);
    UnescapeEscapeEach(s);
  }

  // ---------------------------------------------------------------------------
  // `isNumericLike`

  /** A digit run, a fraction and an exponent: `\d+(\.\d+)?(e[+-]?\d+)?`,
      case-insensitive. The digit runs are greedy and never followed by a
      digit, so the match is unique. */
  predicate IsUnsignedNumber(t: string)
  {
    var n := LeadingDigits(t);
    n > 0 && IsFractionExponent(t[n..])
  }

  /** `(\.\d+)?(e[+-]?\d+)?` */
  predicate IsFractionExponent(u: string)
  {
    || u == []
    || IsExponent(u)
    || (u[0] == '.' && LeadingDigits(u[1..]) > 0
        && (var v := u[1 + LeadingDigits(u[1..])..]; v == [] || IsExponent(v)))
  }

  /** `e[+-]?\d+`, case-insensitive. */
  predicate IsExponent(u: string)
  {
    && u != [] && IsExponentMark(u[0])
    && var v := if |u| > 1 && (u[1] == '+' || u[1] == '-') then u[2..] else u[1..];
       v != [] && AllDigits(v)
  }

  /** `isNumericLike`: `^-?\d+(\.\d+)?(e[+-]?\d+)?$` or `^0\d+$`. */
  predicate IsNumericLike(s: string)
  {
    || IsUnsignedNumber(if s != [] && s[0] == '-' then s[1..] else s)
    || (|s| >= 2 && s[0] == '0' && AllDigits(s[1..]))
  }

  lemma {:induction false} FloatRunAppend(st: FloatState, a: string, b: string)
    ensures FloatRun(st, a + b) == FloatRun(FloatRun(st, a), b)
    decreases |a|
  {
    if a == [] {
      assert a + b == b;
    } else {
      assert (a + b)[1..] == a[1..] + b;
      FloatRunAppend(FloatNext(st, a[0]), a[1..], b);
    }
  }

  /** Digits keep the recogniser in a digit state. */
  lemma {:induction false} DigitsStay(st: FloatState, s: string)
    requires st == FInt || st == FFrac || st == FExpDigits
    requires AllDigits(s)
    ensures FloatRun(st, s) == st
  {
    if s != [] {
      assert AllDigits(s[1..]);
      DigitsStay(st, s[1..]);
    }
  }

  /** A non-empty digit run read after `st` ends in the digit state that follows `st`. */
  lemma DigitRun(st: FloatState, s: string, target: FloatState)
    requires s != [] && AllDigits(s)
    requires target == FInt || target == FFrac || target == FExpDigits
    requires FloatNext(st, s[0]) == target
    ensures FloatRun(st, s) == target
  {
    assert AllDigits(s[1..]);
    DigitsStay(target, s[1..]);
  }

  /** An exponent read after digits or a fraction ends with exponent digits. */
  lemma ExponentRun(st: FloatState, u: string)
    requires st == FInt || st == FIntDot || st == FFrac
    requires IsExponent(u)
    ensures FloatRun(st, u) == FExpDigits
  {
    if |u| > 1 && (u[1] == '+' || u[1] == '-') {
      assert u == u[..2] + u[2..];
      FloatRunAppend(st, u[..2], u[2..]);
      assert u[..2][1..][1..] == [];
      DigitRun(FExpSign, u[2..], FExpDigits);
    } else {
      assert u == [u[0]] + u[1..];
      FloatRunAppend(st, [u[0]], u[1..]);
      assert [u[0]][1..] == [];
      DigitRun(FExp, u[1..], FExpDigits);
    }
  }

  /** The unsigned part of a numeric-looking text is a decimal literal once
      the recogniser has read nothing or a sign. */
  lemma UnsignedNumberRun(st: FloatState, t: string)
    requires st == FStart || st == FSign
    requires IsUnsignedNumber(t)
    ensures var f := FloatRun(st, t); f == FInt || f == FFrac || f == FExpDigits
  {
    var n := LeadingDigits(t);
    IntegerPartRun(st, t, n);
    FractionExponentRun(t[n..]);
  }

  /** The integer digits take the recogniser to its integer state. */
  lemma IntegerPartRun(st: FloatState, t: string, n: nat)
    requires st == FStart || st == FSign
    requires n == LeadingDigits(t) && n > 0
    ensures FloatRun(st, t) == FloatRun(FInt, t[n..])
  {
    LeadingDigitsFacts(t);
    assert t == t[..n] + t[n..];
    FloatRunAppend(st, t[..n], t[n..]);
    DigitRun(st, t[..n], FInt);
  }

  /** What may follow the integer digits ends the recogniser in an
      accepting state. */
  lemma FractionExponentRun(u: string)
    requires IsFractionExponent(u)
    ensures var f := FloatRun(FInt, u); f == FInt || f == FFrac || f == FExpDigits
  {
    if u == [] {
    } else if IsExponent(u) {
      ExponentRun(FInt, u);
    } else {
      FractionRun(u);
    }
  }

  /** After the integer digits, a fraction and an optional exponent end the
      recogniser in an accepting state. */
  lemma FractionRun(u: string)
    requires u != [] && u[0] == '.' && LeadingDigits(u[1..]) > 0
    requires var v := u[1 + LeadingDigits(u[1..])..]; v == [] || IsExponent(v)
    ensures var f := FloatRun(FInt, u); f == FFrac || f == FExpDigits
  {
    var m := LeadingDigits(u[1..]);
    LeadingDigitsFacts(u[1..]);
    var w, v := u[1..][..m], u[1 + m..];
    assert u[1..] == w + v;
    assert FloatRun(FInt, u) == FloatRun(FIntDot, u[1..]);
    FloatRunAppend(FIntDot, w, v);
    DigitRun(FIntDot, w, FFrac);
    if v != [] {
      ExponentRun(FFrac, v);
    }
  }

  /** Everything the encoder takes for a number is a decimal literal of the
      decoder's float grammar: quoting it is never wasted. */
  lemma NumericLikeIsDecimalFloat(s: string)
    requires IsNumericLike(s)
    ensures IsDecimalFloat(s)
  {
    var signed := s != [] && s[0] == '-';
    if IsUnsignedNumber(if signed then s[1..] else s) {
      if signed {
        assert s == [s[0]] + s[1..];
        FloatRunAppend(FStart, [s[0]], s[1..]);
        assert [s[0]][1..] == [];
        UnsignedNumberRun(FSign, s[1..]);
      } else {
        UnsignedNumberRun(FStart, s);
      }
    } else {
      assert AllDigits(s);
      DigitRun(FStart, s, FInt);
    }
  }

  // ---------------------------------------------------------------------------
  // `isSafeUnquoted`

  predicate IsStructural(x: char)
  {
    x == ':' || x == '"' || x == '\\' || x == '[' || x == ']' || x == '{' || x == '}'
    || x == '\n' || x == '\r' || x == '\t'
  }

  /** `isSafeUnquoted(delimiter:)`: non-empty, not padded with whitespace,
      not a keyword, not numeric-looking, free of structural characters and
      of the active delimiter, and not starting with a hyphen. */
  predicate IsSafeUnquoted(s: string, d: char)
  {
    && s != []
    && Trim(s) == s
    && s != "true" && s != "false" && s != "null"
    && !IsNumericLike(s)
    && (forall i :: 0 <= i < |s| ==> !IsStructural(s[i]) && s[i] != d)
    && s[0] != '-'
  }

  /** The intended rule: safe only when the decoder would not read the text
      back as a number either. */
  predicate IsSafeToken(s: string, d: char)
  {
    IsSafeUnquoted(s, d) && !ReadsAsNumber(s)
  }

  /** `encodeStringLiteral` as the source writes it. */
  function EncodeStringLiteralAsWritten(s: string, d: char): (r: string)
    ensures r == s || r == "\"" + Escaped(s) + "\""
  {
    if IsSafeUnquoted(s, d) then s else "\"" + Escaped(s) + "\""
  }

  /** `encodeStringLiteral` with the intended safety rule; the rest of the
      encoder uses this one. */
  function EncodeStringLiteral(s: string, d: char): (r: string)
    ensures r == s <==> IsSafeToken(s, d)
    ensures r != s ==> r == "\"" + Escaped(s) + "\""
  {
    if IsSafeToken(s, d) then s else "\"" + Escaped(s) + "\""
  }

  /** An unpadded, unquoted token that the trimming of the decoder keeps as it is. */
  lemma SafeTokenShape(s: string, d: char)
    requires IsSafeUnquoted(s, d)
    ensures !IsWhitespace(s[0]) && !IsWhitespace(s[|s| - 1])
    ensures !IsQuoted(s)
  {
    TrimShape(s);
    assert s[0] != '"';
  }

  /** A quoted literal reads back as the text it quotes. */
  lemma QuotedLiteral(s: string)
    ensures ParsePrimitiveValue("\"" + Escaped(s) + "\"") == Ok(Str(s))
  {
    var t := "\"" + Escaped(s) + "\"";
    assert t[1..|t| - 1] == Escaped(s);
    UnescapeEscaped(s);
    QuotedToken(t);
  }

  /** Every string value the encoder writes is read back by the decoder's
      token classification as that same string. */
  lemma EncodeStringLiteralReadsBack(s: string, d: char)
    ensures ParsePrimitiveValue(EncodeStringLiteral(s, d)) == Ok(Str(s))
  {
    if IsSafeToken(s, d) {
      SafeTokenShape(s, d);
      BareStringToken(s);
    } else {
      QuotedLiteral(s);
    }
  }

  /** As written, `+5` counts as safe: it is not numeric-looking, so it is
      emitted bare, and the decoder reads it as the integer 5. */
  lemma PlusSignAsWritten()
    ensures IsSafeUnquoted("+5", ',')
    ensures EncodeStringLiteralAsWritten("+5", ',') == "+5"
    ensures ParsePrimitiveValue("+5") == Ok(Int(5))
  {
    var s := "+5";
    assert LeadingDigits(s) == 0;
    assert !IsNumericLike(s);
    assert Trim(s) == s;
    assert s[1..] == "5";
    assert DigitsOf("5") == Some(5);
    assert ParseInt64(s) == Some(5);
    assert !IsQuoted(s);
  }

  /** As written, `0xe` counts as safe: `isNumericLike` knows only decimal
      numbers, so it is emitted bare, and the decoder reads it as a double
      because `Double("0xe")` accepts the hexadecimal spelling and the token
      holds an `e`. */
  lemma HexStringAsWritten(s: string)
    requires s == "0xe"
    ensures IsSafeUnquoted(s, ',')
    ensures EncodeStringLiteralAsWritten(s, ',') == s
    ensures ParsePrimitiveValue(s) == Ok(Double(s))
  {
    HexSafe(s);
    HexReadsAsDouble(s);
  }

  lemma HexSafe(s: string)
    requires s == "0xe"
    ensures IsSafeUnquoted(s, ',')
    ensures EncodeStringLiteralAsWritten(s, ',') == s
  {
    HexNotNumericLike(s);
    assert Trim(s) == s;
  }

  lemma HexReadsAsDouble(s: string)
    requires s == "0xe"
    ensures ParsePrimitiveValue(s) == Ok(Double(s))
  {
    HexLiteralExample();
    assert DigitsOf(s) == None;
    assert ParseInt64(s) == None;
    assert !IsQuoted(s);
    assert 'e' in s;
  }

  lemma HexNotNumericLike(s: string)
    requires s == "0xe"
    ensures !IsNumericLike(s)
  {
    assert LeadingDigits(s) == 1 by {
      assert LeadingDigits(s[1..]) == 0;
    }
    assert s[1..] == "xe";
    assert !IsFractionExponent(s[1..]);
    assert !AllDigits(s[1..]);
  }

  /** With the intended rule the same string is quoted, and reads back. */
  lemma HexStringQuoted(s: string)
    requires s == "0xe"
    ensures EncodeStringLiteral(s, ',') == "\"" + s + "\""
    ensures ParsePrimitiveValue(EncodeStringLiteral(s, ',')) == Ok(Str(s))
  {
    HexReadsAsNumber(s);
    EscapedKeepsPlain(s);
    EncodeStringLiteralReadsBack(s, ',');
  }

  lemma HexReadsAsNumber(s: string)
    requires s == "0xe"
    ensures ReadsAsNumber(s)
  {
    HexLiteralExample();
    assert 'e' in s;
  }

  /** As written, `nan(0x1e)` counts as safe: it is not numeric-looking and
      parentheses are not structural, so it is emitted bare, and the decoder
      reads it as a double because `Double("nan(0x1e)")` accepts a NaN with a
      payload and the token holds an `e`. */
  lemma NanPayloadAsWritten(s: string)
    requires s == "nan(0x1e)"
    ensures IsSafeUnquoted(s, ',')
    ensures EncodeStringLiteralAsWritten(s, ',') == s
    ensures ParsePrimitiveValue(s) == Ok(Double(s))
  {
    NanPayloadSafe(s);
    NanPayloadReadsAsDouble(s);
  }

  lemma NanPayloadSafe(s: string)
    requires s == "nan(0x1e)"
    ensures IsSafeUnquoted(s, ',')
    ensures EncodeStringLiteralAsWritten(s, ',') == s
  {
    assert LeadingDigits(s) == 0;
    assert !IsNumericLike(s);
    assert Trim(s) == s;
  }

  lemma NanPayloadReadsAsDouble(s: string)
    requires s == "nan(0x1e)"
    ensures ParsePrimitiveValue(s) == Ok(Double(s))
  {
    NanPayloadReadsAsNumber(s);
    assert DigitsOf(s) == None;
    assert ParseInt64(s) == None;
    assert !IsQuoted(s);
  }

  /** With the intended rule the same string is quoted, and reads back. */
  lemma NanPayloadQuoted(s: string)
    requires s == "nan(0x1e)"
    ensures EncodeStringLiteral(s, ',') == "\"" + s + "\""
    ensures ParsePrimitiveValue(EncodeStringLiteral(s, ',')) == Ok(Str(s))
  {
    NanPayloadReadsAsNumber(s);
    EscapedKeepsPlain(s);
    EncodeStringLiteralReadsBack(s, ',');
  }

  lemma NanPayloadReadsAsNumber(s: string)
    requires s == "nan(0x1e)"
    ensures ReadsAsNumber(s)
  {
    NanPayloadExample();
    assert 'e' in s;
  }

  /** Text without special characters is its own escape. */
  lemma EscapedKeepsPlain(s: string)
    requires forall i :: 0 <= i < |s| ==> !IsSpecial(s[i])
    ensures Escaped(s) == s
  {
    EscapedIsEscapeEach(s);
    EscapeEachPlain(s);
  }

  lemma {:induction false} EscapeEachPlain(s: string)
    requires forall i :: 0 <= i < |s| ==> !IsSpecial(s[i])
    ensures EscapeEach(s) == s
  {
    if s != [] {
      EscapeEachPlain(s[1..]);
      assert [s[0]] + s[1..] == s;
    }
  }

  // ---------------------------------------------------------------------------
  // Keys

  predicate IsAsciiLetter(x: char)
  {
    'a' <= x <= 'z' || 'A' <= x <= 'Z'
  }

  /** `\w`: letters, digits and the underscore. */
  predicate IsWordChar(x: char)
  {
    IsAsciiLetter(x) || IsDigit(x) || x == '_'
  }

  /** `isValidUnquotedKey`: `^[A-Z_][\w.]*$`, case-insensitive. */
  predicate IsValidUnquotedKey(k: string)
  {
    && k != []
    && (IsAsciiLetter(k[0]) || k[0] == '_')
    && forall i :: 1 <= i < |k| ==> IsWordChar(k[i]) || k[i] == '.'
  }

  /** `encodeKey`: an identifier-like key is written bare, any other key
      quoted and escaped. */
  function EncodeKey(k: string): (r: string)
    ensures r == k <==> IsValidUnquotedKey(k)
    ensures r != k ==> r == "\"" + Escaped(k) + "\""
  {
    if IsValidUnquotedKey(k) then k else "\"" + Escaped(k) + "\""
  }

  /** A bare key holds only word characters and dots. */
  lemma BareKeyChars(k: string)
    requires IsValidUnquotedKey(k)
    ensures forall i :: 0 <= i < |k| ==> IsWordChar(k[i]) || k[i] == '.'
  {
  }

  /** The decoder's `parseKey` gives back every key the encoder wrote. */
  lemma EncodeKeyRoundTrip(k: string)
    ensures ParseKey(EncodeKey(k)) == Ok(k)
  {
    if IsValidUnquotedKey(k) {
      assert Trim(k) == k;
      assert k[0] != '"';
    } else {
      var t := "\"" + Escaped(k) + "\"";
      assert Trim(t) == t;
      assert Unquote(t) == Escaped(k);
      UnescapeEscaped(k);
    }
  }
}

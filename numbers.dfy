/** Integer text in both directions (`Int64(String)` and `String(Int64)`),
    the floating-point spellings `Double(String)` accepts, and the integer-width checks
    applied when a decoded integer is bound to a narrower type. */
module Numbers {
  import opened ToonValue

  predicate IsDigit(c: char)
  {
    '0' <= c <= '9'
  }

  predicate AllDigits(s: string)
  {
    forall i :: 0 <= i < |s| ==> IsDigit(s[i])
  }

  /** The value of a run of ASCII digits, or nothing when some character is
      not a digit; the empty run has the value 0. */
  function DigitsOf(s: string): (r: Option<nat>)
  {
    if s == [] then Some(0)
    else if !IsDigit(s[|s| - 1]) then None
    else
      var m := DigitsOf(s[..|s| - 1]);
      if m.None? then None else Some(m.value * 10 + (s[|s| - 1] as int - '0' as int))
  }

  /** A run has a value exactly when it is made of digits. */
  lemma {:induction false} DigitsOfAll(s: string)
    ensures DigitsOf(s).Some? <==> AllDigits(s)
  {
    if s != [] {
      DigitsOfAll(s[..|s| - 1]);
      if AllDigits(s[..|s| - 1]) && IsDigit(s[|s| - 1]) {
        assert AllDigits(s);
      }
    }
  }

  /** `Int64(text)`: an optional sign, one or more ASCII digits, and the value
      within the signed 64-bit range. */
  function ParseInt64(s: string): (r: Option<Int64>)
    ensures r.Some? ==> s != []
  {
    var signed := s != [] && (s[0] == '-' || s[0] == '+');
    var body := if signed then s[1..] else s;
    var m := DigitsOf(body);
    if body == [] || m.None? then None
    else
      var n: int := if signed && s[0] == '-' then 0 - (m.value as int) else m.value;
      if -0x8000_0000_0000_0000 <= n <= 0x7FFF_FFFF_FFFF_FFFF then Some(n) else None
  }

  function DigitChar(d: nat): char
    requires d < 10
  {
    ('0' as int + d) as char
  }

  /** Decimal digits of a natural number, most significant first, no leading zeros. */
  function NatToDecimal(n: nat): (r: string)
    ensures |r| >= 1 && AllDigits(r)
    ensures |r| > 1 ==> r[0] != '0'
  {
    if n < 10 then [DigitChar(n)] else NatToDecimal(n / 10) + [DigitChar(n % 10)]
  }

  /** `String(intValue)`: a minus sign for negative values, then the digits. */
  function IntToDecimal(i: int): (r: string)
    ensures |r| >= 1
  {
    if i < 0 then "-" + NatToDecimal(-i) else NatToDecimal(i)
  }

  lemma {:induction false} NatToDecimalValue(n: nat)
    ensures DigitsOf(NatToDecimal(n)) == Some(n)
  {
    var r := NatToDecimal(n);
    if n >= 10 {
      NatToDecimalValue(n / 10);
      assert r[..|r| - 1] == NatToDecimal(n / 10);
    }
  }

  /** Reading back the decimal text of a 64-bit integer gives the integer. */
  lemma IntToDecimalRoundTrip(i: Int64)
    ensures ParseInt64(IntToDecimal(i)) == Some(i)
  {
    if i < 0 {
      NegativeRoundTrip(i);
    } else {
      var r := NatToDecimal(i);
      NatToDecimalValue(i);
      assert IsDigit(r[0]);
    }
  }

  /** The negative case: a minus sign, then the digits of the magnitude. */
  lemma NegativeRoundTrip(i: Int64)
    requires i < 0
    ensures ParseInt64(IntToDecimal(i)) == Some(i)
  {
    var m: nat := 0 - (i as int);
    var r, s := NatToDecimal(m), IntToDecimal(i);
    assert s == "-" + r;
    assert s[0] == '-' && s[1..] == r;
    NatToDecimalValue(m);
    assert DigitsOf(s[1..]) == Some(m);
  }

  /** The decimal spelling starts with a minus sign or a digit, ends with a
      digit, and is none of the keywords. */
  lemma IntToDecimalShape(i: int)
    ensures var t := IntToDecimal(i);
      (t[0] == '-' || IsDigit(t[0])) && IsDigit(t[|t| - 1])
  {
  }

  predicate IsExponentMark(c: char)
  {
    c == 'e' || c == 'E'
  }

  /** States of the recogniser for decimal floating-point literals. */
  datatype FloatState =
    | FStart      // nothing read
    | FSign       // a leading sign
    | FInt        // integer digits
    | FIntDot     // integer digits and a decimal point
    | FDot        // a decimal point with no integer digits before it
    | FFrac       // fraction digits
    | FExp        // an exponent mark
    | FExpSign    // the sign of the exponent
    | FExpDigits  // exponent digits
    | FReject

  function FloatNext(st: FloatState, c: char): FloatState
  {
    var sign := c == '+' || c == '-';
    match st
    case FStart => if sign then FSign else if IsDigit(c) then FInt else if c == '.' then FDot else FReject
    case FSign => if IsDigit(c) then FInt else if c == '.' then FDot else FReject
    case FInt => if IsDigit(c) then FInt else if c == '.' then FIntDot else if IsExponentMark(c) then FExp else FReject
    case FIntDot => if IsDigit(c) then FFrac else if IsExponentMark(c) then FExp else FReject
    case FDot => if IsDigit(c) then FFrac else FReject
    case FFrac => if IsDigit(c) then FFrac else if IsExponentMark(c) then FExp else FReject
    case FExp => if sign then FExpSign else if IsDigit(c) then FExpDigits else FReject
    case FExpSign => if IsDigit(c) then FExpDigits else FReject
    case FExpDigits => if IsDigit(c) then FExpDigits else FReject
    case FReject => FReject
  }

  function FloatRun(st: FloatState, s: string): FloatState
    decreases |s|
  {
    if s == [] then st else FloatRun(FloatNext(st, s[0]), s[1..])
  }

  /** The decimal form accepted by `Double(text)`: an optional sign, digits
      with at most one decimal point and at least one digit, then an optional
      exponent mark with optional sign and at least one digit. */
  predicate IsDecimalFloat(s: string)
  {
    var f := FloatRun(FStart, s);
    f == FInt || f == FIntDot || f == FFrac || f == FExpDigits
  }

  predicate IsHexDigit(c: char)
  {
    IsDigit(c) || 'a' <= c <= 'f' || 'A' <= c <= 'F'
  }

  predicate IsBinaryExponentMark(c: char)
  {
    c == 'p' || c == 'P'
  }

  /** States of the recogniser for hexadecimal floating-point literals. */
  datatype HexState =
    | HStart      // nothing read
    | HSign       // a leading sign
    | HZero       // the `0` of the prefix
    | HPrefix     // `0x` or `0X`
    | HInt        // hexadecimal digits
    | HIntDot     // hexadecimal digits and a point
    | HDot        // a point with no digits before it
    | HFrac       // hexadecimal fraction digits
    | HExp        // a binary exponent mark
    | HExpSign    // the sign of the exponent
    | HExpDigits  // decimal exponent digits
    | HReject

  function HexNext(st: HexState, c: char): HexState
  {
    var sign := c == '+' || c == '-';
    match st
    case HStart => if sign then HSign else if c == '0' then HZero else HReject
    case HSign => if c == '0' then HZero else HReject
    case HZero => if c == 'x' || c == 'X' then HPrefix else HReject
    case HPrefix => if IsHexDigit(c) then HInt else if c == '.' then HDot else HReject
    case HInt => if IsHexDigit(c) then HInt else if c == '.' then HIntDot else if IsBinaryExponentMark(c) then HExp else HReject
    case HIntDot => if IsHexDigit(c) then HFrac else if IsBinaryExponentMark(c) then HExp else HReject
    case HDot => if IsHexDigit(c) then HFrac else HReject
    case HFrac => if IsHexDigit(c) then HFrac else if IsBinaryExponentMark(c) then HExp else HReject
    case HExp => if sign then HExpSign else if IsDigit(c) then HExpDigits else HReject
    case HExpSign => if IsDigit(c) then HExpDigits else HReject
    case HExpDigits => if IsDigit(c) then HExpDigits else HReject
    case HReject => HReject
  }

  function HexRun(st: HexState, s: string): HexState
    decreases |s|
  {
    if s == [] then st else HexRun(HexNext(st, s[0]), s[1..])
  }

  /** The hexadecimal form accepted by `Double(text)`: an optional sign,
      `0x` or `0X`, hexadecimal digits with at most one point and at least
      one digit, then an optional binary exponent `p` with optional sign and
      at least one decimal digit. */
  predicate IsHexFloat(s: string)
  {
    var f := HexRun(HStart, s);
    f == HInt || f == HIntDot || f == HFrac || f == HExpDigits
  }

  /** ASCII letters in lower case, every other character as it is. */
  function AsciiLower(c: char): char
  {
    if 'A' <= c <= 'Z' then (c as int + 32) as char else c
  }

  /** `s` spells the lower-case `word` in any mixture of cases. */
  predicate SpelledAs(s: string, word: string)
  {
    |s| == |word| && forall i :: 0 <= i < |s| ==> AsciiLower(s[i]) == word[i]
  }

  /** The text after an optional leading sign. */
  function Unsigned(s: string): (r: string)
    ensures |r| <= |s|
  {
    if s != [] && (s[0] == '+' || s[0] == '-') then s[1..] else s
  }

  /** The payload of a NaN: hexadecimal digits, at least one, after an
      optional `0x` or `0X`. */
  predicate IsNanPayload(p: string)
  {
    var q := if |p| >= 2 && p[0] == '0' && (p[1] == 'x' || p[1] == 'X') then p[2..] else p;
    q != [] && forall i :: 0 <= i < |q| ==> IsHexDigit(q[i])
  }

  /** The non-finite spellings `Double(text)` accepts, after an optional
      sign and in any case: `inf`, `infinity`, `nan` and `snan`, and `nan`
      followed by a payload in parentheses. */
  predicate IsNonFinite(s: string)
  {
    var b := Unsigned(s);
    || SpelledAs(b, "inf") || SpelledAs(b, "infinity") || SpelledAs(b, "nan") || SpelledAs(b, "snan")
    || (|b| >= 5 && SpelledAs(b[..3], "nan") && b[3] == '(' && b[|b| - 1] == ')' && IsNanPayload(b[4..|b| - 1]))
  }

  /** The spellings `Double(text)` accepts: decimal, hexadecimal and
      non-finite. Of the non-finite ones only a NaN payload can hold an `e`,
      and none holds a point. */
  predicate IsFloatLiteral(s: string)
  {
    IsDecimalFloat(s) || IsHexFloat(s) || IsNonFinite(s)
  }

  /** `nan(0x1e)` is a NaN with a payload, and neither a decimal nor a
      hexadecimal literal. */
  lemma NanPayloadExample()
    ensures IsNonFinite("nan(0x1e)") && !IsDecimalFloat("nan(0x1e)") && !IsHexFloat("nan(0x1e)")
  {
    var s := "nan(0x1e)";
    NanPayloadSpelling(s);
    LetterRejects(s);
  }

  /** Text that starts with `n` is neither a decimal nor a hexadecimal
      literal. */
  lemma LetterRejects(s: string)
    requires s != [] && s[0] == 'n'
    ensures FloatRun(FStart, s) == FReject && HexRun(HStart, s) == HReject
  {
    RejectStays(s[1..]);
  }

  /** `nan(0x1e)` is `nan` with a hexadecimal payload. */
  lemma NanPayloadSpelling(s: string)
    requires s == "nan(0x1e)"
    ensures IsNonFinite(s)
  {
    assert Unsigned(s) == s;
    assert s[..3] == "nan" && s[4..|s| - 1] == "0x1e" && "0x1e"[2..] == "1e";
    assert SpelledAs(s[..3], "nan") by {
      assert forall i :: 0 <= i < 3 ==> AsciiLower(s[i]) == s[i];
    }
    assert IsNanPayload(s[4..|s| - 1]) by {
      assert IsHexDigit('1') && IsHexDigit('e');
    }
  }

  lemma {:induction false} RejectStays(s: string)
    ensures FloatRun(FReject, s) == FReject && HexRun(HReject, s) == HReject
    decreases |s|
  {
    if s != [] {
      RejectStays(s[1..]);
    }
  }

  /** `0xe` is a hexadecimal literal and no decimal one. */
  lemma HexLiteralExample()
    ensures IsHexFloat("0xe") && !IsDecimalFloat("0xe")
  {
    assert HexRun(HStart, "0xe") == HexRun(HZero, "xe") == HexRun(HPrefix, "e") == HexRun(HInt, "");
    assert FloatRun(FStart, "0xe") == FloatRun(FInt, "xe") == FloatRun(FReject, "e");
  }

  lemma {:induction false} DigitsStayInt(s: string)
    requires AllDigits(s)
    ensures FloatRun(FInt, s) == FInt
  {
    if s != [] {
      assert AllDigits(s[1..]);
      DigitsStayInt(s[1..]);
    }
  }

  /** Every text the 64-bit integer parser accepts is also a decimal float. */
  lemma Int64IsDecimalFloat(s: string)
    requires ParseInt64(s).Some?
    ensures IsDecimalFloat(s)
  {
    var signed := s[0] == '-' || s[0] == '+';
    var body := if signed then s[1..] else s;
    DigitsOfAll(body);
    if signed {
      assert s[1..][1..] == s[2..];
      assert AllDigits(body[1..]);
      DigitsStayInt(body[1..]);
    } else {
      assert AllDigits(s[1..]);
      DigitsStayInt(s[1..]);
    }
  }

  /** The target widths of `DecodingHelpers`. */
  datatype IntWidth = I8 | I16 | I32 | I64 | U8 | U16 | U32 | U64

  function MinOf(w: IntWidth): int
  {
    match w
    case I8 => -0x80
    case I16 => -0x8000
    case I32 => -0x8000_0000
    case I64 => -0x8000_0000_0000_0000
    case _ => 0
  }

  function MaxOf(w: IntWidth): int
  {
    match w
    case I8 => 0x7F
    case I16 => 0x7FFF
    case I32 => 0x7FFF_FFFF
    case I64 => 0x7FFF_FFFF_FFFF_FFFF
    case U8 => 0xFF
    case U16 => 0xFFFF
    case U32 => 0xFFFF_FFFF
    case U64 => 0xFFFF_FFFF_FFFF_FFFF
  }

  /** `decodeInt8` ... `decodeUInt64`: only an integer value is accepted
      (otherwise a type mismatch), and it must fit the width exactly
      (otherwise the data is reported corrupted). */
  function DecodeInteger(v: Value, w: IntWidth): (r: Result<int>)
    ensures r.Ok? <==> v.Int? && MinOf(w) <= v.i <= MaxOf(w)
    ensures r.Ok? ==> r.value == v.i
    ensures !v.Int? ==> r == Err(TypeMismatch)
    ensures v.Int? && !r.Ok? ==> r == Err(DataCorrupted)
  {
    match v
    case Int(i) => if MinOf(w) <= i <= MaxOf(w) then Ok(i) else Err(DataCorrupted)
    case _ => Err(TypeMismatch)
  }
}

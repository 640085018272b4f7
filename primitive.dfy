/** Token classification of the decoder (`parsePrimitiveValue`), key parsing
    (`parseKey`, `parseFieldName`) and the two splitting loops built on it
    (`parseDelimitedValues`, `parseFieldsList`). */
module Primitive {
  import opened ToonValue
  import opened Text
  import opened Numbers
  import opened Scan

  /** `Double(trimmed)` succeeds, and the token shows a point or an `e` in
      either case. */
  predicate IsDoubleToken(t: string)
  {
    IsFloatLiteral(t) && ('.' in t || 'e' in t || 'E' in t)
  }

  /** A token the decoder reads as a number. */
  predicate ReadsAsNumber(t: string)
  {
    ParseInt64(t).Some? || IsDoubleToken(t)
  }

  /** `parsePrimitiveValue`: the trimmed token is the empty string, a quoted
      string, a keyword, a 64-bit integer, a float literal, or else a bare string. */
  function ParsePrimitiveValue(content: string): (r: Result<Value>)
    ensures r.Ok? ==> r.value.IsPrimitive()
    ensures r.Err? ==> r.error == InvalidEscapeSequence
  {
    var t := Trim(content);
    if t == [] then Ok(Str(""))
    else if IsQuoted(t) then
      var u :- Unescape(Unquote(t));
      Ok(Str(u))
    else if t == "true" then Ok(Bool(true))
    else if t == "false" then Ok(Bool(false))
    else if t == "null" then Ok(Null)
    else if ParseInt64(t).Some? then Ok(Int(ParseInt64(t).value))
    else if IsDoubleToken(t) then Ok(Double(t))
    else Ok(Str(t))
  }

  /** Only a quoted token whose inner text has a bad escape fails. */
  lemma ParsePrimitiveFails(content: string)
    ensures ParsePrimitiveValue(content).Err? <==> IsQuoted(Trim(content)) && Unescape(Unquote(Trim(content))).Err?
  {
  }

  /** An unquoted token read as a string is read as exactly its trimmed text. */
  lemma ParsePrimitiveBareString(content: string)
    ensures var r := ParsePrimitiveValue(content);
      r.Ok? && r.value.Str? && !IsQuoted(Trim(content)) ==> r.value.s == Trim(content)
  {
  }

  /** An integer result is the value of the trimmed text. */
  lemma ParsePrimitiveInt(content: string)
    ensures var r := ParsePrimitiveValue(content);
      r.Ok? && r.value.Int? ==> ParseInt64(Trim(content)) == Some(r.value.i)
  {
  }

  /** A bare token that is not quoted, not a keyword and not a number is read
      back as exactly that string. */
  lemma BareStringToken(t: string)
    requires t != [] && !IsWhitespace(t[0]) && !IsWhitespace(t[|t| - 1])
    requires !IsQuoted(t) && t != "true" && t != "false" && t != "null" && !ReadsAsNumber(t)
    ensures ParsePrimitiveValue(t) == Ok(Str(t))
  {
    assert Trim(t) == t;
  }

  /** An unpadded, unquoted token that the integer parser rejects, that
      `Double(_:)` accepts, and that holds a
      point or an `e` is read as a double with that spelling. */
  lemma DoubleToken(t: string)
    requires t != [] && !IsWhitespace(t[0]) && !IsWhitespace(t[|t| - 1])
    requires !IsQuoted(t) && t != "true" && t != "false" && t != "null"
    requires ParseInt64(t).None? && IsFloatLiteral(t) && ('.' in t || 'e' in t || 'E' in t)
    ensures ParsePrimitiveValue(t) == Ok(Double(t))
  {
    assert Trim(t) == t;
  }

  /** An unpadded quoted token reads as the unescaping of the text between
      its quotes. */
  lemma QuotedToken(t: string)
    requires |t| >= 2 && t[0] == '"' && t[|t| - 1] == '"'
    requires Unescape(t[1..|t| - 1]).Ok?
    ensures ParsePrimitiveValue(t) == Ok(Str(Unescape(t[1..|t| - 1]).value))
  {
    assert Trim(t) == t;
  }

  /** The keyword spellings produced by the encoder read back as the same values. */
  lemma KeywordTokens()
    ensures ParsePrimitiveValue("null") == Ok(Null)
    ensures ParsePrimitiveValue("true") == Ok(Bool(true))
    ensures ParsePrimitiveValue("false") == Ok(Bool(false))
    ensures Trim("null") == "null" && Trim("true") == "true" && Trim("false") == "false"
  {
    assert Trim("null") == "null";
    assert Trim("true") == "true";
    assert Trim("false") == "false";
  }

  /** The decimal spelling of an integer reads back as that integer. */
  lemma IntToken(i: Int64)
    ensures ParsePrimitiveValue(IntToDecimal(i)) == Ok(Int(i))
    ensures IntToDecimal(i) != [] && Trim(IntToDecimal(i)) == IntToDecimal(i)
  {
    var t := IntToDecimal(i);
    IntToDecimalRoundTrip(i);
    IntToDecimalShape(i);
    IntegerToken(t);
    assert Trim(t) == t;
  }

  /** An unpadded, unquoted token that is not a keyword and that the integer
      parser accepts is read as that integer. */
  lemma IntegerToken(t: string)
    requires t != [] && !IsWhitespace(t[0]) && IsDigit(t[|t| - 1])
    requires ParseInt64(t).Some?
    ensures ParsePrimitiveValue(t) == Ok(Int(ParseInt64(t).value))
  {
    assert Trim(t) == t;
    assert !IsQuoted(t) && t != "true" && t != "false" && t != "null";
  }

  /** `parseKey` and `parseFieldName`: trimmed, and unescaped when quoted. */
  function ParseKey(keyPart: string): (r: Result<string>)
    ensures r.Ok? && !IsQuoted(Trim(keyPart)) ==> r.value == Trim(keyPart)
    ensures r.Err? ==> IsQuoted(Trim(keyPart)) && r.error == InvalidEscapeSequence
  {
    var t := Trim(keyPart);
    if IsQuoted(t) then Unescape(Unquote(t)) else Ok(t)
  }

  // ---------------------------------------------------------------------------
  // `parseDelimitedValues`

  /** Parses every piece, in order; the first failure wins. */
  function ParseAll(pieces: seq<string>): (r: Result<seq<Value>>)
    ensures r.Ok? ==> |r.value| == |pieces|
    ensures r.Ok? ==> forall i :: 0 <= i < |r.value| ==> r.value[i].IsPrimitive()
  {
    if pieces == [] then Ok([])
    else Cons(ParsePrimitiveValue(Trim(pieces[0])), ParseAll(pieces[1..]))
  }

  /** The first result in front of the rest; the first failure wins. */
  function Cons<T>(head: Result<T>, rest: Result<seq<T>>): (r: Result<seq<T>>)
    ensures r.Ok? <==> head.Ok? && rest.Ok?
    ensures r.Ok? ==> r.value == [head.value] + rest.value
    ensures r.Err? ==> r.error == (if head.Err? then head.error else rest.error)
  {
    if head.Err? then Err(head.error) else if rest.Err? then Err(rest.error) else Ok([head.value] + rest.value)
  }

  function Concat<T>(a: Result<seq<T>>, b: Result<seq<T>>): Result<seq<T>>
  {
    if a.Err? then a else if b.Err? then b else Ok(a.value + b.value)
  }

  lemma {:induction false} ParseAllAppend(a: seq<string>, b: seq<string>)
    ensures ParseAll(a + b) == Concat(ParseAll(a), ParseAll(b))
  {
    if a == [] {
      assert a + b == b;
      ConcatEmpty(ParseAll(b));
    } else {
      assert (a + b)[0] == a[0];
      assert (a + b)[1..] == a[1..] + b;
      ParseAllAppend(a[1..], b);
      ConsConcat(ParsePrimitiveValue(Trim(a[0])), ParseAll(a[1..]), ParseAll(b));
    }
  }

  lemma ConcatEmpty<T>(b: Result<seq<T>>)
    ensures Concat(Ok([]), b) == b
  {
    if b.Ok? {
      assert [] + b.value == b.value;
    }
  }

  lemma ConsConcat<T>(h: Result<T>, x: Result<seq<T>>, y: Result<seq<T>>)
    ensures Cons(h, Concat(x, y)) == Concat(Cons(h, x), y)
  {
    if h.Ok? && x.Ok? && y.Ok? {
      assert [h.value] + (x.value + y.value) == ([h.value] + x.value) + y.value;
    }
  }

  /** The inline values of an array or the cells of a tabular row: the line is
      split on the delimiter outside quotes and every trimmed piece is parsed;
      a line that is blank after trimming holds no value at all. */
  function DelimitedValues(content: string, d: char): (r: Result<seq<Value>>)
    ensures r.Ok? ==> forall i :: 0 <= i < |r.value| ==> r.value[i].IsPrimitive()
    ensures r.Ok? && r.value == [] ==> Trim(content) == []
    ensures r.Ok? && r.value != [] ==> |r.value| == |Pieces(content, d)|
  {
    var p := Pieces(content, d);
    SinglePiece(content, d);
    if |p| == 1 && Trim(p[0]) == [] then Ok([])
    else
      ParseAll(p)
  }

  lemma ParseAllSnoc(pieces: seq<string>, piece: string)
    requires ParseAll(pieces).Ok? && ParsePrimitiveValue(Trim(piece)).Ok?
    ensures ParseAll(pieces + [piece]) == Ok(ParseAll(pieces).value + [ParsePrimitiveValue(Trim(piece)).value])
  {
    ParseAllAppend(pieces, [piece]);
    ParseAllOne(piece);
    assert [ParsePrimitiveValue(Trim(piece)).value] + [] == [ParsePrimitiveValue(Trim(piece)).value];
  }

  lemma ParseKeysSnoc(pieces: seq<string>, piece: string)
    requires ParseKeys(pieces).Ok? && ParseKey(piece).Ok?
    ensures ParseKeys(pieces + [piece]) == Ok(ParseKeys(pieces).value + [ParseKey(piece).value])
  {
    ParseKeysAppend(pieces, [piece]);
    ParseKeysOne(piece);
    assert [ParseKey(piece).value] + [] == [ParseKey(piece).value];
  }

  lemma ParseAllOne(piece: string)
    ensures ParseAll([piece]) == Cons(ParsePrimitiveValue(Trim(piece)), Ok([]))
  {
    assert [piece][0] == piece && [piece][1..] == [];
  }

  lemma ParseKeysOne(piece: string)
    ensures ParseKeys([piece]) == Cons(ParseKey(piece), Ok([]))
  {
    assert [piece][0] == piece && [piece][1..] == [];
  }

  /** With no delimiter outside quotes the single piece is the whole line. */
  lemma SinglePiece(content: string, d: char)
    ensures |Pieces(content, d)| == 1 ==> Pieces(content, d)[0] == content
  {
    PiecesJoin(content, d);
  }

  lemma {:induction false} RunDoneGrows(st: Splitter, s: string, d: char)
    ensures |Run(st, s, d).done| >= |st.done|
    ensures Run(st, s, d).done[..|st.done|] == st.done
    decreases |s|
  {
    if s != [] {
      RunDoneGrows(Step(st, s[0], d), s[1..], d);
    }
  }

  /** The loop of `parseDelimitedValues`. */
  method ParseDelimitedValues(content: string, d: char) returns (r: Result<seq<Value>>)
    ensures r == DelimitedValues(content, d)
  {
    var values: seq<Value> := [];
    var current := "";
    var inQuotes := false;
    var escaped := false;
    ghost var pieces: seq<string> := [];
    var i := 0;
    while i < |content|
      invariant 0 <= i <= |content|
      invariant Run(Splitter(inQuotes, escaped, current, pieces), content[i..], d) == Run(SplitStart, content, d)
      invariant ParseAll(pieces) == Ok(values)
    {
      var c := content[i];
      RunAt(Splitter(inQuotes, escaped, current, pieces), content, i, d);
      if escaped {
        current := current + [c];
        escaped := false;
      } else if c == '\\' {
        escaped := true;
        current := current + [c];
      } else if c == '"' {
        inQuotes := !inQuotes;
        current := current + [c];
      } else if !inQuotes && c == d {
        var v := ParsePrimitiveValue(Trim(current));
        if v.Err? {
          DelimitedFailure(content, d, pieces, current, content[i + 1..]);
          return Err(v.error);
        }
        ParseAllSnoc(pieces, current);
        values := values + [v.value];
        pieces := pieces + [current];
        current := "";
      } else {
        current := current + [c];
      }
      i := i + 1;
    }
    assert content[i..] == [];
    DelimitedFinish(content, d, Splitter(inQuotes, escaped, current, pieces), values);
    var trimmed := Trim(current);
    if trimmed != [] || values != [] {
      var v := ParsePrimitiveValue(trimmed);
      if v.Err? {
        return Err(v.error);
      }
      values := values + [v.value];
    }
    return Ok(values);
  }

  /** The end of the loop: the last piece is parsed unless it is blank and
      no value came before it. */
  lemma DelimitedFinish(content: string, d: char, st: Splitter, values: seq<Value>)
    requires Run(SplitStart, content, d) == st
    requires ParseAll(st.done) == Ok(values)
    ensures Trim(st.cur) == [] && values == [] ==> DelimitedValues(content, d) == Ok([])
    ensures !(Trim(st.cur) == [] && values == []) ==>
      DelimitedValues(content, d) ==
        match ParsePrimitiveValue(Trim(st.cur))
        case Ok(v) => Ok(values + [v])
        case Err(e) => Err(e)
  {
    var p := Pieces(content, d);
    assert p == st.done + [st.cur];
    assert |values| == |st.done|;
    ParseAllAppend(st.done, [st.cur]);
    ParseAllOne(st.cur);
    var v := ParsePrimitiveValue(Trim(st.cur));
    if !(Trim(st.cur) == [] && values == []) {
      assert !(|p| == 1 && Trim(p[0]) == []);
      assert DelimitedValues(content, d) == Concat(Ok(values), Cons(v, Ok([])));
      if v.Ok? {
        assert [v.value] + [] == [v.value];
      }
    }
  }

  /** A piece that fails to parse makes the whole line fail with its error. */
  lemma DelimitedFailure(content: string, d: char, pieces: seq<string>, current: string, rest: string)
    requires ParseAll(pieces).Ok?
    requires ParsePrimitiveValue(Trim(current)).Err?
    requires Run(Splitter(false, false, "", pieces + [current]), rest, d) == Run(SplitStart, content, d)
    ensures DelimitedValues(content, d) == Err(ParsePrimitiveValue(Trim(current)).error)
  {
    var done := pieces + [current];
    PiecesStart(content, d, done, rest);
    var p := Pieces(content, d);
    ParseAllAppend(done, p[|done|..]);
    ParseAllAppend(pieces, [current]);
  }

  /** The pieces closed before some point of the line start its pieces. */
  lemma PiecesStart(content: string, d: char, done: seq<string>, rest: string)
    requires Run(Splitter(false, false, "", done), rest, d) == Run(SplitStart, content, d)
    ensures |done| < |Pieces(content, d)|
    ensures Pieces(content, d) == done + Pieces(content, d)[|done|..]
  {
    RunDoneGrows(Splitter(false, false, "", done), rest, d);
    var p := Pieces(content, d);
    assert p[..|done|] == done;
  }

  // ---------------------------------------------------------------------------
  // `parseFieldsList`

  function ParseKeys(pieces: seq<string>): (r: Result<seq<string>>)
    ensures r.Ok? ==> |r.value| == |pieces|
    ensures r.Err? ==> r.error == InvalidEscapeSequence
  {
    if pieces == [] then Ok([])
    else Cons(ParseKey(pieces[0]), ParseKeys(pieces[1..]))
  }

  lemma {:induction false} ParseKeysAppend(a: seq<string>, b: seq<string>)
    ensures ParseKeys(a + b) == Concat(ParseKeys(a), ParseKeys(b))
  {
    if a == [] {
      assert a + b == b;
      ConcatEmpty(ParseKeys(b));
    } else {
      assert (a + b)[0] == a[0];
      assert (a + b)[1..] == a[1..] + b;
      ParseKeysAppend(a[1..], b);
      ConsConcat(ParseKey(a[0]), ParseKeys(a[1..]), ParseKeys(b));
    }
  }

  /** The field names of a tabular header: the text between the braces split
      on the delimiter outside quotes, with an empty last piece dropped, each
      piece parsed as a key. */
  function FieldsList(s: string, d: char): (r: Result<seq<string>>)
    ensures r.Ok? ==> |r.value| == |Pieces(s, d)| || |r.value| == |Pieces(s, d)| - 1
    ensures r.Ok? && |r.value| < |Pieces(s, d)| ==> Pieces(s, d)[|Pieces(s, d)| - 1] == []
    ensures r.Err? ==> r.error == InvalidEscapeSequence
  {
    var p := Pieces(s, d);
    if p[|p| - 1] == [] then ParseKeys(p[..|p| - 1]) else ParseKeys(p)
  }

  /** The loop of `parseFieldsList`. */
  method ParseFieldsList(s: string, d: char) returns (r: Result<seq<string>>)
    ensures r == FieldsList(s, d)
  {
    var fields: seq<string> := [];
    var current := "";
    var inQuotes := false;
    var escaped := false;
    ghost var pieces: seq<string> := [];
    var i := 0;
    while i < |s|
      invariant 0 <= i <= |s|
      invariant Run(Splitter(inQuotes, escaped, current, pieces), s[i..], d) == Run(SplitStart, s, d)
      invariant ParseKeys(pieces) == Ok(fields)
    {
      var c := s[i];
      RunAt(Splitter(inQuotes, escaped, current, pieces), s, i, d);
      if escaped {
        current := current + [c];
        escaped := false;
      } else if c == '\\' {
        escaped := true;
        current := current + [c];
      } else if c == '"' {
        inQuotes := !inQuotes;
        current := current + [c];
      } else if !inQuotes && c == d {
        var k := ParseKey(current);
        if k.Err? {
          FieldsFailure(s, d, pieces, current, s[i + 1..]);
          return Err(k.error);
        }
        ParseKeysSnoc(pieces, current);
        fields := fields + [k.value];
        pieces := pieces + [current];
        current := "";
      } else {
        current := current + [c];
      }
      i := i + 1;
    }
    assert s[i..] == [];
    FieldsFinish(s, d, Splitter(inQuotes, escaped, current, pieces), fields);
    if current != [] {
      var k := ParseKey(current);
      if k.Err? {
        return Err(k.error);
      }
      fields := fields + [k.value];
    }
    return Ok(fields);
  }

  /** The end of the loop: the last piece is a field unless it is empty. */
  lemma FieldsFinish(s: string, d: char, st: Splitter, fields: seq<string>)
    requires Run(SplitStart, s, d) == st
    requires ParseKeys(st.done) == Ok(fields)
    ensures st.cur == [] ==> FieldsList(s, d) == Ok(fields)
    ensures st.cur != [] ==>
      FieldsList(s, d) ==
        match ParseKey(st.cur)
        case Ok(k) => Ok(fields + [k])
        case Err(e) => Err(e)
  {
    var p := Pieces(s, d);
    assert p == st.done + [st.cur];
    assert p[..|p| - 1] == st.done;
    ParseKeysAppend(st.done, [st.cur]);
    ParseKeysOne(st.cur);
    var k := ParseKey(st.cur);
    if st.cur != [] {
      assert FieldsList(s, d) == Concat(Ok(fields), Cons(k, Ok([])));
      if k.Ok? {
        assert [k.value] + [] == [k.value];
      }
    }
  }

  lemma FieldsFailure(s: string, d: char, pieces: seq<string>, current: string, rest: string)
    requires ParseKeys(pieces).Ok?
    requires ParseKey(current).Err?
    requires Run(Splitter(false, false, "", pieces + [current]), rest, d) == Run(SplitStart, s, d)
    ensures FieldsList(s, d) == Err(ParseKey(current).error)
  {
    var st := Splitter(false, false, "", pieces + [current]);
    RunDoneGrows(st, rest, d);
    var p := Pieces(s, d);
    var n := |pieces| + 1;
    assert p[..n] == pieces + [current];
    ParseKeysAppend(pieces, [current]);
    if p[|p| - 1] == [] {
      var q := p[..|p| - 1];
      assert q == (pieces + [current]) + q[n..];
      ParseKeysAppend(pieces + [current], q[n..]);
    } else {
      assert p == (pieces + [current]) + p[n..];
      ParseKeysAppend(pieces + [current], p[n..]);
    }
  }
}

/** What the decoder makes of what the encoder writes: tokens, delimited
    values, field lists and array headers read back as the values they were
    written from. Doubles are left aside throughout: their formatting is not
    part of the model. */
module EncodeFacts {
  import opened ToonValue
  import opened Text
  import opened Numbers
  import opened Scan
  import opened Primitive
  import opened Header
  import opened Quoting
  import opened Emit
  import Descent
  import DescentFacts

  // ---------------------------------------------------------------------------
  // The splitting loop over written tokens

  /** A token that the splitting loop of the decoder reads whole: started
      outside quotes, it ends outside quotes without closing a piece. */
  predicate PassesThrough(t: string, d: char)
  {
    Run(SplitStart, t, d) == Splitter(false, false, t, [])
  }

  /** A run that closes no piece does not depend on the piece text and the
      closed pieces it starts from. */
  lemma {:induction false} RunFrame(q: bool, e: bool, c0: string, cur: string, done: seq<string>, t: string, d: char)
    requires Run(Splitter(q, e, c0, []), t, d).done == []
    ensures var f := Run(Splitter(q, e, c0, []), t, d);
      Run(Splitter(q, e, cur + c0, done), t, d) == Splitter(f.inQuotes, f.escaped, cur + f.cur, done)
    decreases |t|
  {
    if t != [] {
      var s1 := Step(Splitter(q, e, c0, []), t[0], d);
      RunDoneGrows(s1, t[1..], d);
      assert s1.done == [];
      assert s1.cur == c0 + [t[0]];
      assert Step(Splitter(q, e, cur + c0, done), t[0], d) == Splitter(s1.inQuotes, s1.escaped, cur + s1.cur, done);
      RunFrame(s1.inQuotes, s1.escaped, s1.cur, cur, done, t[1..], d);
    }
  }

  /** A token read whole is read whole after any pieces. */
  lemma PassesAnywhere(t: string, d: char, cur: string, done: seq<string>)
    requires PassesThrough(t, d)
    ensures Run(Splitter(false, false, cur, done), t, d) == Splitter(false, false, cur + t, done)
  {
    RunFrame(false, false, "", cur, done, t, d);
    assert cur + "" == cur;
  }

  /** Text without quotes, backslashes or the delimiter. */
  predicate IsPlain(t: string, d: char)
  {
    forall i :: 0 <= i < |t| ==> t[i] != '"' && t[i] != '\\' && t[i] != d
  }

  lemma {:induction false} RunPlain(t: string, d: char, cur: string)
    requires IsPlain(t, d)
    ensures Run(Splitter(false, false, cur, []), t, d) == Splitter(false, false, cur + t, [])
    decreases |t|
  {
    if t != [] {
      assert IsPlain(t[1..], d);
      RunPlain(t[1..], d, cur + [t[0]]);
      assert cur + [t[0]] + t[1..] == cur + t;
    }
  }

  lemma PlainPasses(t: string, d: char)
    requires IsPlain(t, d)
    ensures PassesThrough(t, d)
  {
    RunPlain(t, d, "");
    assert "" + t == t;
  }

  /** Inside quotes, the escape of one character is kept whole. */
  lemma RunChunk(x: char, d: char, cur: string)
    ensures Run(Splitter(true, false, cur, []), EscapeOf(x), d) == Splitter(true, false, cur + EscapeOf(x), [])
  {
    var chunk := EscapeOf(x);
    var st := Splitter(true, false, cur, []);
    if IsSpecial(x) {
      assert chunk == [chunk[0]] + [chunk[1]] && chunk[0] == '\\';
      RunAppend(st, [chunk[0]], [chunk[1]], d);
      RunOne(st, chunk[0], d);
      RunOne(Step(st, chunk[0], d), chunk[1], d);
      assert cur + [chunk[0]] + [chunk[1]] == cur + chunk;
    } else {
      RunOne(st, chunk[0], d);
    }
  }

  /** Inside quotes, escaped text is kept whole and the quotes stay open. */
  lemma {:induction false} RunEscapeEach(s: string, d: char, cur: string)
    ensures Run(Splitter(true, false, cur, []), EscapeEach(s), d) == Splitter(true, false, cur + EscapeEach(s), [])
    decreases |s|
  {
    if s != [] {
      var st := Splitter(true, false, cur, []);
      var chunk := EscapeOf(s[0]);
      var tail := EscapeEach(s[1..]);
      assert EscapeEach(s) == chunk + tail;
      assert Run(st, chunk + tail, d) == Run(Run(st, chunk, d), tail, d) by {
        RunAppend(st, chunk, tail, d);
      }
      assert Run(st, chunk, d) == Splitter(true, false, cur + chunk, []) by {
        RunChunk(s[0], d, cur);
      }
      assert Run(Splitter(true, false, cur + chunk, []), tail, d) == Splitter(true, false, cur + chunk + tail, []) by {
        RunEscapeEach(s[1..], d, cur + chunk);
      }
      assert cur + chunk + tail == cur + (chunk + tail);
    }
  }

  /** A quoted, escaped token is read whole, whatever it quotes. */
  lemma QuotedPasses(s: string, d: char)
    ensures PassesThrough("\"" + Escaped(s) + "\"", d)
  {
    var e := Escaped(s);
    var open := Splitter(true, false, "\"", []);
    assert Run(SplitStart, "\"" + e, d) == Splitter(true, false, "\"" + e, []) by {
      RunAppend(SplitStart, "\"", e, d);
      RunOne(SplitStart, '"', d);
      assert "" + ['"'] == "\"";
      EscapedIsEscapeEach(s);
      RunEscapeEach(s, d, "\"");
    }
    RunAppend(SplitStart, "\"" + e, "\"", d);
    RunOne(Splitter(true, false, "\"" + e, []), '"', d);
  }

  /** Tokens read whole and joined by the delimiter split back into the same
      tokens. */
  lemma {:induction false} RunJoinTokens(toks: seq<string>, d: char, done: seq<string>)
    requires toks != [] && IsDelimiter(d)
    requires forall i :: 0 <= i < |toks| ==> PassesThrough(toks[i], d)
    ensures Run(Splitter(false, false, "", done), Join(toks, [d]), d)
         == Splitter(false, false, toks[|toks| - 1], done + toks[..|toks| - 1])
    decreases |toks|
  {
    if |toks| == 1 {
      PassesAnywhere(toks[0], d, "", done);
      assert "" + toks[0] == toks[0];
      assert done + toks[..0] == done;
    } else {
      var rest := toks[1..];
      JoinHeadStep(toks, d, done);
      RunJoinTokens(rest, d, done + [toks[0]]);
      assert done + [toks[0]] + rest[..|rest| - 1] == done + toks[..|toks| - 1];
    }
  }

  /** The first token and the delimiter after it close the first piece. */
  lemma JoinHeadStep(toks: seq<string>, d: char, done: seq<string>)
    requires |toks| > 1 && IsDelimiter(d) && PassesThrough(toks[0], d)
    ensures Run(Splitter(false, false, "", done), Join(toks, [d]), d)
         == Run(Splitter(false, false, "", done + [toks[0]]), Join(toks[1..], [d]), d)
  {
    var st := Splitter(false, false, "", done);
    assert Run(st, toks[0], d) == Splitter(false, false, toks[0], done) by {
      PassesAnywhere(toks[0], d, "", done);
      assert "" + toks[0] == toks[0];
    }
    assert Join(toks, [d]) == toks[0] + [d] + Join(toks[1..], [d]);
    assert Run(st, toks[0] + [d], d) == Splitter(false, false, "", done + [toks[0]]) by {
      RunAppend(st, toks[0], [d], d);
      RunOne(Splitter(false, false, toks[0], done), d, d);
    }
    RunAppend(st, toks[0] + [d], Join(toks[1..], [d]), d);
  }

  lemma PiecesOfJoin(toks: seq<string>, d: char)
    requires toks != [] && IsDelimiter(d)
    requires forall i :: 0 <= i < |toks| ==> PassesThrough(toks[i], d)
    ensures Pieces(Join(toks, [d]), d) == toks
  {
    JoinRunsToLast(toks, d);
    LastSplit(toks);
  }

  /** Splitting the joined tokens from the start leaves the last one open. */
  lemma JoinRunsToLast(toks: seq<string>, d: char)
    requires toks != [] && IsDelimiter(d)
    requires forall i :: 0 <= i < |toks| ==> PassesThrough(toks[i], d)
    ensures Run(SplitStart, Join(toks, [d]), d) == Splitter(false, false, toks[|toks| - 1], toks[..|toks| - 1])
  {
    RunJoinTokens(toks, d, []);
    assert [] + toks[..|toks| - 1] == toks[..|toks| - 1];
  }

  lemma LastSplit<T>(s: seq<T>)
    requires s != []
    ensures s[..|s| - 1] + [s[|s| - 1]] == s
  {
  }

  // ---------------------------------------------------------------------------
  // Tokens

  /** A primitive the model can round-trip: not a double. */
  predicate IsExactPrimitive(v: Value)
  {
    v.IsPrimitive() && !v.Double?
  }

  predicate AllExact(values: seq<Value>)
  {
    forall i :: 0 <= i < |values| ==> IsExactPrimitive(values[i])
  }

  lemma IntPlain(i: int, d: char)
    requires IsDelimiter(d)
    ensures IsPlain(IntToDecimal(i), d)
  {
    var t := IntToDecimal(i);
    if i < 0 {
      assert forall k :: 1 <= k < |t| ==> t[k] == NatToDecimal(-i)[k - 1];
    }
  }

  /** Every token the encoder writes for a primitive other than a double is
      read whole by the splitting loop. */
  lemma PrimitivePasses(v: Value, d: char)
    requires IsDelimiter(d) && IsExactPrimitive(v)
    ensures PassesThrough(EncodePrimitive(v, d).value, d)
  {
    match v
    case Null => PlainPasses("null", d);
    case Bool(b) => PlainPasses("true", d); PlainPasses("false", d);
    case Int(i) => IntPlain(i, d); PlainPasses(IntToDecimal(i), d);
    case Str(s) =>
      if IsSafeToken(s, d) {
        PlainPasses(s, d);
      } else {
        QuotedPasses(s, d);
      }
  }

  /** The same for every key the encoder writes. */
  lemma KeyPasses(k: string, d: char)
    requires IsDelimiter(d)
    ensures PassesThrough(EncodeKey(k), d)
  {
    if IsValidUnquotedKey(k) {
      BareKeyChars(k);
      PlainPasses(k, d);
    } else {
      QuotedPasses(k, d);
    }
  }

  /** The decoder reads the token of a primitive other than a double back as
      that primitive, and the token has no padding to trim. */
  lemma EncodePrimitiveReadsBack(v: Value, d: char)
    requires IsExactPrimitive(v)
    ensures var t := EncodePrimitive(v, d).value; t != [] && Trim(t) == t && ParsePrimitiveValue(t) == Ok(v)
  {
    match v
    case Null => KeywordTokens();
    case Bool(b) => KeywordTokens();
    case Int(i) => IntToken(i);
    case Str(s) => StringTokenReadsBack(s, d);
  }

  /** The token of a string reads back as the string, with no padding. */
  lemma StringTokenReadsBack(s: string, d: char)
    ensures var t := EncodeStringLiteral(s, d); t != [] && Trim(t) == t && ParsePrimitiveValue(t) == Ok(Str(s))
  {
    var t := EncodeStringLiteral(s, d);
    EncodeStringLiteralReadsBack(s, d);
    if IsSafeToken(s, d) {
      SafeTokenShape(s, d);
    } else {
      assert Trim(t) == t;
    }
  }

  // ---------------------------------------------------------------------------
  // Delimited values and field lists

  lemma {:induction false} EncodedValuesShape(values: seq<Value>, d: char)
    requires IsDelimiter(d) && AllExact(values)
    ensures |EncodedValues(values, d)| == |values|
    ensures forall i :: 0 <= i < |values| ==> PassesThrough(EncodedValues(values, d)[i], d)
    ensures ParseAll(EncodedValues(values, d)) == Ok(values)
  {
    EncodedValuesPass(values, d);
    EncodedValuesParse(values, d);
  }

  /** Every token the encoder writes for a list of values passes the splitter. */
  lemma {:induction false} EncodedValuesPass(values: seq<Value>, d: char)
    requires IsDelimiter(d) && AllExact(values)
    ensures |EncodedValues(values, d)| == |values|
    ensures forall i :: 0 <= i < |values| ==> PassesThrough(EncodedValues(values, d)[i], d)
  {
    if values != [] {
      assert AllExact(values[1..]);
      EncodedValuesPass(values[1..], d);
      var t := EncodedValuesStep(values, d);
    }
  }

  /** The tokens the encoder writes for a list of values parse back into it. */
  lemma {:induction false} EncodedValuesParse(values: seq<Value>, d: char)
    requires IsDelimiter(d) && AllExact(values)
    ensures ParseAll(EncodedValues(values, d)) == Ok(values)
  {
    if values != [] {
      assert AllExact(values[1..]);
      EncodedValuesParse(values[1..], d);
      var t := EncodedValuesStep(values, d);
      assert [values[0]] + values[1..] == values;
    }
  }

  /** The first token of a non-empty list of exact primitives. */
  lemma EncodedValuesStep(values: seq<Value>, d: char) returns (t: string)
    requires IsDelimiter(d) && values != [] && IsExactPrimitive(values[0])
    ensures EncodedValues(values, d) == [t] + EncodedValues(values[1..], d)
    ensures PassesThrough(t, d)
    ensures ParseAll(EncodedValues(values, d)) == Cons(Ok(values[0]), ParseAll(EncodedValues(values[1..], d)))
    ensures forall i :: 1 <= i < |EncodedValues(values, d)| ==> EncodedValues(values, d)[i] == EncodedValues(values[1..], d)[i - 1]
  {
    t := TokenOf(values[0], d);
    TokensCons(t, EncodedValues(values[1..], d), d);
  }

  /** The token the encoder writes for one primitive other than a double. */
  lemma TokenOf(v: Value, d: char) returns (t: string)
    requires IsDelimiter(d) && IsExactPrimitive(v)
    ensures EncodePrimitive(v, d) == Some(t)
    ensures PassesThrough(t, d) && ParsePrimitiveValue(Trim(t)) == Ok(v)
  {
    t := EncodePrimitive(v, d).value;
    PrimitivePasses(v, d);
    EncodePrimitiveReadsBack(v, d);
  }

  /** A token in front of a list of tokens. */
  lemma TokensCons(t: string, rest: seq<string>, d: char)
    ensures ([t] + rest)[0] == t && ([t] + rest)[1..] == rest
    ensures ParseAll([t] + rest) == Cons(ParsePrimitiveValue(Trim(t)), ParseAll(rest))
    ensures forall i :: 1 <= i < |rest| + 1 ==> ([t] + rest)[i] == rest[i - 1]
  {
    assert ([t] + rest)[1..] == rest;
  }

  /** The inline values of an array, as the encoder joins them, split and
      parse back into the same values. */
  lemma JoinedValuesReadBack(values: seq<Value>, d: char)
    requires IsDelimiter(d) && values != [] && AllExact(values)
    ensures DelimitedValues(JoinEncodedValues(values, d), d) == Ok(values)
  {
    var toks := EncodedValues(values, d);
    EncodedValuesShape(values, d);
    PiecesOfJoin(toks, d);
    EncodePrimitiveReadsBack(values[0], d);
    assert toks[0] == EncodePrimitive(values[0], d).value;
  }

  lemma {:induction false} EncodedKeysShape(fields: seq<string>, d: char)
    requires IsDelimiter(d)
    ensures forall i :: 0 <= i < |fields| ==> PassesThrough(EncodedKeys(fields)[i], d)
    ensures ParseKeys(EncodedKeys(fields)) == Ok(fields)
  {
    if fields != [] {
      EncodedKeysShape(fields[1..], d);
      KeyPasses(fields[0], d);
      EncodeKeyRoundTrip(fields[0]);
      var ks := EncodedKeys(fields);
      assert ks[1..] == EncodedKeys(fields[1..]);
      assert [fields[0]] + fields[1..] == fields;
    }
  }

  /** The field names of a tabular header, as the encoder writes them, read
      back as the same names. */
  lemma FieldsListRoundTrip(fields: seq<string>, d: char)
    requires IsDelimiter(d) && fields != []
    ensures FieldsList(Join(EncodedKeys(fields), [d]), d) == Ok(fields)
  {
    var ks := EncodedKeys(fields);
    EncodedKeysShape(fields, d);
    PiecesOfJoin(ks, d);
    var k := fields[|fields| - 1];
    assert ks[|ks| - 1] == EncodeKey(k);
    assert EncodeKey(k) != [];
  }

  // ---------------------------------------------------------------------------
  // Headers

  /** Escaped text after an opening quote holds no closing quote, and leaves
      no escape pending at its end. */
  lemma {:induction false} EscapedOpen(s: string, p: nat, x: string)
    requires 1 <= p && p + |EscapeEach(x)| <= |s|
    requires s[p..p + |EscapeEach(x)|] == EscapeEach(x)
    requires !EscapePending(s, p)
    ensures !EscapePending(s, p + |EscapeEach(x)|)
    ensures NoCloseIn(s, p, p + |EscapeEach(x)|)
    decreases |x|
  {
    if x != [] {
      var q, e := FirstEscapeOpen(s, p, x);
      EscapedOpen(s, q, x[1..]);
      NoCloseJoin(s, p, q, e);
    } else {
      assert EscapeEach(x) == [];
    }
  }

  /** The escape of the first character of `x` after an opening quote, and
      where the escape of the rest begins and ends. */
  lemma FirstEscapeOpen(s: string, p: nat, x: string) returns (q: nat, e: nat)
    requires x != [] && 1 <= p && p + |EscapeEach(x)| <= |s|
    requires s[p..p + |EscapeEach(x)|] == EscapeEach(x)
    requires !EscapePending(s, p)
    ensures p <= q <= e == p + |EscapeEach(x)| && e == q + |EscapeEach(x[1..])|
    ensures s[q..e] == EscapeEach(x[1..])
    ensures !EscapePending(s, q) && NoCloseIn(s, p, q)
  {
    var chunk, tail := EscapeOf(x[0]), EscapeEach(x[1..]);
    assert EscapeEach(x) == chunk + tail;
    q, e := p + |chunk|, p + |chunk| + |tail|;
    SliceSplit(s, p, chunk, tail);
    ChunkOpen(s, p, x[0]);
  }

  /** No closing quote at any index from `a` up to `b`. */
  predicate NoCloseIn(s: string, a: nat, b: nat)
    requires 1 <= a && b <= |s|
  {
    forall j :: a <= j < b ==> !IsClosingQuoteAt(s, j)
  }

  lemma NoCloseJoin(s: string, a: nat, m: nat, b: nat)
    requires 1 <= a <= m <= b <= |s|
    requires NoCloseIn(s, a, m) && NoCloseIn(s, m, b)
    ensures NoCloseIn(s, a, b)
  {
  }

  /** The escape of one character after an opening quote closes nothing and
      leaves no escape pending. */
  lemma ChunkOpen(s: string, p: nat, x: char)
    requires 1 <= p && p + |EscapeOf(x)| <= |s|
    requires s[p..p + |EscapeOf(x)|] == EscapeOf(x)
    requires !EscapePending(s, p)
    ensures !EscapePending(s, p + |EscapeOf(x)|)
    ensures NoCloseIn(s, p, p + |EscapeOf(x)|)
  {
    var chunk := EscapeOf(x);
    assert s[p] == chunk[0];
    if IsSpecial(x) {
      assert s[p + 1] == chunk[1];
      assert EscapePending(s, p + 1);
    }
  }

  /** A slice that spells `a + b` spells `a`, then `b`. */
  lemma SliceSplit(s: string, p: nat, a: string, b: string)
    requires p + |a + b| <= |s| && s[p..p + |a + b|] == a + b
    ensures s[p..p + |a|] == a && s[p + |a|..p + |a| + |b|] == b
  {
    assert s[p..p + |a + b|][..|a|] == a;
    assert s[p..p + |a + b|][|a|..] == b;
  }

  /** The closing quote of a quoted key is the one the encoder wrote. */
  lemma QuotedKeyCloses(k: string, rest: string)
    ensures ClosingQuote("\"" + Escaped(k) + "\"" + rest) == Some(|Escaped(k)| + 1)
  {
    var e := Escaped(k);
    var s := "\"" + e + "\"" + rest;
    var n := |e| + 1;
    EscapedIsEscapeEach(k);
    assert s[1..n] == e;
    EscapedOpen(s, 1, k);
    assert IsClosingQuoteAt(s, n);
  }

  /** The key stage reads back a bare key up to the `[` after it. */
  lemma BareKeyStage(k: string, tail: string)
    requires IsValidUnquotedKey(k)
    requires tail != [] && tail[0] == '['
    ensures HeaderKey(k + tail) == Ok(KeyPart(Some(k), |k|))
  {
    var content := k + tail;
    BareKeyChars(k);
    assert content[|k|] == '[' && content[..|k|] == k;
    assert FirstIndexOf(content, '[') == Some(|k|);
  }

  /** The key stage reads back a quoted key up to its closing quote, whatever
      the key holds. */
  lemma QuotedKeyStage(k: string, tail: string)
    ensures var q := "\"" + Escaped(k) + "\"";
      HeaderKey(q + tail) == Ok(KeyPart(Some(k), |q|))
  {
    var e := Escaped(k);
    var content := "\"" + e + "\"" + tail;
    QuotedKeyCloses(k, tail);
    assert content[1..|e| + 1] == e;
    UnescapeEscaped(k);
  }

  /** The key stage reads back the key the encoder wrote before `[`. */
  lemma KeyStage(key: Option<string>, tail: string)
    requires tail != [] && tail[0] == '['
    ensures var pre := if key.Some? then EncodeKey(key.value) else "";
      HeaderKey(pre + tail) == Ok(KeyPart(key, |pre|))
  {
    if key.None? {
      assert "" + tail == tail;
    } else if IsValidUnquotedKey(key.value) {
      BareKeyStage(key.value, tail);
    } else {
      QuotedKeyStage(key.value, tail);
    }
  }

  /** The count stage reads back the length, with or without the marker. */
  lemma CountStage(content: string, i: nat, length: nat, n: string, marker: bool, after: string)
    requires length <= INT64_MAX && i <= |content| && DecimalOf(n, length)
    requires content[i..] == "[" + (if marker then "#" else "") + n + after
    requires after != [] && !IsDigit(after[0])
    ensures HeaderCountPart(content, i) == Ok(CountPart(marker, length, i + 1 + (if marker then 1 else 0) + |n|))
  {
    var j := if marker then i + 2 else i + 1;
    var u := content[j..];
    assert u == n + after by {
      assert content[i..][j - i..] == u;
    }
    assert u[..|n|] == n;
    LeadingDigitsExact(u, |n|);
    IntToDecimalRoundTrip(length);
    assert IntToDecimal(length) == n;
    assert content[i] == '[';
    if !marker {
      assert content[i + 1] == n[0];
    } else {
      assert content[i + 1] == '#';
    }
  }

  /** `n` is the decimal text of `count`. */
  predicate DecimalOf(n: string, count: nat)
  {
    n == NatToDecimal(count)
  }

  /** The delimiter stage reads back the delimiter, written only when it is
      not a comma. */
  lemma DelimiterStage(content: string, k: nat, d: char, after: string)
    requires IsDelimiter(d) && k <= |content|
    requires content[k..] == (if d != ',' then [d] else "") + "]" + after
    ensures HeaderDelimiter(content, k) == Ok(DelimiterPart(d, k + (if d != ',' then 2 else 1)))
  {
    if d != ',' {
      assert content[k] == d && content[k + 1] == ']';
    } else {
      assert content[k] == ']';
    }
  }

  lemma {:induction false} JoinAvoids(parts: seq<string>, sep: string, x: char)
    requires x !in sep
    requires forall i :: 0 <= i < |parts| ==> x !in parts[i]
    ensures x !in Join(parts, sep)
  {
    if |parts| > 1 {
      JoinAvoids(parts[1..], sep, x);
    }
  }

  /** Written keys hold a closing brace only where the keys themselves do. */
  lemma KeysAvoidBrace(fields: seq<string>, d: char)
    requires IsDelimiter(d)
    requires forall i :: 0 <= i < |fields| ==> '}' !in fields[i]
    ensures '}' !in Join(EncodedKeys(fields), [d])
  {
    var ks := EncodedKeys(fields);
    forall i | 0 <= i < |ks|
      ensures '}' !in ks[i]
    {
      KeyAvoidsBrace(fields[i]);
    }
    JoinAvoids(ks, [d], '}');
  }

  lemma KeyAvoidsBrace(k: string)
    requires '}' !in k
    ensures '}' !in EncodeKey(k)
  {
    if IsValidUnquotedKey(k) {
      assert EncodeKey(k) == k;
    } else {
      EscapedKeeps(k, '}');
    }
  }

  /** The field stage reads back the field names, when there are any, and
      the colon follows; `q` is where the field list ends. */
  lemma FieldsStage(content: string, d: char, p: nat, fields: Option<seq<string>>, after: string, q: nat)
    requires IsDelimiter(d) && p <= |content|
    requires FieldNamesFit(fields)
    requires content[p..] == FieldsText(fields, d) + ":" + after
    requires q == p + |FieldsText(fields, d)|
    ensures q < |content| && content[q] == ':'
    ensures HeaderFieldsPart(content, d, p) == Ok(FieldsPart(fields, q))
  {
    if fields.Some? {
      FieldsSomeStage(content, d, p, fields, after, q);
    } else {
      FieldsNoneStage(content, d, p, fields, after, q);
    }
  }

  lemma FieldsNoneStage(content: string, d: char, p: nat, fields: Option<seq<string>>, after: string, q: nat)
    requires fields.None? && p <= |content|
    requires content[p..] == FieldsText(fields, d) + ":" + after
    requires q == p + |FieldsText(fields, d)|
    ensures q < |content| && content[q] == ':'
    ensures HeaderFieldsPart(content, d, p) == Ok(FieldsPart(fields, q))
  {
    assert content[p..] == ":" + after;
    assert content[p] == content[p..][0];
  }

  lemma FieldsSomeStage(content: string, d: char, p: nat, fields: Option<seq<string>>, after: string, q: nat)
    requires fields.Some? && IsDelimiter(d) && p <= |content|
    requires FieldNamesFit(fields)
    requires content[p..] == FieldsText(fields, d) + ":" + after
    requires q == p + |FieldsText(fields, d)|
    ensures q < |content| && content[q] == ':'
    ensures HeaderFieldsPart(content, d, p) == Ok(FieldsPart(fields, q))
  {
    var names := Join(EncodedKeys(fields.value), [d]);
    BracedAt(content, p, names, FieldsText(fields, d), after, q);
    KeysAvoidBrace(fields.value, d);
    FirstIndexPast(names, "}" + ":" + after, '}');
    FieldsListRoundTrip(fields.value, d);
    BracedFields(content, d, p, names, fields, q);
  }

  /** The field stage on a braced list whose first `}` closes it. */
  lemma BracedFields(content: string, d: char, p: nat, names: string, fields: Option<seq<string>>, q: nat)
    requires fields.Some? && q == p + 2 + |names| && q <= |content| && content[p] == '{'
    requires FirstIndexOf(content[p + 1..], '}') == Some(|names|)
    requires content[p + 1..p + 1 + |names|] == names
    requires FieldsList(names, d) == Ok(fields.value)
    ensures HeaderFieldsPart(content, d, p) == Ok(FieldsPart(fields, q))
  {
    var close := FirstIndexOf(content[p + 1..], '}');
    assert content[p + 1..p + 1 + close.value] == names;
    assert fields == Some(FieldsList(names, d).value);
  }

  /** Where the parts of a braced list begin. */
  lemma BracedAt(content: string, p: nat, names: string, f: string, after: string, q: nat)
    requires f == "{" + names + "}" && p <= |content| && q == p + |f|
    requires content[p..] == f + ":" + after
    ensures q < |content| && q == p + 2 + |names|
    ensures content[p] == '{' && content[q] == ':'
    ensures content[p + 1..] == names + ("}" + ":" + after)
    ensures content[p + 1..p + 1 + |names|] == names
  {
    var u := content[p + 1..];
    assert content[p] == content[p..][0];
    assert content[p..][1..] == u;
    assert u == names + ("}" + ":" + after);
    assert content[p + 1..p + 1 + |names|] == u[..|names|];
    assert content[q] == u[|names| + 1];
  }

  /** The first occurrence of `c` in `a + b` is that of `b` when `a` has none. */
  lemma {:induction false} FirstIndexPast(a: string, b: string, c: char)
    requires c !in a && b != [] && b[0] == c
    ensures FirstIndexOf(a + b, c) == Some(|a|)
  {
    if a != [] {
      assert (a + b)[1..] == a[1..] + b;
      FirstIndexPast(a[1..], b, c);
    } else {
      assert a + b == b;
    }
  }

  /** The field-list part of a header: the encoded names between braces. */
  function FieldsText(fields: Option<seq<string>>, d: char): (r: string)
    ensures fields.None? ==> r == []
  {
    if fields.Some? then "{" + Join(EncodedKeys(fields.value), [d]) + "}" else ""
  }

  /** The decoder reads every header the encoder writes back as the header
      it was written from, whatever follows it on the line. Field names must
      hold no `}`: the decoder takes the field list up to the first `}`,
      quoted or not. */
  lemma FormatHeaderRoundTrip(length: nat, key: Option<string>, fields: Option<seq<string>>, d: char, marker: bool, rest: string)
    requires IsDelimiter(d) && length <= INT64_MAX
    requires FieldNamesFit(fields)
    ensures var h := FormatHeader(length, key, fields, d, marker);
      HeaderOf(h + rest) == Ok(HeaderParse(ArrayHeader(key, length, d, fields, marker), |h|))
  {
    var q := HeaderLineRoundTrip(length, key, fields, d, marker, rest);
    HeaderWidth(length, key, fields, d, marker, rest, q);
  }

  /** The header line of a written header reads back as that header; `q` is
      where its field list ends. */
  lemma HeaderLineRoundTrip(length: nat, key: Option<string>, fields: Option<seq<string>>, d: char, marker: bool, rest: string)
    returns (q: nat)
    requires IsDelimiter(d) && length <= INT64_MAX
    requires FieldNamesFit(fields)
    ensures q + 1 + |rest| == |HeaderLine(KeyText(key), marker, CountText(length), d, FieldsText(fields, d), rest)|
    ensures HeaderOf(HeaderLine(KeyText(key), marker, CountText(length), d, FieldsText(fields, d), rest))
      == Ok(HeaderParse(ArrayHeader(key, length, d, fields, marker), q + 1))
  {
    var c := HeaderLine(KeyText(key), marker, CountText(length), d, FieldsText(fields, d), rest);
    var i, k, p;
    i, k, p, q := HeaderLineStages(c, length, key, fields, d, marker, rest);
    ChainedStages(c, key, length, marker, d, fields, i, k, p, q);
  }

  /** Each stage of the decoder reads its part of a written header back,
      starting where the stage before it ended: `i`, `k`, `p` and `q` are
      where the key, the count, the `]` and the field list end. */
  lemma HeaderLineStages(c: string, length: nat, key: Option<string>, fields: Option<seq<string>>, d: char,
                         marker: bool, rest: string)
    returns (i: nat, k: nat, p: nat, q: nat)
    requires c == HeaderLine(KeyText(key), marker, CountText(length), d, FieldsText(fields, d), rest)
    requires IsDelimiter(d) && length <= INT64_MAX
    requires FieldNamesFit(fields)
    ensures i <= |c| && k <= |c| && p <= |c| && q + 1 + |rest| == |c|
    ensures HeaderKey(c) == Ok(KeyPart(key, i))
    ensures HeaderCountPart(c, i) == Ok(CountPart(marker, length, k))
    ensures HeaderDelimiter(c, k) == Ok(DelimiterPart(d, p))
    ensures HeaderFieldsPart(c, d, p) == Ok(FieldsPart(fields, q))
    ensures HeaderColon(c, q) == Ok(q + 1)
  {
    i, k := HeadStages(c, length, key, fields, d, marker, rest);
    p, q := TailStages(c, length, key, fields, d, marker, rest, k);
  }

  /** The key and count stages of a header line. */
  lemma HeadStages(c: string, length: nat, key: Option<string>, fields: Option<seq<string>>, d: char,
                   marker: bool, rest: string)
    returns (i: nat, k: nat)
    requires c == HeaderLine(KeyText(key), marker, CountText(length), d, FieldsText(fields, d), rest)
    requires IsDelimiter(d) && length <= INT64_MAX
    ensures i <= |c| && k == CountEnd(KeyText(key), marker, CountText(length))
    ensures HeaderKey(c) == Ok(KeyPart(key, i))
    ensures HeaderCountPart(c, i) == Ok(CountPart(marker, length, k))
  {
    var pre, n, f := KeyText(key), CountText(length), FieldsText(fields, d);
    i, k := |pre|, CountEnd(pre, marker, n);
    LineKey(c, key, marker, n, d, f, rest);
    CountTextDecimal(length);
    LineCount(c, pre, marker, n, length, d, f, rest, k);
  }

  /** The delimiter, field and colon stages of a header line, from the end
      of its count. */
  lemma TailStages(c: string, length: nat, key: Option<string>, fields: Option<seq<string>>, d: char,
                   marker: bool, rest: string, k: nat)
    returns (p: nat, q: nat)
    requires c == HeaderLine(KeyText(key), marker, CountText(length), d, FieldsText(fields, d), rest)
    requires k == CountEnd(KeyText(key), marker, CountText(length))
    requires IsDelimiter(d) && FieldNamesFit(fields)
    ensures k <= |c| && p <= |c| && q + 1 + |rest| == |c|
    ensures HeaderDelimiter(c, k) == Ok(DelimiterPart(d, p))
    ensures HeaderFieldsPart(c, d, p) == Ok(FieldsPart(fields, q))
    ensures HeaderColon(c, q) == Ok(q + 1)
  {
    var pre, n, f := KeyText(key), CountText(length), FieldsText(fields, d);
    p := DelimiterEnd(pre, marker, n, d);
    q := p + |f|;
    assert k <= |c| && HeaderDelimiter(c, k) == Ok(DelimiterPart(d, p)) by {
      LineDelimiter(c, pre, marker, n, d, f, rest, k, p);
    }
    assert p <= |c| && HeaderFieldsPart(c, d, p) == Ok(FieldsPart(fields, q)) by {
      LineFields(c, pre, marker, n, d, fields, rest, p);
    }
    assert HeaderColon(c, q) == Ok(q + 1) by {
      LineColon(c, pre, marker, n, d, f, rest, p, q);
    }
    assert q + 1 + |rest| == |c| by {
      LineWidth(c, pre, marker, n, d, f, rest, q);
    }
  }

  /** The five stages of a header, each read from where the one before it
      ended, assemble the header. */
  lemma ChainedStages(content: string, key: Option<string>, count: nat, marker: bool, d: char,
                      fields: Option<seq<string>>, i: nat, k: nat, p: nat, q: nat)
    requires i <= |content| && k <= |content| && p <= |content| && q <= |content|
    requires HeaderKey(content) == Ok(KeyPart(key, i))
    requires HeaderCountPart(content, i) == Ok(CountPart(marker, count, k))
    requires HeaderDelimiter(content, k) == Ok(DelimiterPart(d, p))
    requires HeaderFieldsPart(content, d, p) == Ok(FieldsPart(fields, q))
    requires HeaderColon(content, q) == Ok(q + 1)
    ensures HeaderOf(content) == Ok(HeaderParse(ArrayHeader(key, count, d, fields, marker), q + 1))
  {
  }

  lemma CountTextDecimal(length: nat)
    ensures DecimalOf(CountText(length), length)
  {
  }

  /** Field names the header round trip covers: a non-empty list whose names
      hold no `}`. */
  predicate FieldNamesFit(fields: Option<seq<string>>)
  {
    fields.Some? ==> fields.value != [] && forall i :: 0 <= i < |fields.value| ==> '}' !in fields.value[i]
  }

  /** The key as a header writes it, empty when there is none. */
  function KeyText(key: Option<string>): string
  {
    if key.Some? then EncodeKey(key.value) else ""
  }

  /** The length as a header writes it. */
  function CountText(length: nat): string
  {
    NatToDecimal(length)
  }

  /** A header line: the key text, `[`, the marker, the count, the
      delimiter unless it is a comma, `]`, the field list, `:`, then the
      rest of the line. */
  function HeaderLine(pre: string, marker: bool, n: string, d: char, f: string, rest: string): string
  {
    pre + "[" + (if marker then "#" else "") + n + (if d != ',' then [d] else "") + "]" + f + ":" + rest
  }

  /** Where the count of a header line ends. */
  function CountEnd(pre: string, marker: bool, n: string): nat
  {
    |pre| + 1 + (if marker then 1 else 0) + |n|
  }

  /** Where the `]` of a header line ends. */
  function DelimiterEnd(pre: string, marker: bool, n: string, d: char): nat
  {
    CountEnd(pre, marker, n) + (if d != ',' then 2 else 1)
  }

  /** The header ends where its line, less the rest of the line, ends. */
  lemma HeaderWidth(length: nat, key: Option<string>, fields: Option<seq<string>>, d: char, marker: bool, rest: string, q: nat)
    requires q + 1 + |rest| == |HeaderLine(KeyText(key), marker, CountText(length), d, FieldsText(fields, d), rest)|
    ensures q + 1 == |FormatHeader(length, key, fields, d, marker)|
  {
  }

  /** The key stage reads back the key text at the head of a header line. */
  lemma LineKey(c: string, key: Option<string>, marker: bool, n: string, d: char, f: string, rest: string)
    requires c == HeaderLine(KeyText(key), marker, n, d, f, rest)
    ensures HeaderKey(c) == Ok(KeyPart(key, |KeyText(key)|))
  {
    var tail := "[" + (if marker then "#" else "") + n + (if d != ',' then [d] else "") + "]" + f + ":" + rest;
    LineSplit(KeyText(key), marker, n, d, f, rest);
    KeyStage(key, tail);
  }

  /** A header line is its key text followed by the rest of the header. */
  lemma LineSplit(pre: string, marker: bool, n: string, d: char, f: string, rest: string)
    ensures HeaderLine(pre, marker, n, d, f, rest)
      == pre + ("[" + (if marker then "#" else "") + n + (if d != ',' then [d] else "") + "]" + f + ":" + rest)
  {
    var m := if marker then "#" else "";
    var dl := if d != ',' then [d] else "";
    Assoc(pre, "[", m);
    Assoc(pre, "[" + m, n);
    Assoc(pre, "[" + m + n, dl);
    Assoc(pre, "[" + m + n + dl, "]");
    Assoc(pre, "[" + m + n + dl + "]", f);
    Assoc(pre, "[" + m + n + dl + "]" + f, ":");
    Assoc(pre, "[" + m + n + dl + "]" + f + ":", rest);
  }

  /** What follows the key text of a header line. */
  lemma LineCountAt(pre: string, marker: bool, n: string, d: char, f: string, rest: string)
    ensures |pre| <= |HeaderLine(pre, marker, n, d, f, rest)|
    ensures HeaderLine(pre, marker, n, d, f, rest)[|pre|..]
      == "[" + (if marker then "#" else "") + n + ((if d != ',' then [d] else "") + "]" + f + ":" + rest)
  {
    var m := if marker then "#" else "";
    var dl := if d != ',' then [d] else "";
    var a := "[" + m + n;
    LineSplit(pre, marker, n, d, f, rest);
    Assoc(a, dl, "]");
    Assoc(a, dl + "]", f);
    Assoc(a, dl + "]" + f, ":");
    Assoc(a, dl + "]" + f + ":", rest);
  }

  /** What follows the count of a header line. */
  lemma LineDelimiterAt(pre: string, marker: bool, n: string, d: char, f: string, rest: string)
    ensures CountEnd(pre, marker, n) <= |HeaderLine(pre, marker, n, d, f, rest)|
    ensures HeaderLine(pre, marker, n, d, f, rest)[CountEnd(pre, marker, n)..]
      == (if d != ',' then [d] else "") + "]" + (f + ":" + rest)
  {
    var c := HeaderLine(pre, marker, n, d, f, rest);
    var a := "[" + (if marker then "#" else "") + n;
    var b := (if d != ',' then [d] else "") + "]";
    LineCountAt(pre, marker, n, d, f, rest);
    Assoc(b, f, ":");
    Assoc(b, f + ":", rest);
    Assoc(b, f, ":" + rest);
    Assoc(f, ":", rest);
    assert c[|pre|..] == a + (b + (f + ":" + rest));
    assert c[|pre|..][|a|..] == b + (f + ":" + rest);
  }

  /** What follows the `]` of a header line, and the colon after the field
      list. */
  lemma LineFieldsAt(pre: string, marker: bool, n: string, d: char, f: string, rest: string)
    ensures DelimiterEnd(pre, marker, n, d) + |f| < |HeaderLine(pre, marker, n, d, f, rest)|
    ensures HeaderLine(pre, marker, n, d, f, rest)[DelimiterEnd(pre, marker, n, d)..] == f + ":" + rest
    ensures HeaderLine(pre, marker, n, d, f, rest)[DelimiterEnd(pre, marker, n, d) + |f|] == ':'
  {
    var c := HeaderLine(pre, marker, n, d, f, rest);
    var k := CountEnd(pre, marker, n);
    var b := (if d != ',' then [d] else "") + "]";
    LineDelimiterAt(pre, marker, n, d, f, rest);
    assert c[k..][|b|..] == f + ":" + rest;
    assert c[DelimiterEnd(pre, marker, n, d)..] == c[k..][|b|..];
    assert (f + ":" + rest)[|f|] == ':';
  }

  /** The count stage reads back the count of a header line. */
  lemma LineCount(c: string, pre: string, marker: bool, n: string, length: nat, d: char, f: string, rest: string, k: nat)
    requires c == HeaderLine(pre, marker, n, d, f, rest) && k == CountEnd(pre, marker, n)
    requires IsDelimiter(d) && length <= INT64_MAX && DecimalOf(n, length)
    ensures |pre| <= |c| && HeaderCountPart(c, |pre|) == Ok(CountPart(marker, length, k))
  {
    LineCountAt(pre, marker, n, d, f, rest);
    BracketHead(d, f + ":" + rest);
    CountStage(c, |pre|, length, n, marker, (if d != ',' then [d] else "") + "]" + f + ":" + rest);
  }

  /** The delimiter stage reads back the delimiter of a header line. */
  lemma LineDelimiter(c: string, pre: string, marker: bool, n: string, d: char, f: string, rest: string, k: nat, p: nat)
    requires c == HeaderLine(pre, marker, n, d, f, rest)
    requires k == CountEnd(pre, marker, n) && p == DelimiterEnd(pre, marker, n, d)
    requires IsDelimiter(d)
    ensures k <= |c| && HeaderDelimiter(c, k) == Ok(DelimiterPart(d, p))
  {
    LineDelimiterAt(pre, marker, n, d, f, rest);
    DelimiterStage(c, k, d, f + ":" + rest);
  }

  /** The field stage reads back the field list of a header line. */
  lemma LineFields(c: string, pre: string, marker: bool, n: string, d: char, fields: Option<seq<string>>, rest: string, p: nat)
    requires c == HeaderLine(pre, marker, n, d, FieldsText(fields, d), rest) && p == DelimiterEnd(pre, marker, n, d)
    requires IsDelimiter(d) && FieldNamesFit(fields)
    ensures p <= |c| && HeaderFieldsPart(c, d, p) == Ok(FieldsPart(fields, p + |FieldsText(fields, d)|))
  {
    LineFieldsAt(pre, marker, n, d, FieldsText(fields, d), rest);
    FieldsStage(c, d, p, fields, rest, p + |FieldsText(fields, d)|);
  }

  /** A header line is as wide as its header and the rest of the line. */
  lemma LineWidth(c: string, pre: string, marker: bool, n: string, d: char, f: string, rest: string, q: nat)
    requires c == HeaderLine(pre, marker, n, d, f, rest) && q == DelimiterEnd(pre, marker, n, d) + |f|
    ensures q + 1 + |rest| == |c|
  {
  }

  /** The colon stage finds the colon after the field list of a header line. */
  lemma LineColon(c: string, pre: string, marker: bool, n: string, d: char, f: string, rest: string, p: nat, q: nat)
    requires c == HeaderLine(pre, marker, n, d, f, rest)
    requires p == DelimiterEnd(pre, marker, n, d) && q == p + |f|
    ensures q <= |c| && HeaderColon(c, q) == Ok(q + 1)
  {
    LineFieldsAt(pre, marker, n, d, f, rest);
  }

  /** What follows the count starts with the delimiter or `]`, never a digit. */
  lemma BracketHead(d: char, r3: string)
    requires IsDelimiter(d)
    ensures (if d != ',' then [d] else "") + "]" + r3 != []
    ensures !IsDigit(((if d != ',' then [d] else "") + "]" + r3)[0])
  {
  }

  lemma Assoc(a: string, b: string, c: string)
    ensures a + b + c == a + (b + c)
  {
  }
  // ---------------------------------------------------------------------------
  // Whole lines

  /** The decoder measures every line the encoder writes at the depth it was
      written at, and finds the content after the indentation. */
  lemma LineReadBack(cfg: Config, depth: nat, content: string)
    requires cfg.indent > 0
    requires content == [] || content[0] != ' '
    ensures LineDepth(Line(cfg, depth, content), cfg.indent) == depth
    ensures LineContent(Line(cfg, depth, content)) == content
  {
    IndentedLine(cfg.indent, depth, content);
  }

  /** An inline array line reads back as the header it was written with,
      followed, after one space, by the values it was written from. */
  lemma InlineArrayReadBack(cfg: Config, values: seq<Value>, key: Option<string>)
    requires values != [] && AllExact(values) && |values| <= INT64_MAX
    ensures var d, h := cfg.delimiter.Char(), HeaderFor(cfg, |values|, key, None);
      var line := FormatInlineArray(cfg, values, key);
      && HeaderOf(line) == Ok(HeaderParse(ArrayHeader(key, |values|, d, None, cfg.lengthMarker == Hash), |h|))
      && |h| <= |line|
      && DelimitedValues(TrimLeadingSpace(line[|h|..]), d) == Ok(values)
  {
    var d, h := cfg.delimiter.Char(), HeaderFor(cfg, |values|, key, None);
    var joined := JoinEncodedValues(values, d);
    InlineSplit(cfg, values, key);
    FormatHeaderRoundTrip(|values|, key, None, d, cfg.lengthMarker == Hash, " " + joined);
    JoinedValuesReadBack(values, d);
    SpaceThenValues(h, joined, d, values);
  }

  /** An inline array line is its header, a space and the joined values. */
  lemma InlineSplit(cfg: Config, values: seq<Value>, key: Option<string>)
    requires values != []
    ensures FormatInlineArray(cfg, values, key)
      == HeaderFor(cfg, |values|, key, None) + (" " + JoinEncodedValues(values, cfg.delimiter.Char()))
  {
  }

  /** What follows a header and one space is the text after the space. */
  lemma SpaceThenValues(h: string, joined: string, d: char, values: seq<Value>)
    requires DelimitedValues(joined, d) == Ok(values)
    ensures |h| <= |h + (" " + joined)|
    ensures DelimitedValues(TrimLeadingSpace((h + (" " + joined))[|h|..]), d) == Ok(values)
  {
    assert (h + (" " + joined))[|h|..] == " " + joined;
  }
  /** Every header key of a row that has them all, in header order. */
  lemma {:induction false} HeaderValuesAll(values: map<string, Value>, header: seq<string>)
    requires forall j :: 0 <= j < |header| ==> header[j] in values
    ensures |HeaderValues(values, header)| == |header|
    ensures forall j :: 0 <= j < |header| ==> HeaderValues(values, header)[j] == values[header[j]]
  {
    if header != [] {
      HeaderValuesAll(values, header[1..]);
      assert HeaderValues(values, header) == [values[header[0]]] + HeaderValues(values, header[1..]);
    }
  }

  /** A tabular row line reads back as the row's cells in header order, and
      the decoder's row object built from them is the row's own mapping. */
  lemma TabularRowReadBack(cfg: Config, row: Value, header: seq<string>)
    requires row.Object? && header != [] && NoDuplicates(header)
    requires forall k :: k in row.values <==> k in header
    requires forall j :: 0 <= j < |header| ==> IsExactPrimitive(row.values[header[j]])
    ensures var cells := HeaderValues(row.values, header);
      && |cells| == |header|
      && DelimitedValues(JoinEncodedValues(cells, cfg.delimiter.Char()), cfg.delimiter.Char()) == Ok(cells)
      && Descent.RowValues(header, cells) == row.values
  {
    var d, cells := cfg.delimiter.Char(), HeaderValues(row.values, header);
    HeaderValuesAll(row.values, header);
    assert AllExact(cells);
    JoinedValuesReadBack(cells, d);
    RowOfCells(row.values, header, cells);
  }

  /** The decoder's row object over cells taken from a mapping in header
      order is that mapping, when the header lists its keys once each. */
  lemma RowOfCells(values: map<string, Value>, header: seq<string>, cells: seq<Value>)
    requires NoDuplicates(header) && |cells| == |header|
    requires forall k :: k in values <==> k in header
    requires forall j :: 0 <= j < |header| ==> cells[j] == values[header[j]]
    ensures Descent.RowValues(header, cells) == values
  {
    DescentFacts.RowValuesFacts(header, cells);
    var m := Descent.RowValues(header, cells);
    forall k | k in values
      ensures m[k] == values[k]
    {
      var j :| 0 <= j < |header| && header[j] == k;
    }
  }

  /** A list without duplicates has as many distinct elements as entries. */
  lemma {:induction false} DistinctCount(s: seq<string>)
    requires NoDuplicates(s)
    ensures |set x | x in s| == |s|
  {
    if s != [] {
      assert NoDuplicates(s[1..]) by {
        forall i, j | 0 <= i < j < |s[1..]|
          ensures s[1..][i] != s[1..][j]
        {
          assert s[1..][i] == s[i + 1] && s[1..][j] == s[j + 1];
        }
      }
      DistinctCount(s[1..]);
      assert s[0] !in s[1..] by {
        forall j | 0 <= j < |s[1..]|
          ensures s[1..][j] != s[0]
        {
          assert s[1..][j] == s[j + 1];
        }
      }
      assert (set x | x in s) == {s[0]} + (set x | x in s[1..]);
    }
  }

  /** A list of distinct keys, all found in another list of distinct keys
      that also holds one more key, is shorter than that list. */
  lemma SubsetCount(header: seq<string>, keys: seq<string>, k: string)
    requires NoDuplicates(header) && NoDuplicates(keys)
    requires forall j :: 0 <= j < |header| ==> header[j] in keys
    requires k in keys && k !in header
    ensures |header| < |keys|
  {
    var hs, ks := set x | x in header, set x | x in keys;
    DistinctCount(header);
    DistinctCount(keys);
    var more := hs + {k};
    assert more <= ks;
    assert |more| == |hs| + 1;
    assert ks == more + (ks - more);
  }

  /** The header `detectTabularHeader` finds lists every row's keys exactly,
      once each, and each row holds a primitive under every one of them. */
  lemma DetectedHeaderKeys(rows: seq<Value>, header: seq<string>, i: nat)
    requires DetectTabularHeader(rows) == Some(header)
    requires i < |rows| && WellFormed(rows[0]) && WellFormed(rows[i])
    ensures rows[i].Object? && header != [] && NoDuplicates(header)
    ensures forall k :: k in rows[i].values <==> k in header
    ensures forall j :: 0 <= j < |header| ==> rows[i].values[header[j]].IsPrimitive()
  {
    assert RowFits(rows[i], header);
    var row := rows[i];
    forall k | k in row.values
      ensures k in header
    {
      if k !in header {
        SubsetCount(header, row.keyOrder, k);
        assert false;
      }
    }
  }

  /** `writeTabularRows` writes one line per row, the row's cells in header order. */
  lemma {:induction false} TabularLinesAll(cfg: Config, rows: seq<Value>, header: seq<string>, depth: nat)
    requires AllObjects(rows)
    ensures |TabularLines(cfg, rows, header, depth)| == |rows|
    ensures forall i :: 0 <= i < |rows| ==>
      TabularLines(cfg, rows, header, depth)[i]
        == Line(cfg, depth, JoinEncodedValues(HeaderValues(rows[i].values, header), cfg.delimiter.Char()))
  {
    if rows != [] {
      TabularLinesAll(cfg, rows[1..], header, depth);
    }
  }

  /** Every line of a table the encoder writes reads back as its row: the
      cells in header order, and the decoder's row object is the row itself. */
  lemma TabularReadBack(cfg: Config, rows: seq<Value>, header: seq<string>, depth: nat, i: nat)
    requires DetectTabularHeader(rows) == Some(header)
    requires WellFormed(Array(rows)) && i < |rows|
    requires forall j :: 0 <= j < |header| && header[j] in rows[i].values ==> !rows[i].values[header[j]].Double?
    ensures var d, cells := cfg.delimiter.Char(), HeaderValues(rows[i].values, header);
      && |TabularLines(cfg, rows, header, depth)| == |rows|
      && TabularLines(cfg, rows, header, depth)[i] == Line(cfg, depth, JoinEncodedValues(cells, d))
      && |cells| == |header|
      && DelimitedValues(JoinEncodedValues(cells, d), d) == Ok(cells)
      && Descent.RowValues(header, cells) == rows[i].values
  {
    assert WellFormed(rows[0]) && WellFormed(rows[i]);
    DetectedHeaderKeys(rows, header, i);
    assert AllObjects(rows) by {
      forall k | 0 <= k < |rows| ensures rows[k].Object? { assert RowFits(rows[k], header); }
    }
    TabularLinesAll(cfg, rows, header, depth);
    TabularRowReadBack(cfg, rows[i], header);
  }
}

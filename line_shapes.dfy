/** What the decoder's line-level scans see in the lines the encoder writes:
    a written line holds no line break, the key-value separator of a key
    line is the colon after its key, a key line is not an array header, and
    a primitive's token holds no separator. */
module LineShapes {
  import opened ToonValue
  import opened Text
  import opened Numbers
  import opened Scan
  import opened Primitive
  import opened Header
  import opened Quoting
  import opened Emit
  import opened EncodeFacts

  /** Text that splitting into lines keeps whole. */
  predicate OneLine(t: string)
  {
    '\n' !in t && '\r' !in t
  }

  /** Text the separator scan passes over unchanged: no quote, backslash or
      bracket, and no colon. */
  predicate ScanPlain(t: string)
  {
    forall i :: 0 <= i < |t| ==> t[i] != '"' && t[i] != '\\' && t[i] != '[' && t[i] != ']' && t[i] != ':'
  }

  /** The state of the separator scan inside a quoted run. */
  const InQuotes: QuoteState := QuoteState(true, false, 0)

  // ---------------------------------------------------------------------------
  // The separator scan over written text

  /** Outside quotes and escapes, text without quotes, backslashes or
      brackets leaves the scan state as it is. */
  lemma {:induction false} PlainStates(s: string, p: nat, n: nat, st: QuoteState)
    requires p + n <= |s| && StateAt(s, p) == st && !st.inQuotes && !st.escaped
    requires forall j :: p <= j < p + n ==> s[j] != '"' && s[j] != '\\' && s[j] != '[' && s[j] != ']'
    ensures forall j :: p <= j <= p + n ==> StateAt(s, j) == st
    decreases n
  {
    if n > 0 {
      PlainStates(s, p, n - 1, st);
      assert StateAt(s, p + n) == Advance(StateAt(s, p + n - 1), s[p + n - 1]);
    }
  }

  /** Scan-plain text from the start state: the state stays the start state
      and none of its characters separates. */
  lemma PlainRun(s: string, p: nat, t: string)
    requires p + |t| <= |s| && s[p..p + |t|] == t && StateAt(s, p) == Start
    requires ScanPlain(t)
    ensures StateAt(s, p + |t|) == Start
    ensures forall j :: p <= j < p + |t| ==> !IsSeparatorAt(s, j)
  {
    forall j | p <= j < p + |t|
      ensures s[j] != '"' && s[j] != '\\' && s[j] != '[' && s[j] != ']' && s[j] != ':'
    {
      assert s[j] == t[j - p];
    }
    PlainStates(s, p, |t|, Start);
  }

  /** Escaped text inside quotes keeps the scan inside quotes. */
  lemma {:induction false} QuotedStates(s: string, p: nat, x: string)
    requires p + |EscapeEach(x)| <= |s| && s[p..p + |EscapeEach(x)|] == EscapeEach(x)
    requires StateAt(s, p) == InQuotes
    ensures StateAt(s, p + |EscapeEach(x)|) == InQuotes
    ensures forall j :: p <= j < p + |EscapeEach(x)| ==> StateAt(s, j).inQuotes
    decreases |x|
  {
    if x != [] {
      var chunk, tail := EscapeOf(x[0]), EscapeEach(x[1..]);
      QuotedHead(s, p, x);
      QuotedStates(s, p + |chunk|, x[1..]);
      InQuotesJoin(s, p, |chunk|, |tail|);
    }
  }

  /** The escape of the first character of `x`, and the rest after it. */
  lemma QuotedHead(s: string, p: nat, x: string)
    requires x != [] && p + |EscapeEach(x)| <= |s| && s[p..p + |EscapeEach(x)|] == EscapeEach(x)
    requires StateAt(s, p) == InQuotes
    ensures var chunk, tail := EscapeOf(x[0]), EscapeEach(x[1..]);
      && |EscapeEach(x)| == |chunk| + |tail|
      && p + |chunk| + |tail| <= |s| && s[p + |chunk|..p + |chunk| + |tail|] == tail
      && StateAt(s, p + |chunk|) == InQuotes
      && forall j :: p <= j < p + |chunk| ==> StateAt(s, j).inQuotes
  {
    var chunk, tail := EscapeOf(x[0]), EscapeEach(x[1..]);
    assert EscapeEach(x) == chunk + tail;
    SliceSplit(s, p, chunk, tail);
    ChunkStatesOf(s, p, x[0], chunk);
  }

  /** `ChunkStates` with the chunk named. */
  lemma ChunkStatesOf(s: string, p: nat, x: char, chunk: string)
    requires chunk == EscapeOf(x) && p + |chunk| <= |s| && s[p..p + |chunk|] == chunk
    requires StateAt(s, p) == InQuotes
    ensures StateAt(s, p + |chunk|) == InQuotes
    ensures forall j :: p <= j < p + |chunk| ==> StateAt(s, j).inQuotes
  {
    ChunkStates(s, p, x);
  }

  /** Two adjacent runs inside quotes make one. */
  lemma InQuotesJoin(s: string, p: nat, a: nat, b: nat)
    requires p + a + b <= |s|
    requires forall j :: p <= j < p + a ==> StateAt(s, j).inQuotes
    requires forall j :: p + a <= j < p + a + b ==> StateAt(s, j).inQuotes
    ensures forall j :: p <= j < p + a + b ==> StateAt(s, j).inQuotes
  {
    forall j | p <= j < p + a + b
      ensures StateAt(s, j).inQuotes
    {
      if j < p + a {
      }
    }
  }

  /** The escape of one character inside quotes. */
  lemma ChunkStates(s: string, p: nat, x: char)
    requires p + |EscapeOf(x)| <= |s| && s[p..p + |EscapeOf(x)|] == EscapeOf(x)
    requires StateAt(s, p) == InQuotes
    ensures StateAt(s, p + |EscapeOf(x)|) == InQuotes
    ensures forall j :: p <= j < p + |EscapeOf(x)| ==> StateAt(s, j).inQuotes
  {
    var chunk := EscapeOf(x);
    assert s[p] == chunk[0];
    assert StateAt(s, p + 1) == Advance(InQuotes, s[p]);
    if IsSpecial(x) {
      assert s[p + 1] == chunk[1];
      assert StateAt(s, p + 2) == Advance(StateAt(s, p + 1), s[p + 1]);
    }
  }

  /** A quoted literal from the start state returns to it, and no colon in
      it separates. */
  lemma QuotedRun(s: string, p: nat, x: string)
    requires p + |Escaped(x)| + 2 <= |s| && s[p..p + |Escaped(x)| + 2] == "\"" + Escaped(x) + "\""
    requires StateAt(s, p) == Start
    ensures StateAt(s, p + |Escaped(x)| + 2) == Start
    ensures forall j :: p <= j < p + |Escaped(x)| + 2 ==> !IsSeparatorAt(s, j)
  {
    var e := Escaped(x);
    EscapedIsEscapeEach(x);
    QuotedSlices(s, p, e);
    QuotedParts(s, p, x, e);
  }

  /** The three pieces of a quoted literal in the text. */
  lemma QuotedSlices(s: string, p: nat, e: string)
    requires p + |e| + 2 <= |s| && s[p..p + |e| + 2] == "\"" + e + "\""
    ensures s[p..p + 1] == "\"" && s[p + 1..p + 1 + |e|] == e
    ensures s[p + 1 + |e|..p + 2 + |e|] == "\""
  {
    var t := "\"" + e + "\"";
    SliceShift(s, p, t, 0, 1);
    SliceShift(s, p, t, 1, |e|);
    SliceShift(s, p, t, 1 + |e|, 1);
    assert t[1..1 + |e|] == e;
  }

  /** The same, from the three pieces of the literal. */
  lemma QuotedParts(s: string, p: nat, x: string, e: string)
    requires e == EscapeEach(x) && p + |e| + 2 <= |s|
    requires s[p..p + 1] == "\"" && s[p + 1..p + 1 + |e|] == e
    requires s[p + 1 + |e|..p + 2 + |e|] == "\""
    requires StateAt(s, p) == Start
    ensures StateAt(s, p + |e| + 2) == Start
    ensures forall j :: p <= j < p + |e| + 2 ==> !IsSeparatorAt(s, j)
  {
    var q := p + 1 + |e|;
    assert s[p] == s[p..p + 1][0];
    assert s[q] == s[q..q + 1][0];
    QuoteStep(s, p, Start);
    QuotedStates(s, p + 1, x);
    QuoteStep(s, q, InQuotes);
    forall j | p <= j < q + 1
      ensures !IsSeparatorAt(s, j)
    {
      if p < j < q {
        assert StateAt(s, j).inQuotes;
      }
    }
  }

  /** A quote outside an escape toggles quoting. */
  lemma QuoteStep(s: string, p: nat, st: QuoteState)
    requires p < |s| && s[p] == '"' && StateAt(s, p) == st && !st.escaped
    ensures StateAt(s, p + 1) == st.(inQuotes := !st.inQuotes)
  {
  }

  /** A slice of text that spells `t` spells each piece of `t`. */
  lemma SliceShift(s: string, p: nat, t: string, i: nat, n: nat)
    requires p + |t| <= |s| && s[p..p + |t|] == t && i + n <= |t|
    ensures s[p + i..p + i + n] == t[i..i + n]
  {
    var a, b := s[p + i..p + i + n], t[i..i + n];
    forall j | 0 <= j < n
      ensures a[j] == b[j]
    {
      assert a[j] == s[p..p + |t|][i + j];
    }
  }

  /** A bare key is scan-plain. */
  lemma BareKeyPlain(k: string)
    requires IsValidUnquotedKey(k)
    ensures ScanPlain(k) && OneLine(k)
  {
    BareKeyChars(k);
  }

  /** A written key from the start state returns to it, and no colon in it
      separates. */
  lemma KeyRun(s: string, p: nat, k: string)
    requires p + |EncodeKey(k)| <= |s| && s[p..p + |EncodeKey(k)|] == EncodeKey(k)
    requires StateAt(s, p) == Start
    ensures StateAt(s, p + |EncodeKey(k)|) == Start
    ensures forall j :: p <= j < p + |EncodeKey(k)| ==> !IsSeparatorAt(s, j)
  {
    if IsValidUnquotedKey(k) {
      BareKeyPlain(k);
      PlainRun(s, p, k);
    } else {
      QuotedRun(s, p, k);
    }
  }

  /** A decimal integer is scan-plain and fits one line. */
  lemma IntPlainText(i: int)
    ensures ScanPlain(IntToDecimal(i)) && OneLine(IntToDecimal(i))
  {
    var t := IntToDecimal(i);
    var n := NatToDecimal(if i < 0 then -i else i);
    forall k | 0 <= k < |t|
      ensures t[k] == '-' || IsDigit(t[k])
    {
      if i < 0 && k > 0 {
        assert t[k] == n[k - 1];
      }
    }
  }

  /** A string the encoder leaves bare is scan-plain and fits one line. */
  lemma SafePlainText(s: string, d: char)
    requires IsSafeUnquoted(s, d)
    ensures ScanPlain(s) && OneLine(s)
  {
    forall k | 0 <= k < |s|
      ensures !IsStructural(s[k])
    {
    }
  }

  /** The keywords are scan-plain. */
  lemma KeywordPlainText(t: string)
    requires t == "null" || t == "true" || t == "false"
    ensures ScanPlain(t) && OneLine(t)
  {
  }

  /** The token of a primitive fits one line, and is scan-plain or a quoted
      literal. */
  lemma TokenForm(v: Value, d: char)
    requires IsExactPrimitive(v)
    ensures var t := EncodePrimitive(v, d).value;
      && OneLine(t)
      && (ScanPlain(t) || (v.Str? && t == "\"" + Escaped(v.s) + "\""))
  {
    match v
    case Null => KeywordPlainText("null");
    case Bool(b) => KeywordPlainText(if b then "true" else "false");
    case Int(i) => IntPlainText(i);
    case Str(s) =>
      if IsSafeToken(s, d) {
        SafePlainText(s, d);
      }
  }

  /** The token of a primitive from the start state returns to it, and no
      colon in it separates. */
  lemma TokenRun(s: string, p: nat, v: Value, d: char)
    requires IsExactPrimitive(v)
    requires var t := EncodePrimitive(v, d).value; p + |t| <= |s| && s[p..p + |t|] == t
    requires StateAt(s, p) == Start
    ensures var t := EncodePrimitive(v, d).value;
      && StateAt(s, p + |t|) == Start
      && forall j :: p <= j < p + |t| ==> !IsSeparatorAt(s, j)
  {
    var t := EncodePrimitive(v, d).value;
    TokenForm(v, d);
    TokenTextRun(s, p, v, t);
  }

  /** The same, for a scan-plain or quoted token `t`. */
  lemma TokenTextRun(s: string, p: nat, v: Value, t: string)
    requires ScanPlain(t) || (v.Str? && t == "\"" + Escaped(v.s) + "\"")
    requires p + |t| <= |s| && s[p..p + |t|] == t
    requires StateAt(s, p) == Start
    ensures StateAt(s, p + |t|) == Start
    ensures forall j :: p <= j < p + |t| ==> !IsSeparatorAt(s, j)
  {
    if ScanPlain(t) {
      PlainRun(s, p, t);
    } else {
      QuotedRun(s, p, v.s);
    }
  }

  /** The separator of a key line is the colon right after its key. */
  lemma KeySeparator(k: string, tail: string)
    requires tail != [] && tail[0] == ':'
    ensures KeyValueSeparator(EncodeKey(k) + tail) == Some(|EncodeKey(k)|)
  {
    var s, n := EncodeKey(k) + tail, |EncodeKey(k)|;
    assert s[0..n] == EncodeKey(k);
    KeyRun(s, 0, k);
    assert s[n] == ':';
    assert IsSeparatorAt(s, n);
  }

  /** A primitive's token on its own has no separator. */
  lemma TokenHasNoSeparator(v: Value, d: char)
    requires IsExactPrimitive(v)
    ensures KeyValueSeparator(EncodePrimitive(v, d).value) == None
  {
    var t := EncodePrimitive(v, d).value;
    assert t[0..|t|] == t;
    TokenRun(t, 0, v, d);
  }

  // ---------------------------------------------------------------------------
  // Key lines

  /** A key line is not an array header: the key is followed by a colon,
      and a bare key leaves no `[` on the line. */
  lemma KeyLineNotHeader(k: string, tail: string)
    requires tail != [] && tail[0] == ':' && '[' !in tail
    ensures HeaderOf(EncodeKey(k) + tail).Err?
  {
    var content := EncodeKey(k) + tail;
    if IsValidUnquotedKey(k) {
      BareKeyPlain(k);
      assert '[' !in content;
      assert HeaderKey(content) == Ok(KeyPart(None, 0));
      assert content[0] == k[0];
    } else {
      QuotedKeyStage(k, tail);
      assert content[|EncodeKey(k)|] == ':';
    }
  }

  /** A written key is not empty and starts with neither a space, a hyphen
      nor a bracket, and it fits one line. */
  lemma KeyStart(k: string)
    ensures var e := EncodeKey(k); e != [] && e[0] != ' ' && e[0] != '-' && e[0] != '['
    ensures OneLine(EncodeKey(k))
  {
    if IsValidUnquotedKey(k) {
      BareKeyPlain(k);
    }
  }

  // ---------------------------------------------------------------------------
  // Line breaks

  /** The tokens of a list of primitives, one per value. */
  lemma {:induction false} EncodedValuesAt(values: seq<Value>, d: char)
    requires AllPrimitive(values)
    ensures |EncodedValues(values, d)| == |values|
    ensures forall i :: 0 <= i < |values| ==> EncodedValues(values, d)[i] == EncodePrimitive(values[i], d).value
  {
    if values != [] {
      EncodedValuesAt(values[1..], d);
      assert EncodedValues(values, d) == [EncodePrimitive(values[0], d).value] + EncodedValues(values[1..], d);
    }
  }

  /** Joined tokens fit one line. */
  lemma JoinedOneLine(values: seq<Value>, d: char)
    requires IsDelimiter(d) && AllExact(values)
    ensures OneLine(JoinEncodedValues(values, d))
  {
    var toks := EncodedValues(values, d);
    EncodedValuesAt(values, d);
    forall i | 0 <= i < |toks|
      ensures OneLine(toks[i])
    {
      TokenForm(values[i], d);
    }
    JoinAvoids(toks, [d], '\n');
    JoinAvoids(toks, [d], '\r');
  }

  /** A written header fits one line. */
  lemma HeaderOneLine(length: nat, key: Option<string>, fields: Option<seq<string>>, d: char, marker: bool)
    requires IsDelimiter(d)
    ensures OneLine(FormatHeader(length, key, fields, d, marker))
  {
    var k := if key.Some? then EncodeKey(key.value) else "";
    var m := if marker then "#" else "";
    var n := NatToDecimal(length);
    var dl := if d != ',' then [d] else "";
    var f := if fields.Some? then "{" + Join(EncodedKeys(fields.value), [d]) + "}" else "";
    if key.Some? {
      KeyStart(key.value);
    }
    LengthOneLine(length, d, marker);
    FieldsOneLine(fields, d);
    OneLineCat(k, "[");
    OneLineCat(k + "[", m);
    OneLineCat(k + "[" + m, n);
    OneLineCat(k + "[" + m + n, dl);
    OneLineCat(k + "[" + m + n + dl, "]");
    OneLineCat(k + "[" + m + n + dl + "]", f);
    OneLineCat(k + "[" + m + n + dl + "]" + f, ":");
  }

  lemma OneLineCat(a: string, b: string)
    requires OneLine(a) && OneLine(b)
    ensures OneLine(a + b)
  {
  }

  /** The length in a header fits one line. */
  lemma LengthOneLine(length: nat, d: char, marker: bool)
    requires IsDelimiter(d)
    ensures OneLine(NatToDecimal(length))
  {
    var n := NatToDecimal(length);
    forall i | 0 <= i < |n| ensures IsDigit(n[i]) { }
  }

  /** The braced field list of a header fits one line. */
  lemma FieldsOneLine(fields: Option<seq<string>>, d: char)
    requires IsDelimiter(d)
    ensures OneLine(if fields.Some? then "{" + Join(EncodedKeys(fields.value), [d]) + "}" else "")
  {
    if fields.Some? {
      var names := EncodedKeys(fields.value);
      forall i | 0 <= i < |names|
        ensures OneLine(names[i])
      {
        KeyStart(fields.value[i]);
      }
      JoinAvoids(names, [d], '\n');
      JoinAvoids(names, [d], '\r');
    }
  }

  /** An inline array fits one line. */
  lemma InlineOneLine(cfg: Config, values: seq<Value>, key: Option<string>)
    requires AllExact(values)
    ensures OneLine(FormatInlineArray(cfg, values, key))
  {
    HeaderOneLine(|values|, key, None, cfg.delimiter.Char(), cfg.lengthMarker == Hash);
    if values != [] {
      JoinedOneLine(values, cfg.delimiter.Char());
    }
  }

  /** An indented line fits one line when its content does, and is not empty
      when its content is not. */
  lemma LineOneLine(cfg: Config, depth: nat, content: string)
    requires OneLine(content)
    ensures OneLine(Line(cfg, depth, content))
    ensures content != [] ==> Line(cfg, depth, content) != []
  {
  }

  // ---------------------------------------------------------------------------
  // Header lines

  /** The separator scan over a whole text, from a given state. */
  function RunFrom(st: QuoteState, t: string): QuoteState
  {
    if t == [] then st else Advance(RunFrom(st, t[..|t| - 1]), t[|t| - 1])
  }

  /** The scan state before a position is the scan of the text before it. */
  lemma {:induction false} StateIsRun(s: string, k: nat)
    requires k <= |s|
    ensures StateAt(s, k) == RunFrom(Start, s[..k])
  {
    if k > 0 {
      StateIsRun(s, k - 1);
      assert s[..k][..k - 1] == s[..k - 1];
    }
  }

  /** Scanning a concatenation scans its parts in turn. */
  lemma {:induction false} RunAppend(st: QuoteState, a: string, b: string)
    ensures RunFrom(st, a + b) == RunFrom(RunFrom(st, a), b)
    decreases |b|
  {
    if b == [] {
      assert a + b == a;
    } else {
      var b' := b[..|b| - 1];
      assert (a + b)[..|a + b| - 1] == a + b';
      RunAppend(st, a, b');
    }
  }

  /** Text without quotes, backslashes or brackets leaves a state outside
      quotes and escapes as it is. */
  lemma {:induction false} RunPlain(st: QuoteState, t: string)
    requires !st.inQuotes && !st.escaped
    requires forall i :: 0 <= i < |t| ==> t[i] != '"' && t[i] != '\\' && t[i] != '[' && t[i] != ']'
    ensures RunFrom(st, t) == st
    decreases |t|
  {
    if t != [] {
      RunPlain(st, t[..|t| - 1]);
    }
  }

  /** A written key scans from the start state back to it. */
  lemma RunKey(k: string)
    ensures RunFrom(Start, EncodeKey(k)) == Start
  {
    var e := EncodeKey(k);
    assert e[0..|e|] == e && e[..|e|] == e;
    KeyRun(e, 0, k);
    StateIsRun(e, |e|);
  }

  /** Written field names joined by a delimiter scan from the start state
      back to it. */
  lemma {:induction false} RunKeys(fields: seq<string>, d: char)
    requires IsDelimiter(d)
    ensures RunFrom(Start, Join(EncodedKeys(fields), [d])) == Start
    decreases |fields|
  {
    var names := EncodedKeys(fields);
    if |fields| == 0 {
    } else if |fields| == 1 {
      RunKey(fields[0]);
    } else {
      assert names[1..] == EncodedKeys(fields[1..]);
      var rest := Join(names[1..], [d]);
      assert Join(names, [d]) == names[0] + [d] + rest;
      RunKey(fields[0]);
      RunAppend(Start, names[0], [d]);
      RunAppend(Start, names[0] + [d], rest);
      RunPlain(Start, [d]);
      RunKeys(fields[1..], d);
    }
  }

  /** The field list of a header scans from the start state back to it. */
  lemma RunFields(fields: Option<seq<string>>, d: char)
    requires IsDelimiter(d)
    ensures RunFrom(Start, if fields.Some? then "{" + Join(EncodedKeys(fields.value), [d]) + "}" else "") == Start
  {
    if fields.Some? {
      var j := Join(EncodedKeys(fields.value), [d]);
      RunKeys(fields.value, d);
      RunAppend(Start, "{", j);
      RunAppend(Start, "{" + j, "}");
      RunPlain(Start, "{");
      RunPlain(Start, "}");
    }
  }

  /** The bracketed length of a header scans from the start state back to it. */
  lemma RunBracket(pre: string, m: string, n: string, dl: string)
    requires RunFrom(Start, pre) == Start
    requires forall i :: 0 <= i < |m| ==> m[i] == '#'
    requires AllDigits(n)
    requires forall i :: 0 <= i < |dl| ==> IsDelimiter(dl[i])
    ensures RunFrom(Start, pre + "[" + m + n + dl + "]") == Start
  {
    var open := QuoteState(false, false, 1);
    var p1 := pre + "[";
    var inside := m + n + dl;
    RunChar(Start, '[');
    RunThen(Start, pre, ['['], Start, open);
    BracketInside(m, n, dl);
    RunThen(Start, p1, inside, open, open);
    RunChar(open, ']');
    CloseBracket();
    RunThen(Start, p1 + inside, [']'], open, Start);
    ConcatAssoc(p1, m, n, dl);
  }

  lemma ConcatAssoc<T>(a: seq<T>, b: seq<T>, c: seq<T>, d: seq<T>)
    ensures a + (b + c + d) == a + b + c + d
  {
  }

  /** Inside the brackets of a header the scan stays one bracket deep. */
  lemma BracketInside(m: string, n: string, dl: string)
    requires forall i :: 0 <= i < |m| ==> m[i] == '#'
    requires AllDigits(n)
    requires forall i :: 0 <= i < |dl| ==> IsDelimiter(dl[i])
    ensures RunFrom(QuoteState(false, false, 1), m + n + dl) == QuoteState(false, false, 1)
  {
    var open := QuoteState(false, false, 1);
    RunPlain(open, m);
    RunPlain(open, n);
    RunThen(open, m, n, open, open);
    RunPlain(open, dl);
    RunThen(open, m + n, dl, open, open);
  }

  /** A closing bracket at depth one outside quotes returns to the start state. */
  lemma CloseBracket()
    ensures Advance(QuoteState(false, false, 1), ']') == Start
  {
  }

  /** Scanning one character is one step of the scan. */
  lemma RunChar(st: QuoteState, c: char)
    ensures RunFrom(st, [c]) == Advance(st, c)
  {
    assert [c][..0] == [];
  }

  /** Scanning two texts in turn. */
  lemma RunThen(st: QuoteState, a: string, b: string, mid: QuoteState, fin: QuoteState)
    requires RunFrom(st, a) == mid && RunFrom(mid, b) == fin
    ensures RunFrom(st, a + b) == fin
  {
    RunAppend(st, a, b);
  }

  /** A line that starts with a header whose key is written has a
      separator: the colon that ends the header. */
  lemma HeaderLineSeparator(length: nat, key: string, fields: Option<seq<string>>, d: char, marker: bool, rest: string)
    requires IsDelimiter(d)
    ensures KeyValueSeparator(FormatHeader(length, Some(key), fields, d, marker) + rest).Some?
  {
    var k, m, n := EncodeKey(key), (if marker then "#" else ""), NatToDecimal(length);
    var dl, f := (if d != ',' then [d] else ""), (if fields.Some? then "{" + Join(EncodedKeys(fields.value), [d]) + "}" else "");
    var b := k + "[" + m + n + dl + "]";
    var h' := b + f;
    RunKey(key);
    RunBracket(k, m, n, dl);
    RunFields(fields, d);
    RunAppend(Start, b, f);
    assert FormatHeader(length, Some(key), fields, d, marker) + rest == h' + ":" + rest;
    SeparatorAfter(h', rest);
  }

  /** A colon after text that the scanner ends outside quotes and brackets
      is a separator. */
  lemma SeparatorAfter(h: string, rest: string)
    requires RunFrom(Start, h) == Start
    ensures KeyValueSeparator(h + ":" + rest).Some?
  {
    var s := h + ":" + rest;
    assert s[..|h|] == h;
    StateIsRun(s, |h|);
    assert s[|h|] == ':';
    assert IsSeparatorAt(s, |h|);
  }
}

/** The character-level scanners of the decoder. Each scanner is a loop over the
    characters of one line that carries `inQuotes` / `escaped` flags (and, for
    the separator search, a bracket depth). Every loop is written as a method
    and proved equal to a function that states the scan declaratively. */
module Scan {
  import opened ToonValue
  import opened Text

  // ---------------------------------------------------------------------------
  // Key/value separator: `isKeyValuePair` and `findKeyValueSeparator`

  /** Flags of the separator scan after some prefix of the line. */
  datatype QuoteState = QuoteState(inQuotes: bool, escaped: bool, depth: int)

  const Start: QuoteState := QuoteState(false, false, 0)

  /** One character of the separator scan: an escaped character is skipped,
      a backslash escapes the next character, a quote toggles quoting, and
      brackets outside quotes change the depth. */
  function Advance(st: QuoteState, c: char): QuoteState
  {
    if st.escaped then st.(escaped := false)
    else if c == '\\' then st.(escaped := true)
    else if c == '"' then st.(inQuotes := !st.inQuotes)
    else if !st.inQuotes && c == '[' then st.(depth := st.depth + 1)
    else if !st.inQuotes && c == ']' then st.(depth := st.depth - 1)
    else st
  }

  /** State of the scan before position `k`. */
  function StateAt(s: string, k: nat): QuoteState
    requires k <= |s|
  {
    if k == 0 then Start else Advance(StateAt(s, k - 1), s[k - 1])
  }

  /** A colon that is not escaped, outside quotes and outside brackets. */
  predicate IsSeparatorAt(s: string, i: nat)
    requires i < |s|
  {
    var st := StateAt(s, i);
    s[i] == ':' && !st.escaped && !st.inQuotes && st.depth == 0
  }

  function SeparatorFrom(s: string, i: nat): (r: Option<nat>)
    requires i <= |s|
    ensures r.Some? ==> i <= r.value < |s| && IsSeparatorAt(s, r.value)
    ensures forall j :: i <= j < (if r.Some? then r.value else |s|) ==> !IsSeparatorAt(s, j)
    decreases |s| - i
  {
    if i == |s| then None
    else if IsSeparatorAt(s, i) then Some(i)
    else SeparatorFrom(s, i + 1)
  }

  /** The position of the first separating colon of a line, if any. */
  function KeyValueSeparator(s: string): (r: Option<nat>)
    ensures r.Some? ==> r.value < |s| && s[r.value] == ':' && IsSeparatorAt(s, r.value)
    ensures forall j :: 0 <= j < (if r.Some? then r.value else |s|) ==> !IsSeparatorAt(s, j)
  {
    SeparatorFrom(s, 0)
  }

  /** A line without quotes, backslashes or brackets separates at its first colon. */
  lemma {:induction false} PlainSeparator(s: string, i: nat)
    requires i <= |s|
    requires forall j :: 0 <= j < |s| ==> s[j] != '"' && s[j] != '\\' && s[j] != '[' && s[j] != ']'
    ensures StateAt(s, i) == Start
  {
    if i > 0 {
      PlainSeparator(s, i - 1);
    }
  }

  /** The loop of `findKeyValueSeparator`. */
  method FindKeyValueSeparator(s: string) returns (r: Option<nat>)
    ensures r == KeyValueSeparator(s)
  {
    var inQuotes := false;
    var escaped := false;
    var bracketDepth := 0;
    var i := 0;
    while i < |s|
      invariant 0 <= i <= |s|
      invariant StateAt(s, i) == QuoteState(inQuotes, escaped, bracketDepth)
      invariant SeparatorFrom(s, i) == SeparatorFrom(s, 0)
    {
      var c := s[i];
      if escaped {
        escaped := false;
      } else if c == '\\' {
        escaped := true;
      } else if c == '"' {
        inQuotes := !inQuotes;
      } else if !inQuotes {
        if c == '[' {
          bracketDepth := bracketDepth + 1;
        } else if c == ']' {
          bracketDepth := bracketDepth - 1;
        } else if c == ':' && bracketDepth == 0 {
          return Some(i);
        }
      }
      i := i + 1;
    }
    return None;
  }

  /** The loop of `isKeyValuePair`: true exactly when the line has a separator. */
  method IsKeyValuePair(s: string) returns (r: bool)
    ensures r <==> KeyValueSeparator(s).Some?
  {
    var inQuotes := false;
    var escaped := false;
    var bracketDepth := 0;
    var i := 0;
    while i < |s|
      invariant 0 <= i <= |s|
      invariant StateAt(s, i) == QuoteState(inQuotes, escaped, bracketDepth)
      invariant SeparatorFrom(s, i) == SeparatorFrom(s, 0)
    {
      var c := s[i];
      if escaped {
        escaped := false;
      } else if c == '\\' {
        escaped := true;
      } else if c == '"' {
        inQuotes := !inQuotes;
      } else if !inQuotes {
        if c == '[' {
          bracketDepth := bracketDepth + 1;
        } else if c == ']' {
          bracketDepth := bracketDepth - 1;
        } else if c == ':' && bracketDepth == 0 {
          return true;
        }
      }
      i := i + 1;
    }
    return false;
  }

  // ---------------------------------------------------------------------------
  // `findClosingQuote`

  /** Whether the character before position `k` left an escape pending; the
      scan starts just after the opening quote at position 0. */
  function EscapePending(s: string, k: nat): bool
    requires 1 <= k <= |s|
  {
    if k == 1 then false else !EscapePending(s, k - 1) && s[k - 1] == '\\'
  }

  predicate IsClosingQuoteAt(s: string, j: nat)
    requires 1 <= j < |s|
  {
    s[j] == '"' && !EscapePending(s, j)
  }

  function ClosingQuoteFrom(s: string, i: nat): (r: Option<nat>)
    requires 1 <= i <= |s|
    ensures r.Some? ==> i <= r.value < |s| && IsClosingQuoteAt(s, r.value)
    ensures forall j :: i <= j < (if r.Some? then r.value else |s|) ==> !IsClosingQuoteAt(s, j)
    decreases |s| - i
  {
    if i == |s| then None
    else if IsClosingQuoteAt(s, i) then Some(i)
    else ClosingQuoteFrom(s, i + 1)
  }

  /** The first unescaped quote after the opening one. */
  function ClosingQuote(s: string): (r: Option<nat>)
    requires s != []
    ensures r.Some? ==> 1 <= r.value < |s| && s[r.value] == '"' && !EscapePending(s, r.value)
    ensures forall j :: 1 <= j < (if r.Some? then r.value else |s|) ==> !IsClosingQuoteAt(s, j)
  {
    ClosingQuoteFrom(s, 1)
  }

  /** The loop of `findClosingQuote`. */
  method FindClosingQuote(s: string) returns (r: Option<nat>)
    requires s != []
    ensures r == ClosingQuote(s)
  {
    var escaped := false;
    var i := 1;
    while i < |s|
      invariant 1 <= i <= |s|
      invariant escaped == EscapePending(s, i)
      invariant ClosingQuoteFrom(s, i) == ClosingQuoteFrom(s, 1)
    {
      var c := s[i];
      if escaped {
        escaped := false;
      } else if c == '\\' {
        escaped := true;
      } else if c == '"' {
        return Some(i);
      }
      i := i + 1;
    }
    return None;
  }

  // ---------------------------------------------------------------------------
  // Splitting on a delimiter outside quotes: shared by `parseDelimitedValues`
  // and `parseFieldsList`

  /** State of a splitting loop: the flags, the piece being built and the
      pieces already closed. */
  datatype Splitter = Splitter(inQuotes: bool, escaped: bool, cur: string, done: seq<string>)

  const SplitStart: Splitter := Splitter(false, false, "", [])

  /** One character: escaped characters, backslashes and quotes are kept in the
      piece; a delimiter outside quotes closes the piece. */
  function Step(st: Splitter, c: char, d: char): Splitter
  {
    if st.escaped then st.(escaped := false, cur := st.cur + [c])
    else if c == '\\' then st.(escaped := true, cur := st.cur + [c])
    else if c == '"' then st.(inQuotes := !st.inQuotes, cur := st.cur + [c])
    else if !st.inQuotes && c == d then st.(cur := "", done := st.done + [st.cur])
    else st.(cur := st.cur + [c])
  }

  function Run(st: Splitter, s: string, d: char): Splitter
    decreases |s|
  {
    if s == [] then st else Run(Step(st, s[0], d), s[1..], d)
  }

  lemma {:induction false} RunAppend(st: Splitter, a: string, b: string, d: char)
    ensures Run(st, a + b, d) == Run(Run(st, a, d), b, d)
    decreases |a|
  {
    if a != [] {
      assert (a + b)[0] == a[0];
      assert (a + b)[1..] == a[1..] + b;
      RunAppend(Step(st, a[0], d), a[1..], b, d);
    } else {
      assert a + b == b;
    }
  }

  /** Running from position `i` is one step followed by running from `i + 1`. */
  lemma RunAt(st: Splitter, s: string, i: nat, d: char)
    requires i < |s|
    ensures Run(st, s[i..], d) == Run(Step(st, s[i], d), s[i + 1..], d)
  {
    assert s[i..][0] == s[i];
    assert s[i..][1..] == s[i + 1..];
  }

  lemma RunOne(st: Splitter, c: char, d: char)
    ensures Run(st, [c], d) == Step(st, c, d)
  {
    assert [c][1..] == [];
  }

  /** The raw pieces of a line split on `d` outside quotes, including the last one. */
  function Pieces(s: string, d: char): (r: seq<string>)
    ensures |r| >= 1
  {
    var f := Run(SplitStart, s, d);
    f.done + [f.cur]
  }

  /** Splitting loses nothing: the pieces joined with the delimiter give the line back. */
  lemma PiecesJoin(s: string, d: char)
    ensures Join(Pieces(s, d), [d]) == s
  {
    RunJoin(SplitStart, s, d);
  }

  lemma {:induction false} RunJoin(st: Splitter, s: string, d: char)
    ensures var f := Run(st, s, d); Join(f.done + [f.cur], [d]) == Join(st.done + [st.cur], [d]) + s
    decreases |s|
  {
    if s != [] {
      var st' := Step(st, s[0], d);
      RunJoin(st', s[1..], d);
      StepJoin(st, s[0], d);
      assert s == [s[0]] + s[1..];
    }
  }

  lemma StepJoin(st: Splitter, c: char, d: char)
    ensures var st' := Step(st, c, d); Join(st'.done + [st'.cur], [d]) == Join(st.done + [st.cur], [d]) + [c]
  {
    var st' := Step(st, c, d);
    if st'.done == st.done {
      JoinExtendLast(st.done, st.cur, c, [d]);
    } else {
      assert st'.done + [st'.cur] == (st.done + [st.cur]) + [""];
      JoinAppend(st.done + [st.cur], "", [d]);
      assert c == d;
    }
  }

  lemma {:induction false} JoinExtendLast(parts: seq<string>, last: string, c: char, sep: string)
    ensures Join(parts + [last + [c]], sep) == Join(parts + [last], sep) + [c]
  {
    if parts == [] {
      assert parts + [last + [c]] == [last + [c]];
      assert parts + [last] == [last];
    } else {
      JoinAppend(parts, last + [c], sep);
      JoinAppend(parts, last, sep);
    }
  }

  // ---------------------------------------------------------------------------
  // `unescapeString`

  predicate IsEscapable(c: char)
  {
    c == '\\' || c == '"' || c == 'n' || c == 'r' || c == 't'
  }

  function EscapeTarget(c: char): char
    requires IsEscapable(c)
  {
    if c == 'n' then '\n' else if c == 'r' then '\r' else if c == 't' then '\t' else c
  }

  function Prepend(p: string, r: Result<string>): (o: Result<string>)
    ensures o.Ok? <==> r.Ok?
    ensures o.Ok? ==> o.value == p + r.value
    ensures o.Err? ==> o == r
  {
    if r.Ok? then Ok(p + r.value) else r
  }

  lemma PrependPrepend(p: string, q: string, r: Result<string>)
    ensures Prepend(p, Prepend(q, r)) == Prepend(p + q, r)
    ensures Prepend([], r) == r
  {
    if r.Ok? {
      assert p + (q + r.value) == (p + q) + r.value;
      assert [] + r.value == r.value;
    }
  }

  /** The decoder's unescaping: `\\`, `\"`, `\n`, `\r` and `\t` become their
      characters, every other character is copied, and any other escape or a
      trailing backslash is an invalid escape sequence. */
  function Unescape(s: string): (r: Result<string>)
    ensures r.Err? ==> r.error == InvalidEscapeSequence
    ensures r.Ok? ==> |r.value| <= |s|
    decreases |s|, 1
  {
    if s == [] then Ok([])
    else if s[0] == '\\' then UnescapeAfterBackslash(s[1..])
    else Prepend([s[0]], Unescape(s[1..]))
  }

  /** The rest of the text after an unconsumed backslash. */
  function UnescapeAfterBackslash(t: string): (r: Result<string>)
    ensures r.Err? ==> r.error == InvalidEscapeSequence
    ensures r.Ok? ==> |r.value| <= |t|
    decreases |t|, 0
  {
    if t == [] then Err(InvalidEscapeSequence)
    else if IsEscapable(t[0]) then Prepend([EscapeTarget(t[0])], Unescape(t[1..]))
    else Err(InvalidEscapeSequence)
  }

  /** Text without a backslash is its own unescaping. */
  lemma {:induction false} UnescapePlain(s: string)
    requires '\\' !in s
    ensures Unescape(s) == Ok(s)
  {
    if s != [] {
      assert '\\' !in s[1..];
      UnescapePlain(s[1..]);
      assert [s[0]] + s[1..] == s;
    }
  }

  /** Unescaping a concatenation whose first part unescapes cleanly
      unescapes the second part after it. */
  lemma {:induction false} UnescapeAppend(a: string, t: string)
    requires Unescape(a).Ok?
    ensures Unescape(a + t) == Prepend(Unescape(a).value, Unescape(t))
    decreases |a|
  {
    if a == [] {
      assert a + t == t;
      PrependPrepend([], [], Unescape(t));
    } else if a[0] != '\\' {
      assert (a + t)[1..] == a[1..] + t;
      UnescapeAppend(a[1..], t);
      PrependPrepend([a[0]], Unescape(a[1..]).value, Unescape(t));
    } else {
      assert |a| >= 2 && IsEscapable(a[1]);
      assert (a + t)[1..] == a[1..] + t;
      assert (a + t)[2..] == a[2..] + t;
      assert a[1..][1..] == a[2..];
      assert (a[1..] + t)[1..] == a[2..] + t;
      UnescapeAppend(a[2..], t);
      PrependPrepend([EscapeTarget(a[1])], Unescape(a[2..]).value, Unescape(t));
    }
  }

  /** Unescaping fails on an unknown escape, or on a trailing backslash,
      that follows text which unescapes cleanly. */
  lemma UnescapeFailsOnBadEscape(a: string, c: char, b: string)
    requires Unescape(a).Ok? && !IsEscapable(c)
    ensures Unescape(a + ['\\', c] + b) == Err(InvalidEscapeSequence)
    ensures Unescape(a + ['\\']) == Err(InvalidEscapeSequence)
  {
    assert a + ['\\', c] + b == a + (['\\', c] + b);
    assert (['\\', c] + b)[1..] == [c] + b;
    UnescapeAppend(a, ['\\', c] + b);
    assert ['\\'][1..] == [];
    UnescapeAppend(a, ['\\']);
  }

  /** Conversely, a failed unescaping has a first bad backslash: the text
      before it unescapes cleanly, and it is last or followed by a character
      that is not escapable. */
  lemma {:induction false} UnescapeFailureAt(s: string) returns (k: nat)
    requires Unescape(s).Err?
    ensures k < |s| && s[k] == '\\' && Unescape(s[..k]).Ok?
    ensures k + 1 == |s| || !IsEscapable(s[k + 1])
    decreases |s|
  {
    assert s != [];
    if s[0] != '\\' {
      var k' := UnescapeFailureAt(s[1..]);
      k := k' + 1;
      assert s[..k][1..] == s[1..][..k'];
    } else if |s| == 1 || !IsEscapable(s[1]) {
      k := 0;
    } else {
      assert s[1..][1..] == s[2..];
      var k' := UnescapeFailureAt(s[2..]);
      k := k' + 2;
      assert s[..k][1..][1..] == s[2..][..k'];
    }
  }

  /** The loop of `unescapeString`. */
  method UnescapeString(s: string) returns (r: Result<string>)
    ensures r == Unescape(s)
  {
    var result := "";
    var escaped := false;
    var i := 0;
    assert s[0..] == s;
    PrependPrepend([], [], Unescape(s));
    while i < |s|
      invariant 0 <= i <= |s|
      invariant !escaped ==> Unescape(s) == Prepend(result, Unescape(s[i..]))
      invariant escaped ==> Unescape(s) == Prepend(result, UnescapeAfterBackslash(s[i..]))
    {
      var c := s[i];
      assert s[i..][1..] == s[i + 1..];
      ghost var before := result;
      if escaped {
        if c == '\\' {
          result := result + ['\\'];
        } else if c == '"' {
          result := result + ['"'];
        } else if c == 'n' {
          result := result + ['\n'];
        } else if c == 'r' {
          result := result + ['\r'];
        } else if c == 't' {
          result := result + ['\t'];
        } else {
          return Err(InvalidEscapeSequence);
        }
        escaped := false;
        PrependPrepend(before, [EscapeTarget(c)], Unescape(s[i + 1..]));
      } else if c == '\\' {
        escaped := true;
      } else {
        result := result + [c];
        PrependPrepend(before, [c], Unescape(s[i + 1..]));
      }
      i := i + 1;
    }
    if escaped {
      return Err(InvalidEscapeSequence);
    }
    assert s[i..] == [];
    assert result + [] == result;
    return Ok(result);
  }

  // ---------------------------------------------------------------------------
  // `trimIndentation`

  /** Number of leading space characters of a line. */
  function LeadingSpaces(line: string): (n: nat)
    ensures n <= |line|
    ensures forall i :: 0 <= i < n ==> line[i] == ' '
    ensures n < |line| ==> line[n] != ' '
  {
    if line != [] && line[0] == ' ' then 1 + LeadingSpaces(line[1..]) else 0
  }

  /** The indentation depth of a line: its leading spaces divided by the
      indentation width, rounded down. */
  function LineDepth(line: string, indent: nat): nat
    requires indent > 0
  {
    LeadingSpaces(line) / indent
  }

  /** The line without its leading spaces. */
  function LineContent(line: string): (c: string)
  {
    if line != [] && line[0] == ' ' then LineContent(line[1..]) else line
  }

  /** The content is what follows the leading spaces. */
  lemma {:induction false} LineContentIs(line: string)
    ensures LineContent(line) == line[LeadingSpaces(line)..]
  {
    if line != [] && line[0] == ' ' {
      LineContentIs(line[1..]);
    }
  }

  /** A line written as `depth` indentation units followed by content that
      does not start with a space is measured back at that depth. */
  lemma {:induction false} LeadingSpacesRepeat(n: nat, content: string)
    requires content == [] || content[0] != ' '
    ensures LeadingSpaces(Repeat(' ', n) + content) == n
  {
    if n > 0 {
      assert (Repeat(' ', n) + content)[1..] == Repeat(' ', n - 1) + content;
      LeadingSpacesRepeat(n - 1, content);
    } else {
      assert Repeat(' ', n) + content == content;
    }
  }

  lemma IndentedLine(indent: nat, depth: nat, content: string)
    requires indent > 0
    requires content == [] || content[0] != ' '
    ensures LeadingSpaces(Repeat(' ', indent * depth) + content) == indent * depth
    ensures LineDepth(Repeat(' ', indent * depth) + content, indent) == depth
    ensures LineContent(Repeat(' ', indent * depth) + content) == content
  {
    var n := indent * depth;
    LeadingSpacesRepeat(n, content);
    LineContentIs(Repeat(' ', n) + content);
    assert (Repeat(' ', n) + content)[n..] == content;
    MulDiv(indent, depth);
  }

  lemma MulDiv(b: nat, a: nat)
    requires b > 0
    ensures (b * a) / b == a
  {
    var x := b * a;
    var q := x / b;
    var r := x % b;
    assert x == b * q + r && 0 <= r < b;
    if q < a {
      MulMono(b, q + 1, a);
    } else if q > a {
      MulMono(b, a + 1, q);
    }
  }

  lemma {:induction false} MulMono(b: nat, m: nat, n: nat)
    requires m <= n
    ensures b * m <= b * n
    decreases n - m
  {
    if m < n {
      MulMono(b, m + 1, n);
      assert b * (m + 1) == b * m + b;
    }
  }

  /** The loop of `trimIndentation`. */
  method TrimIndentation(line: string, indent: nat) returns (depth: nat, content: string)
    requires indent > 0
    ensures depth == LineDepth(line, indent) && content == LineContent(line)
  {
    var spaces := 0;
    while spaces < |line| && line[spaces] == ' '
      invariant 0 <= spaces <= LeadingSpaces(line)
    {
      spaces := spaces + 1;
    }
    depth := spaces / indent;
    LineContentIs(line);
    content := line[spaces..];
  }
}

/** The array header of the decoder (`parseArrayHeader`):
    `[key][#N<delimiter>]{fields}:`. The specification walks the text with a
    position, stage by stage, in the order the source checks them; the methods
    are the source's own scan, cut at the same stages. */
module Header {
  import opened ToonValue
  import opened Text
  import opened Numbers
  import opened Scan
  import opened Primitive

  datatype ArrayHeader = ArrayHeader(
    key: Option<string>,
    count: nat,
    delimiter: char,
    fields: Option<seq<string>>,
    hasLengthMarker: bool)

  /** A parsed header and the position just after its terminating colon. */
  datatype HeaderParse = HeaderParse(header: ArrayHeader, restAt: nat)

  /** The optional key and the position just after it. */
  datatype KeyPart = KeyPart(key: Option<string>, next: nat)

  predicate IsDelimiter(c: char)
  {
    c == ',' || c == '|' || c == '\t'
  }

  /** Length of the run of ASCII digits at the start of `s`. */
  function LeadingDigits(s: string): (n: nat)
    ensures n <= |s|
  {
    if s != [] && IsDigit(s[0]) then 1 + LeadingDigits(s[1..]) else 0
  }

  /** The leading run holds only digits and is not followed by one. */
  lemma {:induction false} LeadingDigitsFacts(s: string)
    ensures AllDigits(s[..LeadingDigits(s)])
    ensures LeadingDigits(s) < |s| ==> !IsDigit(s[LeadingDigits(s)])
  {
    if s != [] && IsDigit(s[0]) {
      LeadingDigitsFacts(s[1..]);
      assert s[..LeadingDigits(s)] == [s[0]] + s[1..][..LeadingDigits(s[1..])];
    }
  }

  /** A digit run ended by a non-digit (or the end) is the leading run. */
  lemma {:induction false} LeadingDigitsExact(s: string, n: nat)
    requires n <= |s|
    requires forall i :: 0 <= i < n ==> IsDigit(s[i])
    requires n < |s| ==> !IsDigit(s[n])
    ensures LeadingDigits(s) == n
  {
    if n > 0 {
      LeadingDigitsExact(s[1..], n - 1);
    }
  }

  /** A digit run read as an integer is never negative. */
  lemma DigitsNonNegative(s: string)
    requires AllDigits(s)
    ensures ParseInt64(s).Some? ==> ParseInt64(s).value >= 0
  {
    if s != [] {
      assert IsDigit(s[0]);
    }
  }

  /** `Int(countStr)` on the leading digit run: absent when the run is empty
      or does not fit 64 bits. */
  function HeaderCount(s: string): (r: Option<int>)
    ensures r.Some? ==> r.value >= 0
  {
    var n := LeadingDigits(s);
    LeadingDigitsFacts(s);
    DigitsNonNegative(s[..n]);
    ParseInt64(s[..n])
  }

  /** The key: a quoted key up to its closing quote, unescaped; otherwise the
      raw text before the first `[`, absent when that text is empty. */
  function HeaderKey(content: string): (r: Result<KeyPart>)
    ensures r.Ok? ==> r.value.next <= |content|
    ensures r.Err? ==> r.error == InvalidHeader || r.error == InvalidEscapeSequence
  {
    if content != [] && content[0] == '"' then
      var e := ClosingQuote(content);
      if e.None? then Err(InvalidHeader)
      else
        var k := Unescape(content[1..e.value]);
        if k.Err? then Err(k.error) else Ok(KeyPart(Some(k.value), e.value + 1))
    else
      var b := FirstIndexOf(content, '[');
      if b.None? then Ok(KeyPart(None, 0))
      else Ok(KeyPart(if b.value == 0 then None else Some(content[..b.value]), b.value))
  }

  /** The opening bracket, the optional length marker `#` and the count. */
  datatype CountPart = CountPart(marker: bool, count: nat, next: nat)

  /** From position `i`: `[`, an optional `#`, then `Int(countStr)` on the
      digit run; the result ends just after the digits. */
  function HeaderCountPart(content: string, i: nat): (r: Result<CountPart>)
    requires i <= |content|
    ensures r.Ok? ==> i < r.value.next <= |content|
    ensures r.Err? ==> r.error == InvalidHeader
  {
    if i >= |content| || content[i] != '[' then Err(InvalidHeader)
    else
      var marker := i + 1 < |content| && content[i + 1] == '#';
      var j := if marker then i + 2 else i + 1;
      var c := HeaderCount(content[j..]);
      if c.None? then Err(InvalidHeader)
      else Ok(CountPart(marker, c.value, j + LeadingDigits(content[j..])))
  }

  /** The optional delimiter indicator and the closing bracket. */
  datatype DelimiterPart = DelimiterPart(delimiter: char, next: nat)

  /** From position `k`: `|` or a tab selects the delimiter (a comma otherwise),
      then `]` is required. */
  function HeaderDelimiter(content: string, k: nat): (r: Result<DelimiterPart>)
    requires k <= |content|
    ensures r.Ok? ==> k < r.value.next <= |content| && IsDelimiter(r.value.delimiter)
    ensures r.Err? ==> r.error == InvalidHeader
  {
    var delimited := k < |content| && (content[k] == '|' || content[k] == '\t');
    var d := if delimited then content[k] else ',';
    var m := if delimited then k + 1 else k;
    if m >= |content| || content[m] != ']' then Err(InvalidHeader)
    else Ok(DelimiterPart(d, m + 1))
  }

  /** The optional field list and the position after it. */
  datatype FieldsPart = FieldsPart(fields: Option<seq<string>>, next: nat)

  /** From position `p`: when a `{` follows, the field names up to the first
      `}`, split on the delimiter; otherwise no fields. */
  function HeaderFieldsPart(content: string, d: char, p: nat): (r: Result<FieldsPart>)
    requires p <= |content|
    ensures r.Ok? ==> p <= r.value.next <= |content|
    ensures r.Err? ==> r.error == InvalidHeader || r.error == InvalidEscapeSequence
  {
    if p < |content| && content[p] == '{' then
      var close := FirstIndexOf(content[p + 1..], '}');
      if close.None? then Err(InvalidHeader)
      else
        var fs := FieldsList(content[p + 1..p + 1 + close.value], d);
        if fs.Err? then Err(fs.error)
        else Ok(FieldsPart(Some(fs.value), p + 2 + close.value))
    else Ok(FieldsPart(None, p))
  }

  /** The colon that ends every header; the result is the position after it. */
  function HeaderColon(content: string, q: nat): (r: Result<nat>)
    requires q <= |content|
    ensures r.Ok? ==> q < r.value <= |content| && content[r.value - 1] == ':'
    ensures r.Err? ==> r.error == InvalidHeader
  {
    if q < |content| && content[q] == ':' then Ok(q + 1) else Err(InvalidHeader)
  }

  /** `parseArrayHeader`: the header and the position just after its colon;
      the stages run in the order the source checks them. */
  function HeaderOf(content: string): (r: Result<HeaderParse>)
    ensures r.Ok? ==> 0 < r.value.restAt <= |content| && content[r.value.restAt - 1] == ':'
    ensures r.Ok? ==> IsDelimiter(r.value.header.delimiter)
    ensures r.Err? ==> r.error == InvalidHeader || r.error == InvalidEscapeSequence
  {
    var kp := HeaderKey(content);
    if kp.Err? then Err(kp.error) else
    var cp := HeaderCountPart(content, kp.value.next);
    if cp.Err? then Err(cp.error) else
    var dp := HeaderDelimiter(content, cp.value.next);
    if dp.Err? then Err(dp.error) else
    var fp := HeaderFieldsPart(content, dp.value.delimiter, dp.value.next);
    if fp.Err? then Err(fp.error) else
    var restAt := HeaderColon(content, fp.value.next);
    if restAt.Err? then Err(restAt.error) else
    var h := ArrayHeader(kp.value.key, cp.value.count, dp.value.delimiter, fp.value.fields, cp.value.marker);
    Ok(HeaderParse(h, restAt.value))
  }

  /** The scan of `parseArrayHeader`. */
  method ParseArrayHeader(content: string) returns (r: Result<HeaderParse>)
    ensures r == HeaderOf(content)
  {
    var kp := ScanKey(content);
    if kp.Err? {
      return Err(kp.error);
    }
    var cp := ScanCount(content, kp.value.next);
    if cp.Err? {
      return Err(cp.error);
    }
    var dp := ScanDelimiter(content, cp.value.next);
    if dp.Err? {
      return Err(dp.error);
    }
    var fp := ScanFields(content, dp.value.delimiter, dp.value.next);
    if fp.Err? {
      return Err(fp.error);
    }
    var pos := fp.value.next;
    HeaderOfStages(content, kp.value, cp.value, dp.value, fp.value);
    if pos >= |content| || content[pos] != ':' {
      return Err(InvalidHeader);
    }
    var header := ArrayHeader(kp.value.key, cp.value.count, dp.value.delimiter, fp.value.fields, cp.value.marker);
    return Ok(HeaderParse(header, pos + 1));
  }

  /** When every stage before the colon succeeds, the header is assembled
      from their results, provided the colon is there. */
  lemma HeaderOfStages(content: string, kp: KeyPart, cp: CountPart, dp: DelimiterPart, fp: FieldsPart)
    requires HeaderKey(content) == Ok(kp)
    requires kp.next <= |content| && HeaderCountPart(content, kp.next) == Ok(cp)
    requires cp.next <= |content| && HeaderDelimiter(content, cp.next) == Ok(dp)
    requires dp.next <= |content| && HeaderFieldsPart(content, dp.delimiter, dp.next) == Ok(fp)
    requires fp.next <= |content|
    ensures HeaderOf(content) == match HeaderColon(content, fp.next)
      case Ok(restAt) => Ok(HeaderParse(ArrayHeader(kp.key, cp.count, dp.delimiter, fp.fields, cp.marker), restAt))
      case Err(e) => Err(e)
  {
  }

  /** The key in `parseArrayHeader`. */
  method ScanKey(content: string) returns (r: Result<KeyPart>)
    ensures r == HeaderKey(content)
  {
    var key: Option<string> := None;
    var pos := 0;
    if content != [] && content[0] == '"' {
      var endQuote := FindClosingQuote(content);
      if endQuote.None? {
        return Err(InvalidHeader);
      }
      var k := UnescapeString(content[1..endQuote.value]);
      if k.Err? {
        return Err(k.error);
      }
      key := Some(k.value);
      pos := endQuote.value + 1;
    } else {
      var bracket := FirstIndexOf(content, '[');
      if bracket.Some? {
        if bracket.value > 0 {
          key := Some(content[..bracket.value]);
        }
        pos := bracket.value;
      }
    }
    return Ok(KeyPart(key, pos));
  }

  /** `[`, the length marker and the digit loop of `parseArrayHeader`. */
  method ScanCount(content: string, start: nat) returns (r: Result<CountPart>)
    requires start <= |content|
    ensures r == HeaderCountPart(content, start)
  {
    var pos := start;
    if pos >= |content| || content[pos] != '[' {
      return Err(InvalidHeader);
    }
    pos := pos + 1;
    var hasLengthMarker := false;
    if pos < |content| && content[pos] == '#' {
      hasLengthMarker := true;
      pos := pos + 1;
    }
    var digitsAt := pos;
    while pos < |content| && IsDigit(content[pos])
      invariant digitsAt <= pos <= |content|
      invariant forall i :: digitsAt <= i < pos ==> IsDigit(content[i])
    {
      pos := pos + 1;
    }
    var countStr := content[digitsAt..pos];
    var count := ParseInt64(countStr);
    CountStep(content, start, digitsAt, pos);
    if count.None? {
      return Err(InvalidHeader);
    }
    return Ok(CountPart(hasLengthMarker, count.value, pos));
  }

  /** The digit run the loop stops at is the one the specification reads. */
  lemma CountStep(content: string, start: nat, j: nat, k: nat)
    requires start < |content| && content[start] == '['
    requires j == if start + 1 < |content| && content[start + 1] == '#' then start + 2 else start + 1
    requires j <= k <= |content|
    requires forall i :: j <= i < k ==> IsDigit(content[i])
    requires k < |content| ==> !IsDigit(content[k])
    ensures ParseInt64(content[j..k]).None? ==> HeaderCountPart(content, start) == Err(InvalidHeader)
    ensures ParseInt64(content[j..k]).Some? ==>
      && ParseInt64(content[j..k]).value >= 0
      && HeaderCountPart(content, start) == Ok(CountPart(j == start + 2, ParseInt64(content[j..k]).value, k))
  {
    LeadingDigitsExact(content[j..], k - j);
    assert content[j..][..k - j] == content[j..k];
    assert AllDigits(content[j..k]);
    DigitsNonNegative(content[j..k]);
  }

  /** The delimiter indicator and `]` in `parseArrayHeader`. */
  method ScanDelimiter(content: string, start: nat) returns (r: Result<DelimiterPart>)
    requires start <= |content|
    ensures r == HeaderDelimiter(content, start)
  {
    var pos := start;
    var delimiter := ',';
    if pos < |content| && (content[pos] == '|' || content[pos] == '\t') {
      delimiter := content[pos];
      pos := pos + 1;
    }
    if pos >= |content| || content[pos] != ']' {
      return Err(InvalidHeader);
    }
    return Ok(DelimiterPart(delimiter, pos + 1));
  }

  /** The field list in `parseArrayHeader`. */
  method ScanFields(content: string, d: char, start: nat) returns (r: Result<FieldsPart>)
    requires start <= |content|
    ensures r == HeaderFieldsPart(content, d, start)
  {
    var pos := start;
    if pos < |content| && content[pos] == '{' {
      pos := pos + 1;
      var closeBrace := FirstIndexOf(content[pos..], '}');
      if closeBrace.None? {
        return Err(InvalidHeader);
      }
      var fs := ParseFieldsList(content[pos..pos + closeBrace.value], d);
      if fs.Err? {
        return Err(fs.error);
      }
      return Ok(FieldsPart(Some(fs.value), pos + closeBrace.value + 1));
    }
    return Ok(FieldsPart(None, pos));
  }
}

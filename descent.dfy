/** The decoder's recursive descent (`Parser.parse` and everything it calls),
    as functions of the parser's lines and its line cursor. Each function
    takes the cursor position `pos` on entry and returns the value read with
    the position its cursor has reached, so `next` is `currentLine` after the
    call. The `Parser` class in ParserImpl is proved to compute these. */
module Descent {
  import opened ToonValue
  import opened Text
  import opened Scan
  import opened Primitive
  import opened Header
  import opened Paths

  /** What a parser is built from: its lines, the indentation width, the
      path-expansion mode and the limits. */
  datatype Ctx = Ctx(lines: seq<string>, indent: nat, expand: PathExpansion, limits: Limits)

  /** A value read and the position of the first line not consumed. */
  datatype Parsed<T> = Parsed(value: T, next: nat)

  /** The value of a result, without its position. */
  function Drop<T>(r: Result<Parsed<T>>): Result<T>
  {
    if r.Err? then Err(r.error) else Ok(r.value.value)
  }

  /** A key and its value. */
  datatype Entry = Entry(key: string, value: Value)

  /** `hasPrefix("- ")`. */
  predicate IsListItem(content: string)
  {
    |content| >= 2 && content[0] == '-' && content[1] == ' '
  }

  /** `skipEmptyLines`: the first line at or after `pos` that is not empty.
      A line of spaces is not empty. */
  function SkipEmpty(lines: seq<string>, pos: nat): (r: nat)
    requires pos <= |lines|
    ensures pos <= r <= |lines|
    ensures r < |lines| ==> lines[r] != []
    decreases |lines| - pos
  {
    if pos == |lines| || lines[pos] != [] then pos else SkipEmpty(lines, pos + 1)
  }

  /** The text after a parsed header's own colon. */
  function RestOf(content: string, hp: HeaderParse): (r: string)
    requires HeaderOf(content) == Ok(hp)
  {
    content[hp.restAt..]
  }

  // ---------------------------------------------------------------------------
  // Objects

  /** `parseObject(atDepth:)`. */
  function ObjectAt(c: Ctx, depth: nat, pos: nat): (r: Result<Parsed<Value>>)
    requires c.indent > 0 && pos <= |c.lines|
    ensures r.Ok? ==> pos <= r.value.next <= |c.lines|
    decreases |c.lines| - pos, 2
  {
    if depth > c.limits.maxDepth then Err(DepthLimitExceeded(depth, c.limits.maxDepth))
    else ObjectLoop(c, depth, pos, Fields(map[], []))
  }

  /** The `while let line = peekLine()` loop of `parseObject`, from the
      entries `f` read so far. */
  function ObjectLoop(c: Ctx, depth: nat, pos: nat, f: Fields): (r: Result<Parsed<Value>>)
    requires c.indent > 0 && pos <= |c.lines|
    ensures r.Ok? ==> pos <= r.value.next <= |c.lines|
    decreases |c.lines| - pos, 1
  {
    if pos == |c.lines| then Ok(Parsed(Object(f.values, f.keyOrder), pos))
    else if c.lines[pos] == [] then ObjectLoop(c, depth, pos + 1, f)
    else
      var lineDepth := LineDepth(c.lines[pos], c.indent);
      if lineDepth < depth then Ok(Parsed(Object(f.values, f.keyOrder), pos))
      else if lineDepth != depth then Err(InvalidIndentation(pos + 1))
      else
        var g := ObjectEntryAt(c, depth, pos, f);
        if g.Err? then Err(g.error)
        else ObjectLoop(c, depth, g.value.next, g.value.value)
  }

  /** One pass of that loop on a line at the object's depth: the key-value
      pair it starts, stored into `f` (path expansion applies), then the
      key-count limit. */
  function ObjectEntryAt(c: Ctx, depth: nat, pos: nat, f: Fields): (r: Result<Parsed<Fields>>)
    requires c.indent > 0 && pos < |c.lines|
    ensures r.Ok? ==> pos < r.value.next <= |c.lines|
    decreases |c.lines| - pos, 0
  {
    var e := KeyValuePairAt(c, LineContent(c.lines[pos]), depth, pos + 1);
    if e.Err? then Err(e.error)
    else
      var g := Insert(c.expand, f, e.value.value.key, e.value.value.value, e.value.next);
      if g.Err? then Err(g.error)
      else if |g.value.keyOrder| > c.limits.maxObjectKeys then
        Err(ObjectKeyLimitExceeded(|g.value.keyOrder|, c.limits.maxObjectKeys))
      else Ok(Parsed(g.value, e.value.next))
  }

  /** `parseKeyValuePair(_:atDepth:)` on the content of the line just consumed. */
  function KeyValuePairAt(c: Ctx, content: string, depth: nat, pos: nat): (r: Result<Parsed<Entry>>)
    requires c.indent > 0 && pos <= |c.lines|
    ensures r.Ok? ==> pos <= r.value.next <= |c.lines|
    decreases |c.lines| - pos, 5
  {
    KeyValuePairCases(c, content, depth, pos)
  }

  /** The cases of `parseKeyValuePair`: an array header, a list item (an
      error here), a line without a separator (an error), then the key and a
      nested object or a primitive. */
  function KeyValuePairCases(c: Ctx, content: string, depth: nat, pos: nat): (r: Result<Parsed<Entry>>)
    requires c.indent > 0 && pos <= |c.lines|
    ensures r.Ok? ==> pos <= r.value.next <= |c.lines|
    decreases |c.lines| - pos, 4
  {
    var h := HeaderOf(content);
    if h.Ok? then
      var a := ArrayContentAt(c, h.value.header, RestOf(content, h.value), depth, pos);
      if a.Err? then Err(a.error)
      else
        var key := if h.value.header.key.Some? then h.value.header.key.value else "";
        Ok(Parsed(Entry(key, a.value.value), a.value.next))
    else if IsListItem(content) then Err(InvalidFormat)
    else
      var sep := KeyValueSeparator(content);
      if sep.None? then Err(InvalidFormat)
      else
        var key := ParseKey(content[..sep.value]);
        if key.Err? then Err(key.error)
        else
          var valuePart := TrimLeadingSpace(content[sep.value + 1..]);
          if valuePart == [] then
            var n := NestedValueAt(c, depth + 1, pos);
            if n.Err? then Err(n.error) else Ok(Parsed(Entry(key.value, n.value.value), n.value.next))
          else
            var v := ParsePrimitiveValue(valuePart);
            if v.Err? then Err(v.error) else Ok(Parsed(Entry(key.value, v.value), pos))
  }

  /** `parseNestedValue(atDepth:)`: an object at `depth`, or an empty object
      when the next non-empty line is shallower or there is none. */
  function NestedValueAt(c: Ctx, depth: nat, pos: nat): (r: Result<Parsed<Value>>)
    requires c.indent > 0 && pos <= |c.lines|
    ensures r.Ok? ==> pos <= r.value.next <= |c.lines|
    decreases |c.lines| - pos, 3
  {
    var p := SkipEmpty(c.lines, pos);
    if p == |c.lines| then Ok(Parsed(EmptyObject, p))
    else
      var lineDepth := LineDepth(c.lines[p], c.indent);
      if lineDepth < depth then Ok(Parsed(EmptyObject, p))
      else if lineDepth != depth then Err(InvalidIndentation(p + 1))
      else if IsListItem(LineContent(c.lines[p])) then Err(InvalidFormat)
      else ObjectAt(c, depth, p)
  }

  // ---------------------------------------------------------------------------
  // Arrays

  /** `parseArrayContent(header:atDepth:)` for a header whose line has just
      been consumed; `rest` is the text after the header's colon. */
  function ArrayContentAt(c: Ctx, h: ArrayHeader, rest: string, depth: nat, pos: nat): (r: Result<Parsed<Value>>)
    requires c.indent > 0 && pos <= |c.lines|
    ensures r.Ok? ==> pos <= r.value.next <= |c.lines|
    ensures r.Ok? ==> r.value.value.Array? && |r.value.value.items| == h.count
    decreases |c.lines| - pos, 3
  {
    ArrayContentCases(c, h, rest, depth, pos)
  }

  /** The cases of `parseArrayContent`: the length limit, inline values,
      an empty array, then tabular rows or list items below the header. */
  function ArrayContentCases(c: Ctx, h: ArrayHeader, rest: string, depth: nat, pos: nat): (r: Result<Parsed<Value>>)
    requires c.indent > 0 && pos <= |c.lines|
    ensures r.Ok? ==> pos <= r.value.next <= |c.lines|
    ensures r.Ok? ==> r.value.value.Array? && |r.value.value.items| == h.count
    decreases |c.lines| - pos, 2
  {
    var inline := TrimLeadingSpace(rest);
    if h.count > c.limits.maxArrayLength then Err(ArrayLengthLimitExceeded(h.count, c.limits.maxArrayLength))
    else if inline != [] then
      var values := DelimitedValues(inline, h.delimiter);
      if values.Err? then Err(values.error)
      else if |values.value| != h.count then Err(CountMismatch(h.count, |values.value|, pos))
      else Ok(Parsed(Array(values.value), pos))
    else if h.count == 0 then Ok(Parsed(Array([]), pos))
    else
      var items :=
        if h.fields.Some? then TabularRowsAt(c, h.count, h.fields.value, h.delimiter, depth, pos, [])
        else ListItemsAt(c, h.count, depth, pos, []);
      if items.Err? then Err(items.error)
      else if |items.value.value| != h.count then
        Err(CountMismatch(h.count, |items.value.value|, items.value.next))
      else Ok(Parsed(Array(items.value.value), items.value.next))
  }

  /** The object a tabular row becomes: `objectValues[field] = values[i]` in
      field order, so a repeated field keeps its last value. */
  function RowValues(fields: seq<string>, values: seq<Value>): (m: map<string, Value>)
    requires |fields| == |values|
  {
    if fields == [] then map[]
    else
      var n := |fields| - 1;
      RowValues(fields[..n], values[..n])[fields[n] := values[n]]
  }

  /** `parseTabularRows`: up to `remaining` more rows at `depth + 1` after the
      rows read so far. It adds at most `remaining` rows, each an object keyed
      by the fields in their order, and stops early only at the end of the
      input. */
  function TabularRowsAt(c: Ctx, remaining: nat, fields: seq<string>, d: char, depth: nat, pos: nat, rows: seq<Value>)
    : (r: Result<Parsed<seq<Value>>>)
    requires c.indent > 0 && pos <= |c.lines|
    ensures r.Ok? ==> pos <= r.value.next <= |c.lines|
    ensures r.Ok? ==> |rows| <= |r.value.value| <= |rows| + remaining && r.value.value[..|rows|] == rows
    ensures r.Ok? ==> forall i :: |rows| <= i < |r.value.value| ==> r.value.value[i].Object? && r.value.value[i].keyOrder == fields
    ensures r.Ok? && |r.value.value| < |rows| + remaining ==> r.value.next == |c.lines|
    decreases remaining, 1
  {
    if remaining == 0 then Ok(Parsed(rows, pos))
    else
      var p := SkipEmpty(c.lines, pos);
      if p == |c.lines| then Ok(Parsed(rows, p))
      else NextTabularRow(c, remaining, fields, d, depth, p, rows)
  }

  /** `parseTabularRows` once the next row is found on the line at `p`: the
      row is read, and the loop goes on from the line after it. */
  function NextTabularRow(c: Ctx, remaining: nat, fields: seq<string>, d: char, depth: nat, p: nat, rows: seq<Value>)
    : (r: Result<Parsed<seq<Value>>>)
    requires c.indent > 0 && p < |c.lines| && remaining > 0
    ensures r.Ok? ==> p < r.value.next <= |c.lines|
    ensures r.Ok? ==> |rows| < |r.value.value| <= |rows| + remaining && r.value.value[..|rows|] == rows
    ensures r.Ok? ==> forall i :: |rows| <= i < |r.value.value| ==> r.value.value[i].Object? && r.value.value[i].keyOrder == fields
    ensures r.Ok? && |r.value.value| < |rows| + remaining ==> r.value.next == |c.lines|
    decreases remaining, 0
  {
    var row := TabularRowAt(c, fields, d, depth, p);
    if row.Err? then Err(row.error)
    else TabularRowsAt(c, remaining - 1, fields, d, depth, p + 1, rows + [row.value])
  }

  /** One row of `parseTabularRows`, read from the line at `p`: it must sit
      at `depth + 1` and hold one value per field. */
  function TabularRowAt(c: Ctx, fields: seq<string>, d: char, depth: nat, p: nat): (r: Result<Value>)
    requires c.indent > 0 && p < |c.lines|
    ensures r.Ok? ==> r.value.Object? && r.value.keyOrder == fields
  {
    if LineDepth(c.lines[p], c.indent) != depth + 1 then Err(InvalidIndentation(p + 1))
    else
      var values := DelimitedValues(LineContent(c.lines[p]), d);
      if values.Err? then Err(values.error)
      else if |values.value| != |fields| then Err(FieldCountMismatch(|fields|, |values.value|, p + 1))
      else Ok(Object(RowValues(fields, values.value), fields))
  }

  /** `parseListItems`: up to `remaining` more `- ` items at `depth + 1`
      after the items read so far. */
  function ListItemsAt(c: Ctx, remaining: nat, depth: nat, pos: nat, items: seq<Value>): (r: Result<Parsed<seq<Value>>>)
    requires c.indent > 0 && pos <= |c.lines|
    ensures r.Ok? ==> pos <= r.value.next <= |c.lines|
    decreases |c.lines| - pos, 1
  {
    if remaining == 0 then Ok(Parsed(items, pos))
    else
      var p := SkipEmpty(c.lines, pos);
      if p == |c.lines| then Ok(Parsed(items, p))
      else if LineDepth(c.lines[p], c.indent) != depth + 1 then Err(InvalidIndentation(p + 1))
      else
        var content := LineContent(c.lines[p]);
        if !IsListItem(content) then Err(InvalidFormat)
        else
          var item := ListItemAt(c, content[2..], depth + 1, p + 1);
          if item.Err? then Err(item.error)
          else ListItemsAt(c, remaining - 1, depth, item.value.next, items + [item.value.value])
  }

  /** `parseListItemContent`: a keyless array header, an object whose first
      field sits on the item line, or a primitive. */
  function ListItemAt(c: Ctx, content: string, depth: nat, pos: nat): (r: Result<Parsed<Value>>)
    requires c.indent > 0 && pos <= |c.lines|
    ensures r.Ok? ==> pos <= r.value.next <= |c.lines|
    decreases |c.lines| - pos, 6
  {
    ListItemCases(c, content, depth, pos)
  }

  /** The cases of `parseListItemContent`. */
  function ListItemCases(c: Ctx, content: string, depth: nat, pos: nat): (r: Result<Parsed<Value>>)
    requires c.indent > 0 && pos <= |c.lines|
    ensures r.Ok? ==> pos <= r.value.next <= |c.lines|
    decreases |c.lines| - pos, 5
  {
    var h := HeaderOf(content);
    if content != [] && content[0] == '[' && h.Ok? then
      ArrayContentAt(c, h.value.header, RestOf(content, h.value), depth, pos)
    else
      var sep := KeyValueSeparator(content);
      if sep.None? then
        var v := ParsePrimitiveValue(content);
        if v.Err? then Err(v.error) else Ok(Parsed(v.value, pos))
      else
        var key := ParseKey(content[..sep.value]);
        if key.Err? then Err(key.error)
        else
          var first := FirstFieldAt(c, content, key.value, TrimLeadingSpace(content[sep.value + 1..]), depth, pos);
          if first.Err? then Err(first.error)
          else
            var e := first.value.value;
            ListItemFieldsAt(c, depth, first.value.next, Fields(map[e.key := e.value], [e.key]))
  }

  /** The first field of a list-item object: a nested value, an array whose
      header names the key, or a primitive. */
  function FirstFieldAt(c: Ctx, content: string, key: string, valuePart: string, depth: nat, pos: nat)
    : (r: Result<Parsed<Entry>>)
    requires c.indent > 0 && pos <= |c.lines|
    ensures r.Ok? ==> pos <= r.value.next <= |c.lines|
    decreases |c.lines| - pos, 4
  {
    if valuePart == [] then
      var n := NestedValueAt(c, depth + 1, pos);
      if n.Err? then Err(n.error) else Ok(Parsed(Entry(key, n.value.value), n.value.next))
    else
      var h := HeaderOf(content);
      if h.Ok? then
        var a := ArrayContentAt(c, h.value.header, RestOf(content, h.value), depth, pos);
        if a.Err? then Err(a.error)
        else
          var arrayKey := if h.value.header.key.Some? then h.value.header.key.value else key;
          Ok(Parsed(Entry(arrayKey, a.value.value), a.value.next))
      else
        var v := ParsePrimitiveValue(valuePart);
        if v.Err? then Err(v.error) else Ok(Parsed(Entry(key, v.value), pos))
  }

  /** The loop of `parseListItemContent` reading further fields at `depth + 1`. */
  function ListItemFieldsAt(c: Ctx, depth: nat, pos: nat, f: Fields): (r: Result<Parsed<Value>>)
    requires c.indent > 0 && pos <= |c.lines|
    ensures r.Ok? ==> pos <= r.value.next <= |c.lines|
    decreases |c.lines| - pos, 1
  {
    if pos == |c.lines| then Ok(Parsed(Object(f.values, f.keyOrder), pos))
    else if c.lines[pos] == [] then ListItemFieldsAt(c, depth, pos + 1, f)
    else if LineDepth(c.lines[pos], c.indent) != depth + 1 || IsListItem(LineContent(c.lines[pos])) then
      Ok(Parsed(Object(f.values, f.keyOrder), pos))
    else
      var g := ListItemFieldAt(c, depth, pos, f);
      if g.Err? then Err(g.error)
      else ListItemFieldsAt(c, depth, g.value.next, g.value.value)
  }

  /** One further field of a list-item object: the key-value pair on the
      line at `pos`, stored into `f` without path expansion. */
  function ListItemFieldAt(c: Ctx, depth: nat, pos: nat, f: Fields): (r: Result<Parsed<Fields>>)
    requires c.indent > 0 && pos < |c.lines|
    ensures r.Ok? ==> pos < r.value.next <= |c.lines|
    decreases |c.lines| - pos, 0
  {
    var e := KeyValuePairAt(c, LineContent(c.lines[pos]), depth + 1, pos + 1);
    if e.Err? then Err(e.error)
    else Ok(Parsed(InsertPlain(f, e.value.value.key, e.value.value.value), e.value.next))
  }

  // ---------------------------------------------------------------------------
  // The document

  /** The positions of the non-empty lines, in order (`lines.enumerated().filter`). */
  function NonEmptyIndices(lines: seq<string>): (r: seq<nat>)
    ensures forall k :: 0 <= k < |r| ==> r[k] < |lines| && lines[r[k]] != []
  {
    if lines == [] then []
    else
      var n := |lines| - 1;
      NonEmptyIndices(lines[..n]) + (if lines[n] == [] then [] else [n])
  }

  /** `parseArrayAtCurrentLine(depth:key:)`: consumes the line at `pos` and
      reads the array its header announces. */
  function ArrayAtLine(c: Ctx, depth: nat, pos: nat): (r: Result<Parsed<Value>>)
    requires c.indent > 0 && pos <= |c.lines|
    ensures r.Ok? ==> pos < r.value.next <= |c.lines| && r.value.value.Array?
  {
    if pos == |c.lines| then Err(InvalidFormat)
    else
      var content := LineContent(c.lines[pos]);
      var h := HeaderOf(content);
      if h.Err? then Err(h.error)
      else ArrayContentAt(c, h.value.header, RestOf(content, h.value), depth, pos + 1)
  }

  /** `parse()`: the root shape is chosen from the non-empty lines. */
  function Parse(c: Ctx): (r: Result<Value>)
    requires c.indent > 0
  {
    var nonEmpty := NonEmptyIndices(c.lines);
    if nonEmpty == [] then Ok(EmptyObject)
    else
      var content := LineContent(c.lines[nonEmpty[0]]);
      if content != [] && content[0] == '[' && HeaderOf(content).Ok? then
        Drop(ArrayAtLine(c, 0, nonEmpty[0]))
      else if |nonEmpty| == 1 && KeyValueSeparator(content).None? then
        ParsePrimitiveValue(content)
      else
        Drop(ObjectAt(c, 0, 0))
  }

  /** The parser's lines: CR LF pairs become LF, then the text is split at
      every LF, keeping empty lines. */
  function Lines(text: string): (r: seq<string>)
    ensures |r| >= 1
  {
    Split(ReplaceCRLF(text), '\n')
  }

  /** `TOONDecoder.decode`: the size check on the UTF-8 byte count, then the parse. */
  function Decode(text: string, indent: nat, expand: PathExpansion, limits: Limits): (r: Result<Value>)
    requires indent > 0
  {
    var size := Utf8Length(text);
    if size > limits.maxInputSize then Err(InputTooLarge(size, limits.maxInputSize))
    else Parse(Ctx(Lines(text), indent, expand, limits))
  }
}

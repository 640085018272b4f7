/** The decoder's `Parser` class: a cursor `currentLine` over the lines of the
    input that only moves forward. Every parsing method is proved to return
    what the matching function of Descent returns from the cursor position it
    starts at, and to leave the cursor where that function says. */
module ParserImpl {
  import opened ToonValue
  import opened Text
  import opened Scan
  import opened Primitive
  import opened Header
  import opened Paths
  import opened Descent

  class Parser {
    const lines: seq<string>
    const indentSize: nat
    const expandPaths: PathExpansion
    const limits: Limits
    var currentLine: nat

    /** `init(text:indentSize:expandPaths:limits:)`. */
    constructor (text: string, indentSize: nat, expandPaths: PathExpansion, limits: Limits)
      requires indentSize > 0
      ensures Valid()
      ensures lines == Lines(text) && currentLine == 0
      ensures this.indentSize == indentSize && this.expandPaths == expandPaths && this.limits == limits
    {
      this.lines := Split(ReplaceCRLF(text), '\n');
      this.indentSize := indentSize;
      this.expandPaths := expandPaths;
      this.limits := limits;
      this.currentLine := 0;
    }

    function Context(): Ctx
    {
      Ctx(lines, indentSize, expandPaths, limits)
    }

    ghost predicate Valid()
      reads this
    {
      indentSize > 0 && currentLine <= |lines|
    }

    /** `peekLine()`. */
    method PeekLine() returns (line: Option<string>)
      requires Valid()
      ensures currentLine < |lines| ==> line == Some(lines[currentLine])
      ensures currentLine == |lines| ==> line == None
    {
      if currentLine < |lines| {
        return Some(lines[currentLine]);
      }
      return None;
    }

    /** `consumeLine()`: the line under the cursor, moving past it. */
    method ConsumeLine() returns (line: Option<string>)
      requires Valid()
      modifies this
      ensures Valid()
      ensures old(currentLine) < |lines| ==> line == Some(lines[old(currentLine)]) && currentLine == old(currentLine) + 1
      ensures old(currentLine) == |lines| ==> line == None && currentLine == old(currentLine)
    {
      if currentLine < |lines| {
        line := Some(lines[currentLine]);
        currentLine := currentLine + 1;
        return;
      }
      return None;
    }

    /** `skipEmptyLines()`. */
    method SkipEmptyLines()
      requires Valid()
      modifies this
      ensures Valid() && currentLine == SkipEmpty(lines, old(currentLine))
    {
      while currentLine < |lines| && lines[currentLine] == []
        invariant Valid() && old(currentLine) <= currentLine
        invariant SkipEmpty(lines, currentLine) == SkipEmpty(lines, old(currentLine))
        decreases |lines| - currentLine
      {
        currentLine := currentLine + 1;
      }
    }

    /** `parse()`. */
    method Parse() returns (r: Result<Value>)
      requires Valid()
      modifies this
      ensures r == Descent.Parse(Context())
    {
      var nonEmptyLines: seq<nat> := [];
      for i := 0 to |lines|
        invariant nonEmptyLines == NonEmptyIndices(lines[..i])
      {
        assert lines[..i + 1][..i] == lines[..i];
        if lines[i] != [] {
          nonEmptyLines := nonEmptyLines + [i];
        }
      }
      assert lines[..|lines|] == lines;
      if nonEmptyLines == [] {
        return Ok(EmptyObject);
      }
      var _, firstContent := TrimIndentation(lines[nonEmptyLines[0]], indentSize);
      if firstContent != [] && firstContent[0] == '[' {
        var header := ParseArrayHeader(firstContent);
        if header.Ok? {
          currentLine := nonEmptyLines[0];
          var arrayValue := ParseArrayAtCurrentLine(0);
          return arrayValue;
        }
      }
      if |nonEmptyLines| == 1 {
        var isPair := IsKeyValuePair(firstContent);
        if !isPair {
          return ParsePrimitiveValue(firstContent);
        }
      }
      currentLine := 0;
      var root := ParseObject(0);
      return root;
    }

    /** `parseArrayAtCurrentLine(depth:key:)`. */
    method ParseArrayAtCurrentLine(depth: nat) returns (r: Result<Value>)
      requires Valid()
      modifies this
      ensures Valid()
      ensures var s := ArrayAtLine(Context(), depth, old(currentLine));
        r == Drop(s) && (s.Ok? ==> currentLine == s.value.next)
    {
      var line := ConsumeLine();
      if line.None? {
        return Err(InvalidFormat);
      }
      r := ParseHeaderLine(line.value, depth);
    }

    /** The rest of `parseArrayAtCurrentLine` once its line is consumed: the
        header on that line, then the array it announces. */
    method ParseHeaderLine(line: string, depth: nat) returns (r: Result<Value>)
      requires Valid() && 0 < currentLine && line == lines[currentLine - 1]
      modifies this
      ensures Valid()
      ensures var s := ArrayAtLine(Context(), depth, old(currentLine) - 1);
        r == Drop(s) && (s.Ok? ==> currentLine == s.value.next)
    {
      var _, content := TrimIndentation(line, indentSize);
      var header := ParseArrayHeader(content);
      if header.Err? {
        return Err(header.error);
      }
      r := ParseArrayContent(header.value.header, content[header.value.restAt..], depth);
    }

    /** `parseObject(atDepth:)`. */
    method ParseObject(depth: nat) returns (r: Result<Value>)
      requires Valid()
      modifies this
      ensures Valid()
      ensures var s := ObjectAt(Context(), depth, old(currentLine));
        r == Drop(s) && (s.Ok? ==> currentLine == s.value.next)
      decreases |lines| - currentLine, 2
    {
      if depth > limits.maxDepth {
        return Err(DepthLimitExceeded(depth, limits.maxDepth));
      }
      var fields := Fields(map[], []);
      ghost var goal := ObjectAt(Context(), depth, currentLine);
      while true
        invariant Valid() && old(currentLine) <= currentLine
        invariant ObjectLoop(Context(), depth, currentLine, fields) == goal
        decreases |lines| - currentLine
      {
        var line := PeekLine();
        if line.None? {
          break;
        }
        if line.value == [] {
          var _ := ConsumeLine();
          continue;
        }
        var lineDepth, content := TrimIndentation(line.value, indentSize);
        if lineDepth < depth {
          break;
        }
        if lineDepth != depth {
          return Err(InvalidIndentation(currentLine + 1));
        }
        var entry := ParseObjectEntry(content, depth, fields);
        if entry.Err? {
          return Err(entry.error);
        }
        fields := entry.value;
      }
      return Ok(Object(fields.values, fields.keyOrder));
    }

    /** The rest of a pass of `parseObject`'s loop on a line at the object's
        depth: the line is consumed, its key-value pair is read and stored
        (through `expandDottedKey` when path expansion applies), and the key
        count is checked. */
    method ParseObjectEntry(content: string, depth: nat, f: Fields) returns (r: Result<Fields>)
      requires Valid() && currentLine < |lines| && content == LineContent(lines[currentLine])
      modifies this
      ensures Valid()
      ensures var s := ObjectEntryAt(Context(), depth, old(currentLine), f);
        r == Drop(s) && (s.Ok? ==> currentLine == s.value.next)
      decreases |lines| - currentLine, 0
    {
      var _ := ConsumeLine();
      var pair := ParseKeyValuePair(content, depth);
      if pair.Err? {
        return Err(pair.error);
      }
      var key, value := pair.value.key, pair.value.value;
      var values, keyOrder := f.values, f.keyOrder;
      if expandPaths == Safe && '.' in key && IsValidDottedPath(key) {
        var expanded := ExpandDottedKey(f, key, value, currentLine);
        if expanded.Err? {
          return Err(expanded.error);
        }
        values, keyOrder := expanded.value.values, expanded.value.keyOrder;
      } else {
        if key !in keyOrder {
          keyOrder := keyOrder + [key];
        }
        values := values[key := value];
      }
      if |keyOrder| > limits.maxObjectKeys {
        return Err(ObjectKeyLimitExceeded(|keyOrder|, limits.maxObjectKeys));
      }
      return Ok(Fields(values, keyOrder));
    }

    /** `parseKeyValuePair(_:atDepth:)`. */
    method ParseKeyValuePair(content: string, depth: nat) returns (r: Result<Entry>)
      requires Valid()
      modifies this
      ensures Valid()
      ensures var s := KeyValuePairAt(Context(), content, depth, old(currentLine));
        r == Drop(s) && (s.Ok? ==> currentLine == s.value.next)
      decreases |lines| - currentLine, 5
    {
      var header := ParseArrayHeader(content);
      if header.Ok? {
        var arrayValue := ParseArrayContent(header.value.header, content[header.value.restAt..], depth);
        if arrayValue.Err? {
          return Err(arrayValue.error);
        }
        var key := if header.value.header.key.Some? then header.value.header.key.value else "";
        return Ok(Entry(key, arrayValue.value));
      }
      if IsListItem(content) {
        return Err(InvalidFormat);
      }
      var colon := FindKeyValueSeparator(content);
      if colon.None? {
        return Err(InvalidFormat);
      }
      var key := ParseKey(content[..colon.value]);
      if key.Err? {
        return Err(key.error);
      }
      var valuePart := TrimLeadingSpace(content[colon.value + 1..]);
      if valuePart == [] {
        var nested := ParseNestedValue(depth + 1);
        if nested.Err? {
          return Err(nested.error);
        }
        return Ok(Entry(key.value, nested.value));
      }
      var value := ParsePrimitiveValue(valuePart);
      if value.Err? {
        return Err(value.error);
      }
      return Ok(Entry(key.value, value.value));
    }

    /** `parseNestedValue(atDepth:)`. */
    method ParseNestedValue(depth: nat) returns (r: Result<Value>)
      requires Valid()
      modifies this
      ensures Valid()
      ensures var s := NestedValueAt(Context(), depth, old(currentLine));
        r == Drop(s) && (s.Ok? ==> currentLine == s.value.next)
      decreases |lines| - currentLine, 3
    {
      SkipEmptyLines();
      var line := PeekLine();
      if line.None? {
        return Ok(EmptyObject);
      }
      var lineDepth, content := TrimIndentation(line.value, indentSize);
      if lineDepth < depth {
        return Ok(EmptyObject);
      }
      if lineDepth != depth {
        return Err(InvalidIndentation(currentLine + 1));
      }
      if IsListItem(content) {
        return Err(InvalidFormat);
      }
      r := ParseObject(depth);
    }

    /** `parseArrayContent(header:atDepth:)`; `rest` is the text after the
        header's colon on the line just consumed. */
    method ParseArrayContent(header: ArrayHeader, rest: string, depth: nat) returns (r: Result<Value>)
      requires Valid()
      modifies this
      ensures Valid()
      ensures var s := ArrayContentAt(Context(), header, rest, depth, old(currentLine));
        r == Drop(s) && (s.Ok? ==> currentLine == s.value.next)
      decreases |lines| - currentLine, 3
    {
      if header.count > limits.maxArrayLength {
        return Err(ArrayLengthLimitExceeded(header.count, limits.maxArrayLength));
      }
      var inlineValues := TrimLeadingSpace(rest);
      if inlineValues != [] {
        var values := ParseDelimitedValues(inlineValues, header.delimiter);
        if values.Err? {
          return Err(values.error);
        }
        if |values.value| != header.count {
          return Err(CountMismatch(header.count, |values.value|, currentLine));
        }
        return Ok(Array(values.value));
      }
      if header.count == 0 {
        return Ok(Array([]));
      }
      var items: Result<seq<Value>>;
      if header.fields.Some? {
        items := ParseTabularRows(header.count, header.fields.value, header.delimiter, depth);
      } else {
        items := ParseListItems(header.count, depth);
      }
      if items.Err? {
        return Err(items.error);
      }
      if |items.value| != header.count {
        return Err(CountMismatch(header.count, |items.value|, currentLine));
      }
      return Ok(Array(items.value));
    }

    /** `parseTabularRows(count:fields:delimiter:atDepth:)`. */
    method ParseTabularRows(count: nat, fields: seq<string>, delimiter: char, depth: nat) returns (r: Result<seq<Value>>)
      requires Valid()
      modifies this
      ensures Valid()
      ensures var s := TabularRowsAt(Context(), count, fields, delimiter, depth, old(currentLine), []);
        r == Drop(s) && (s.Ok? ==> currentLine == s.value.next)
    {
      var rows: seq<Value> := [];
      ghost var goal := TabularRowsAt(Context(), count, fields, delimiter, depth, currentLine, []);
      for n := 0 to count
        invariant Valid()
        invariant TabularRowsAt(Context(), count - n, fields, delimiter, depth, currentLine, rows) == goal
      {
        var row := ParseTabularPass(count - n, fields, delimiter, depth, rows);
        if row.None? {
          break;
        }
        if row.value.Err? {
          return Err(row.value.error);
        }
        rows := rows + [row.value.value];
      }
      return Ok(rows);
    }

    /** One pass of `parseTabularRows`' loop: empty lines are skipped and the
        next line is consumed (`None` when there is none, which ends the
        loop), then the row on it is read. */
    method ParseTabularPass(remaining: nat, fields: seq<string>, delimiter: char, depth: nat, ghost rows: seq<Value>)
      returns (row: Option<Result<Value>>)
      requires Valid() && remaining > 0
      modifies this
      ensures Valid()
      ensures var s := TabularRowsAt(Context(), remaining, fields, delimiter, depth, old(currentLine), rows);
        if row.None? then s == Ok(Parsed(rows, currentLine))
        else if row.value.Err? then Drop(s) == Err(row.value.error)
        else s == TabularRowsAt(Context(), remaining - 1, fields, delimiter, depth, currentLine, rows + [row.value.value])
    {
      ghost var c, start := Context(), currentLine;
      SkipEmptyLines();
      ghost var p := currentLine;
      var line := ConsumeLine();
      if line.None? {
        assert TabularRowsAt(c, remaining, fields, delimiter, depth, start, rows) == Ok(Parsed(rows, p));
        return None;
      }
      assert TabularRowsAt(c, remaining, fields, delimiter, depth, start, rows)
        == NextTabularRow(c, remaining, fields, delimiter, depth, p, rows);
      var r := ParseTabularRow(line.value, fields, delimiter, depth);
      return Some(r);
    }

    /** The body of `parseTabularRows`' loop once its line is consumed: the
        depth check, the row's values, their count, and the row object. */
    method ParseTabularRow(line: string, fields: seq<string>, delimiter: char, depth: nat) returns (r: Result<Value>)
      requires Valid() && 0 < currentLine && line == lines[currentLine - 1]
      ensures r == TabularRowAt(Context(), fields, delimiter, depth, currentLine - 1)
    {
      var lineDepth, content := TrimIndentation(line, indentSize);
      if lineDepth != depth + 1 {
        return Err(InvalidIndentation(currentLine));
      }
      var values := ParseDelimitedValues(content, delimiter);
      if values.Err? {
        return Err(values.error);
      }
      if |values.value| != |fields| {
        return Err(FieldCountMismatch(|fields|, |values.value|, currentLine));
      }
      var objectValues := BuildRow(fields, values.value);
      return Ok(Object(objectValues, fields));
    }

    /** `parseListItems(count:delimiter:atDepth:)`; the delimiter is not used
        by the source and is not a parameter here. */
    method ParseListItems(count: nat, depth: nat) returns (r: Result<seq<Value>>)
      requires Valid()
      modifies this
      ensures Valid()
      ensures var s := ListItemsAt(Context(), count, depth, old(currentLine), []);
        r == Drop(s) && (s.Ok? ==> currentLine == s.value.next)
      decreases |lines| - currentLine, 1
    {
      var items: seq<Value> := [];
      ghost var goal := ListItemsAt(Context(), count, depth, currentLine, []);
      for n := 0 to count
        invariant Valid() && old(currentLine) <= currentLine
        invariant ListItemsAt(Context(), count - n, depth, currentLine, items) == goal
      {
        var item := ParseListItemPass(count - n, depth, items);
        if item.None? {
          break;
        }
        if item.value.Err? {
          return Err(item.value.error);
        }
        items := items + [item.value.value];
      }
      return Ok(items);
    }

    /** One pass of `parseListItems`' loop: empty lines are skipped (`None`
        when none is left, which ends the loop), the line's depth and its
        `- ` marker are checked, and the item on it is read. */
    method ParseListItemPass(remaining: nat, depth: nat, ghost items: seq<Value>) returns (item: Option<Result<Value>>)
      requires Valid() && remaining > 0
      modifies this
      ensures Valid()
      ensures (item.None? || item.value.Ok?) ==> old(currentLine) <= currentLine
      ensures var s := ListItemsAt(Context(), remaining, depth, old(currentLine), items);
        if item.None? then s == Ok(Parsed(items, currentLine))
        else if item.value.Err? then Drop(s) == Err(item.value.error)
        else s == ListItemsAt(Context(), remaining - 1, depth, currentLine, items + [item.value.value])
      decreases |lines| - currentLine, 0
    {
      var expectedDepth := depth + 1;
      SkipEmptyLines();
      var line := PeekLine();
      if line.None? {
        return None;
      }
      var lineDepth, content := TrimIndentation(line.value, indentSize);
      if lineDepth != expectedDepth {
        return Some(Err(InvalidIndentation(currentLine + 1)));
      }
      ghost var at := currentLine;
      assert content == LineContent(lines[at]);
      var _ := ConsumeLine();
      if !IsListItem(content) {
        return Some(Err(InvalidFormat));
      }
      ghost var read := ListItemAt(Context(), content[2..], expectedDepth, at + 1);
      assert ListItemsAt(Context(), remaining, depth, old(currentLine), items)
        == if read.Err? then Err(read.error)
           else ListItemsAt(Context(), remaining - 1, depth, read.value.next, items + [read.value.value]);
      var r := ParseListItemContent(content[2..], expectedDepth);
      return Some(r);
    }

    /** `parseListItemContent(_:atDepth:delimiter:)`. */
    method ParseListItemContent(content: string, depth: nat) returns (r: Result<Value>)
      requires Valid()
      modifies this
      ensures Valid()
      ensures var s := ListItemAt(Context(), content, depth, old(currentLine));
        r == Drop(s) && (s.Ok? ==> currentLine == s.value.next)
      decreases |lines| - currentLine, 6
    {
      if content != [] && content[0] == '[' {
        var header := ParseArrayHeader(content);
        if header.Ok? {
          r := ParseArrayContent(header.value.header, content[header.value.restAt..], depth);
          return;
        }
      }
      var colon := FindKeyValueSeparator(content);
      if colon.None? {
        return ParsePrimitiveValue(content);
      }
      var key := ParseKey(content[..colon.value]);
      if key.Err? {
        return Err(key.error);
      }
      var valuePart := TrimLeadingSpace(content[colon.value + 1..]);
      var first := ParseFirstField(content, key.value, valuePart, depth);
      if first.Err? {
        return Err(first.error);
      }
      r := ParseListItemFields(depth, Fields(map[first.value.key := first.value.value], [first.value.key]));
    }

    /** The `while let nextLine = peekLine()` loop of `parseListItemContent`:
        further fields of the item's object, one indentation level deeper. */
    method ParseListItemFields(depth: nat, f: Fields) returns (r: Result<Value>)
      requires Valid()
      modifies this
      ensures Valid()
      ensures var s := ListItemFieldsAt(Context(), depth, old(currentLine), f);
        r == Drop(s) && (s.Ok? ==> currentLine == s.value.next)
      decreases |lines| - currentLine, 1
    {
      var fields := f;
      ghost var goal := ListItemFieldsAt(Context(), depth, currentLine, f);
      while true
        invariant Valid() && old(currentLine) <= currentLine
        invariant ListItemFieldsAt(Context(), depth, currentLine, fields) == goal
        decreases |lines| - currentLine
      {
        var nextLine := PeekLine();
        if nextLine.None? {
          break;
        }
        if nextLine.value == [] {
          var _ := ConsumeLine();
          continue;
        }
        var nextDepth, nextContent := TrimIndentation(nextLine.value, indentSize);
        if nextDepth != depth + 1 {
          break;
        }
        if IsListItem(nextContent) {
          break;
        }
        var field := ParseListItemField(nextContent, depth, fields);
        if field.Err? {
          return Err(field.error);
        }
        fields := field.value;
      }
      return Ok(Object(fields.values, fields.keyOrder));
    }

    /** A pass of that loop on a further field: the line is consumed and its
        key-value pair is stored, replacing an earlier value of the key. */
    method ParseListItemField(content: string, depth: nat, f: Fields) returns (r: Result<Fields>)
      requires Valid() && currentLine < |lines| && content == LineContent(lines[currentLine])
      modifies this
      ensures Valid()
      ensures var s := ListItemFieldAt(Context(), depth, old(currentLine), f);
        r == Drop(s) && (s.Ok? ==> currentLine == s.value.next)
      decreases |lines| - currentLine, 0
    {
      var _ := ConsumeLine();
      var pair := ParseKeyValuePair(content, depth + 1);
      if pair.Err? {
        return Err(pair.error);
      }
      var values, keyOrder := f.values, f.keyOrder;
      if pair.value.key !in keyOrder {
        keyOrder := keyOrder + [pair.value.key];
      }
      values := values[pair.value.key := pair.value.value];
      return Ok(Fields(values, keyOrder));
    }

    /** The first field of a list-item object in `parseListItemContent`: the
        key and value it stores in `objectValues`, with the key that
        `keyOrder` then holds alone. */
    method ParseFirstField(content: string, key: string, valuePart: string, depth: nat) returns (r: Result<Entry>)
      requires Valid()
      modifies this
      ensures Valid()
      ensures var s := FirstFieldAt(Context(), content, key, valuePart, depth, old(currentLine));
        r == Drop(s) && (s.Ok? ==> currentLine == s.value.next)
      decreases |lines| - currentLine, 4
    {
      var keyOrder := [key];
      if valuePart == [] {
        var nested := ParseNestedValue(depth + 1);
        if nested.Err? {
          return Err(nested.error);
        }
        return Ok(Entry(key, nested.value));
      }
      var header := ParseArrayHeader(content);
      if header.Ok? {
        var arrayValue := ParseArrayContent(header.value.header, content[header.value.restAt..], depth);
        if arrayValue.Err? {
          return Err(arrayValue.error);
        }
        var arrayKey := if header.value.header.key.Some? then header.value.header.key.value else key;
        if arrayKey !in keyOrder && arrayKey != key {
          keyOrder := [arrayKey];
        }
        return Ok(Entry(keyOrder[0], arrayValue.value));
      }
      var value := ParsePrimitiveValue(valuePart);
      if value.Err? {
        return Err(value.error);
      }
      return Ok(Entry(key, value.value));
    }
  }

  /** The inner `for (i, field) in fields.enumerated()` loop of `parseTabularRows`. */
  method BuildRow(fields: seq<string>, values: seq<Value>) returns (m: map<string, Value>)
    requires |fields| == |values|
    ensures m == RowValues(fields, values)
  {
    m := map[];
    for i := 0 to |fields|
      invariant m == RowValues(fields[..i], values[..i])
    {
      assert fields[..i + 1][..i] == fields[..i] && values[..i + 1][..i] == values[..i];
      m := m[fields[i] := values[i]];
    }
    assert fields[..|fields|] == fields && values[..|values|] == values;
  }

  /** `TOONDecoder.decode` up to the value tree: the size check on the UTF-8
      byte count, then a parser over the text. */
  method DecodeText(text: string, indent: nat, expand: PathExpansion, limits: Limits) returns (r: Result<Value>)
    requires indent > 0
    ensures r == Decode(text, indent, expand, limits)
  {
    var size := Utf8Length(text);
    if size > limits.maxInputSize {
      return Err(InputTooLarge(size, limits.maxInputSize));
    }
    var parser := new Parser(text, indent, expand, limits);
    r := parser.Parse();
  }
}

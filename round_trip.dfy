/** The decoder reads back what the encoder writes. For the values of
    `Written.Supported` (objects, primitives other than doubles, inline
    arrays, arrays of inline arrays, tables and mixed arrays in the list
    layout) decoding the encoder's text
    without path expansion, within limits the value fits, gives the value
    back. The proof follows the decoder: each block of lines an emitter
    writes is read by the decoder function for that block, from its first
    line to the line after its last. */
module RoundTrip {
  import opened ToonValue
  import opened Text
  import opened Scan
  import opened Primitive
  import opened Header
  import opened Paths
  import opened Descent
  import opened Quoting
  import opened Emit
  import opened EncodeFacts
  import opened LineShapes
  import opened Written
  import opened DescentFacts

  /** A decoder set up to read what an encoder configured by `cfg` wrote. */
  predicate Reads(c: Ctx, cfg: Config)
  {
    c.indent == cfg.indent && cfg.indent > 0 && c.expand == Disabled
  }

  /** The lines from `p` on begin with `block`. */
  predicate Block(lines: seq<string>, p: nat, block: seq<string>)
  {
    p + |block| <= |lines| && lines[p..p + |block|] == block
  }

  /** A block that is one line and then more splits after its first line. */
  lemma BlockAfterHead(lines: seq<string>, p: nat, head: string, body: seq<string>)
    requires Block(lines, p, [head] + body)
    ensures Block(lines, p, [head]) && Block(lines, p + 1, body)
  {
    BlockSplit(lines, p, [head], body);
  }

  /** The line at `q`, if any, is a non-empty line shallower than `depth`:
      a block at `depth` ends there. */
  predicate EndsBelow(c: Ctx, q: nat, depth: nat)
    requires c.indent > 0
  {
    q <= |c.lines| && (q < |c.lines| ==> c.lines[q] != [] && LineDepth(c.lines[q], c.indent) < depth)
  }

  lemma BlockSplit(lines: seq<string>, p: nat, a: seq<string>, b: seq<string>)
    requires Block(lines, p, a + b)
    ensures Block(lines, p, a) && Block(lines, p + |a|, b)
  {
    assert lines[p..p + |a|] == (a + b)[..|a|];
    assert lines[p + |a|..p + |a| + |b|] == (a + b)[|a|..];
  }

  lemma BlockAt(lines: seq<string>, p: nat, block: seq<string>, q: nat)
    requires Block(lines, p, block) && p <= q < p + |block|
    ensures q < |lines| && lines[q] == block[q - p]
  {
    assert lines[p..p + |block|][q - p] == lines[q];
  }

  lemma SliceSnoc<T>(s: seq<T>, j: nat)
    requires j < |s|
    ensures s[..j] + [s[j]] == s[..j + 1]
  {
  }

  lemma SliceAll<T>(s: seq<T>)
    ensures s[..|s|] == s
  {
  }

  // ---------------------------------------------------------------------------
  // Entries under construction

  /** Equal neighbours make the two ends of a chain equal. */
  lemma {:induction false} Chain<R>(f: nat -> R, j: nat, n: nat)
    requires j <= n
    requires forall k :: j <= k < n ==> f(k) == f(k + 1)
    ensures f(j) == f(n)
    decreases n - j
  {
    if j < n {
      Chain(f, j + 1, n);
    }
  }

  /** The entries of `obj` before its `i`-th key, as the decoder holds them. */
  function FieldsBefore(obj: Value, i: nat): Fields
    requires obj.Object? && i <= |obj.keyOrder|
  {
    var ks := obj.keyOrder[..i];
    Fields(map k | k in ks && k in obj.values :: obj.values[k], ks)
  }

  /** Inserting the `i`-th key's value extends the entries by that key. */
  lemma FieldsStep(obj: Value, i: nat)
    requires WellFormed(obj) && obj.Object? && i < |obj.keyOrder|
    ensures obj.keyOrder[i] in obj.values
    ensures InsertPlain(FieldsBefore(obj, i), obj.keyOrder[i], obj.values[obj.keyOrder[i]]) == FieldsBefore(obj, i + 1)
  {
    var ko, key := obj.keyOrder, obj.keyOrder[i];
    assert key in ko;
    assert key !in ko[..i] by {
      forall j | 0 <= j < i ensures ko[..i][j] != key { assert ko[j] != ko[i]; }
    }
    assert ko[..i] + [key] == ko[..i + 1];
  }

  /** All the entries are the object. */
  lemma FieldsAll(obj: Value)
    requires WellFormed(obj) && obj.Object?
    ensures var f := FieldsBefore(obj, |obj.keyOrder|); Object(f.values, f.keyOrder) == obj
  {
    assert obj.keyOrder[..|obj.keyOrder|] == obj.keyOrder;
  }

  // ---------------------------------------------------------------------------
  // The object loop

  /** The loop stops at the end of the lines or at a shallower line. */
  lemma LoopEnd(c: Ctx, depth: nat, p: nat, f: Fields)
    requires c.indent > 0 && EndsBelow(c, p, depth)
    ensures ObjectLoop(c, depth, p, f) == Ok(Parsed(Object(f.values, f.keyOrder), p))
  {
  }

  /** On a line at the object's depth the loop reads one entry and goes on. */
  lemma LoopStep(c: Ctx, depth: nat, p: nat, f: Fields, key: string, v: Value, next: nat)
    requires c.indent > 0 && c.expand == Disabled && p < |c.lines|
    requires c.lines[p] != [] && LineDepth(c.lines[p], c.indent) == depth
    requires KeyValuePairAt(c, LineContent(c.lines[p]), depth, p + 1) == Ok(Parsed(Entry(key, v), next))
    requires |InsertPlain(f, key, v).keyOrder| <= c.limits.maxObjectKeys
    ensures ObjectLoop(c, depth, p, f) == ObjectLoop(c, depth, next, InsertPlain(f, key, v))
  {
  }

  // ---------------------------------------------------------------------------
  // Key lines

  /** A line that is neither a header nor a list item, whose separator at
      `sep` follows `key` and is followed by `valuePart` once one leading
      space is dropped. */
  predicate KeyLine(content: string, sep: nat, key: string, valuePart: string)
  {
    && HeaderOf(content).Err? && !IsListItem(content)
    && KeyValueSeparator(content) == Some(sep) && sep < |content|
    && ParseKey(content[..sep]) == Ok(key)
    && TrimLeadingSpace(content[sep + 1..]) == valuePart
  }

  /** `parseKeyValuePair` on such a line: the key, then a nested value when
      nothing follows the separator, otherwise a primitive on the line itself. */
  lemma KeyLineCases(c: Ctx, content: string, depth: nat, pos: nat, sep: nat, key: string, valuePart: string)
    requires c.indent > 0 && pos <= |c.lines|
    requires KeyLine(content, sep, key, valuePart)
    ensures valuePart == [] ==>
      var n := NestedValueAt(c, depth + 1, pos);
      KeyValuePairAt(c, content, depth, pos)
        == if n.Err? then Err(n.error) else Ok(Parsed(Entry(key, n.value.value), n.value.next))
    ensures valuePart != [] ==>
      var v := ParsePrimitiveValue(valuePart);
      KeyValuePairAt(c, content, depth, pos)
        == if v.Err? then Err(v.error) else Ok(Parsed(Entry(key, v.value), pos))
  {
  }

  /** A line the encoder writes for a key without an array: the decoder
      finds no header, no list item, the separator right after the key, and
      the key itself before it. */
  lemma KeyLineFacts(key: string, tail: string)
    requires tail != [] && tail[0] == ':' && '[' !in tail
    ensures KeyLine(EncodeKey(key) + tail, |EncodeKey(key)|, key, TrimLeadingSpace(tail[1..]))
  {
    var ek := EncodeKey(key);
    var content := ek + tail;
    KeyLineNotHeader(key, tail);
    KeyStart(key);
    assert content[0] == ek[0];
    KeySeparator(key, tail);
    assert content[..|ek|] == ek;
    assert content[|ek| + 1..] == tail[1..];
    EncodeKeyRoundTrip(key);
  }

  /** The text the encoder writes after a key for a primitive: no `[`, and
      the token of the primitive once the separator and its space are gone. */
  lemma PrimitiveTail(v: Value, d: char)
    requires IsExactPrimitive(v) && (v.Str? ==> '[' !in v.s)
    ensures var t := EncodePrimitive(v, d).value;
      && '[' !in ": " + t
      && TrimLeadingSpace((": " + t)[1..]) == t
      && t != [] && ParsePrimitiveValue(t) == Ok(v)
  {
    var t := EncodePrimitive(v, d).value;
    TokenNoBracket(v, d);
    assert (": " + t)[1..] == " " + t;
    EncodePrimitiveReadsBack(v, d);
  }

  /** `key: value` with a primitive is read as that key and that value, on
      the line alone. */
  lemma PrimitiveEntryReads(c: Ctx, content: string, key: string, v: Value, d: char, depth: nat, pos: nat)
    requires c.indent > 0 && pos <= |c.lines|
    requires IsExactPrimitive(v) && (v.Str? ==> '[' !in v.s)
    requires content == EncodeKey(key) + (": " + EncodePrimitive(v, d).value)
    ensures KeyValuePairAt(c, content, depth, pos) == Ok(Parsed(Entry(key, v), pos))
  {
    var t := EncodePrimitive(v, d).value;
    PrimitiveTail(v, d);
    KeyLineFacts(key, ": " + t);
    KeyLineCases(c, content, depth, pos, |EncodeKey(key)|, key, t);
  }

  /** A token of a string without `[` holds no `[`. */
  lemma TokenNoBracket(v: Value, d: char)
    requires IsExactPrimitive(v) && (v.Str? ==> '[' !in v.s)
    ensures '[' !in ": " + EncodePrimitive(v, d).value
  {
    var t := EncodePrimitive(v, d).value;
    TokenForm(v, d);
    if v.Str? && t == "\"" + Escaped(v.s) + "\"" {
      EscapedKeeps(v.s, '[');
    }
  }

  /** `key:` alone is read as that key and the nested value below it. */
  lemma NestedEntryReads(c: Ctx, content: string, key: string, depth: nat, pos: nat)
    requires c.indent > 0 && pos <= |c.lines|
    requires content == EncodeKey(key) + ":"
    ensures var n := NestedValueAt(c, depth + 1, pos);
      KeyValuePairAt(c, content, depth, pos)
        == if n.Err? then Err(n.error) else Ok(Parsed(Entry(key, n.value.value), n.value.next))
  {
    KeyLineFacts(key, ":");
    assert ":"[1..] == [];
    KeyLineCases(c, content, depth, pos, |EncodeKey(key)|, key, []);
  }

  /** Nothing at the nested depth below a `key:` line: an empty object. */
  lemma EmptyNested(c: Ctx, depth: nat, pos: nat)
    requires c.indent > 0 && EndsBelow(c, pos, depth)
    ensures NestedValueAt(c, depth, pos) == Ok(Parsed(EmptyObject, pos))
  {
  }

  /** A key line at the nested depth below a `key:` line: an object there. */
  lemma ObjectNested(c: Ctx, depth: nat, pos: nat, key: string, tail: string)
    requires c.indent > 0 && pos < |c.lines| && c.lines[pos] != []
    requires LineDepth(c.lines[pos], c.indent) == depth
    requires LineContent(c.lines[pos]) == EncodeKey(key) + tail
    requires depth <= c.limits.maxDepth
    ensures NestedValueAt(c, depth, pos) == ObjectLoop(c, depth, pos, Fields(map[], []))
  {
    KeyStart(key);
    assert LineContent(c.lines[pos])[0] == EncodeKey(key)[0];
  }

  // ---------------------------------------------------------------------------
  // Arrays

  /** A header line alone reads back as its header with nothing after it. */
  lemma HeaderAlone(cfg: Config, length: nat, key: Option<string>, fields: Option<seq<string>>)
    requires length <= INT64_MAX && FieldNamesFit(fields)
    ensures var h := HeaderFor(cfg, length, key, fields);
      var hp := HeaderParse(ArrayHeader(key, length, cfg.delimiter.Char(), fields, cfg.lengthMarker == Hash), |h|);
      HeaderOf(h) == Ok(hp) && RestOf(h, hp) == []
  {
    var h := HeaderFor(cfg, length, key, fields);
    FormatHeaderRoundTrip(length, key, fields, cfg.delimiter.Char(), cfg.lengthMarker == Hash, "");
    assert h + "" == h;
  }

  /** An inline array's line reads back as its header and its values. */
  lemma InlineLineReads(c: Ctx, cfg: Config, key: Option<string>, values: seq<Value>, depth: nat, pos: nat)
    requires c.indent > 0 && pos <= |c.lines|
    requires AllExact(values) && |values| <= INT64_MAX && |values| <= c.limits.maxArrayLength
    ensures var content := FormatInlineArray(cfg, values, key);
      && HeaderOf(content).Ok?
      && HeaderOf(content).value.header
         == ArrayHeader(key, |values|, cfg.delimiter.Char(), None, cfg.lengthMarker == Hash)
      && ArrayContentAt(c, HeaderOf(content).value.header, RestOf(content, HeaderOf(content).value), depth, pos)
         == Ok(Parsed(Array(values), pos))
  {
    var d := cfg.delimiter.Char();
    var h := HeaderFor(cfg, |values|, key, None);
    if values == [] {
      HeaderAlone(cfg, 0, key, None);
    } else {
      var content := FormatInlineArray(cfg, values, key);
      var joined := JoinEncodedValues(values, d);
      InlineArrayReadBack(cfg, values, key);
      InlineSplit(cfg, values, key);
      JoinedStart(values, d);
      assert content[|h|..] == " " + joined;
      assert TrimLeadingSpace(content[|h|..]) == joined;
    }
  }

  /** `parseListItemContent` on a keyless header: the array it announces. */
  lemma ListItemArray(c: Ctx, content: string, depth: nat, pos: nat)
    requires c.indent > 0 && pos <= |c.lines|
    requires content != [] && content[0] == '[' && HeaderOf(content).Ok?
    ensures ListItemAt(c, content, depth, pos)
      == ArrayContentAt(c, HeaderOf(content).value.header, RestOf(content, HeaderOf(content).value), depth, pos)
  {
  }

  /** The line at `q` is a `- ` item at depth `depth + 1` that reads as
      `item`, with the next line to read at `next`. */
  predicate ListItemLine(c: Ctx, depth: nat, q: nat, item: Value, next: nat)
    requires c.indent > 0
  {
    && q < |c.lines| && c.lines[q] != []
    && LineDepth(c.lines[q], c.indent) == depth + 1
    && IsListItem(LineContent(c.lines[q]))
    && ListItemAt(c, LineContent(c.lines[q])[2..], depth + 1, q + 1) == Ok(Parsed(item, next))
  }

  /** One pass of `parseListItems` on a `- ` line at the items' depth. */
  lemma ListItemsStep(c: Ctx, r: nat, r': nat, depth: nat, q: nat, acc: seq<Value>, item: Value, next: nat)
    requires c.indent > 0 && r > 0 && r' == r - 1 && ListItemLine(c, depth, q, item, next)
    ensures ListItemsAt(c, r, depth, q, acc) == ListItemsAt(c, r', depth, next, acc + [item])
  {
  }

  /** The line at `q` is a row of `header` that reads as `row`. */
  predicate TableRowLine(c: Ctx, header: seq<string>, d: char, depth: nat, q: nat, row: Value)
    requires c.indent > 0
  {
    q < |c.lines| && c.lines[q] != [] && TabularRowAt(c, header, d, depth, q) == Ok(row)
  }

  /** One pass of `parseTabularRows` on a row line. */
  lemma RowsStep(c: Ctx, r: nat, r': nat, header: seq<string>, d: char, depth: nat, q: nat, q': nat, acc: seq<Value>, row: Value)
    requires c.indent > 0 && r > 0 && r' == r - 1 && q' == q + 1 && TableRowLine(c, header, d, depth, q, row)
    ensures TabularRowsAt(c, r, header, d, depth, q, acc) == TabularRowsAt(c, r', header, d, depth, q', acc + [row])
  {
  }

  /** The same pass, with the grown accumulator named. */
  lemma RowsStepTo(c: Ctx, r: nat, r': nat, header: seq<string>, d: char, depth: nat, q: nat, q': nat, acc: seq<Value>, acc': seq<Value>, row: Value)
    requires c.indent > 0 && r > 0 && r' == r - 1 && q' == q + 1 && acc' == acc + [row]
    requires TableRowLine(c, header, d, depth, q, row)
    ensures TabularRowsAt(c, r, header, d, depth, q, acc) == TabularRowsAt(c, r', header, d, depth, q', acc')
  {
    RowsStep(c, r, r', header, d, depth, q, q', acc, row);
  }

  /** A `- ` line the encoder writes reads back as a list item at its depth. */
  lemma ListItemText(c: Ctx, cfg: Config, depth: nat, q: nat, f: string)
    requires Reads(c, cfg) && q < |c.lines| && c.lines[q] == Line(cfg, depth, "- " + f)
    ensures c.lines[q] != [] && LineDepth(c.lines[q], c.indent) == depth
    ensures var content := LineContent(c.lines[q]); IsListItem(content) && content[2..] == f
  {
    LineReadBack(cfg, depth, "- " + f);
    assert ("- " + f)[2..] == f;
  }

  /** The element line at `q` of an array of arrays whose lines start at
      `p` is `- ` and the inner array's inline form, one level below the header. */
  lemma InlineItemLine(c: Ctx, cfg: Config, items: seq<Value>, depth: nat, p: nat, q: nat)
    requires Reads(c, cfg) && InlineArrays(items)
    requires Block(c.lines, p, InlineItemLines(cfg, items, depth + 1))
    requires p <= q < p + |items|
    ensures q < |c.lines| && c.lines[q] == Line(cfg, depth + 1, "- " + FormatInlineArray(cfg, items[q - p].items, None))
  {
    var j := q - p;
    var block := InlineItemLines(cfg, items, depth + 1);
    InlineItemLinesAll(cfg, items, depth + 1);
    assert block[j] == Line(cfg, depth + 1, "- " + FormatInlineArray(cfg, items[j].items, None));
    BlockAt(c.lines, p, block, q);
  }

  /** An inline array as a list item reads back as that array. */
  lemma InlineItemReads(c: Ctx, cfg: Config, inner: seq<Value>, depth: nat, pos: nat)
    requires c.indent > 0 && pos <= |c.lines|
    requires AllExact(inner) && |inner| <= INT64_MAX && |inner| <= c.limits.maxArrayLength
    ensures ListItemAt(c, FormatInlineArray(cfg, inner, None), depth, pos) == Ok(Parsed(Array(inner), pos))
  {
    var f := FormatInlineArray(cfg, inner, None);
    InlineStartsBracket(cfg, inner);
    InlineLineReads(c, cfg, None, inner, depth, pos);
    ListItemArray(c, f, depth, pos);
  }

  /** Line `q`, within the `|items|` lines from `p`, holds item `q - p`. */
  predicate ItemLine(c: Ctx, items: seq<Value>, depth: nat, p: nat, q: nat)
    requires c.indent > 0
  {
    p <= q < p + |items| && ListItemLine(c, depth, q, items[q - p], q + 1)
  }

  /** Lines from `p` on each holding the next `- ` item of `items`, at the
      items' depth. */
  predicate ItemLines(c: Ctx, items: seq<Value>, depth: nat, p: nat)
    requires c.indent > 0
  {
    && p + |items| <= |c.lines|
    && forall q :: p <= q < p + |items| ==> ItemLine(c, items, depth, p, q)
  }

  /** `parseListItems` after the first `k` items of `items`, from line `p + k`. */
  function ItemsFrom(c: Ctx, items: seq<Value>, depth: nat, p: nat, k: nat): Result<Parsed<seq<Value>>>
  {
    if c.indent > 0 && k <= |items| && p + k <= |c.lines|
    then ListItemsAt(c, |items| - k, depth, p + k, items[..k])
    else Err(InvalidFormat)
  }

  /** One pass of `parseListItems` over such lines. */
  lemma ItemsStep(c: Ctx, items: seq<Value>, depth: nat, p: nat, k: nat)
    requires c.indent > 0 && ItemLines(c, items, depth, p) && k < |items|
    ensures ItemsFrom(c, items, depth, p, k) == ItemsFrom(c, items, depth, p, k + 1)
  {
    SliceSnoc(items, k);
    assert ItemLine(c, items, depth, p, p + k);
    ListItemsStep(c, |items| - k, |items| - (k + 1), depth, p + k, items[..k], items[k], p + (k + 1));
  }

  /** The passes of `parseListItems` chained from the first item to the last. */
  lemma ItemsChain(c: Ctx, items: seq<Value>, depth: nat, p: nat, next: nat)
    requires c.indent > 0 && next == p + |items| && next <= |c.lines|
    requires forall k :: 0 <= k < |items| ==> ItemsFrom(c, items, depth, p, k) == ItemsFrom(c, items, depth, p, k + 1)
    ensures ListItemsAt(c, |items|, depth, p, []) == Ok(Parsed(items, next))
  {
    Chain((k: nat) => ItemsFrom(c, items, depth, p, k), 0, |items|);
    assert items[..0] == [] && items[..|items|] == items;
  }

  /** `parseListItems` over such lines reads every item. */
  lemma ItemsLoop(c: Ctx, items: seq<Value>, depth: nat, p: nat, next: nat)
    requires c.indent > 0 && ItemLines(c, items, depth, p) && next == p + |items|
    ensures next <= |c.lines|
    ensures ListItemsAt(c, |items|, depth, p, []) == Ok(Parsed(items, next))
  {
    forall k | 0 <= k < |items| ensures ItemsFrom(c, items, depth, p, k) == ItemsFrom(c, items, depth, p, k + 1) {
      ItemsStep(c, items, depth, p, k);
    }
    ItemsChain(c, items, depth, p, next);
  }

  /** The element line at `q` of an array of arrays reads back as its element. */
  lemma ItemLineReads(c: Ctx, cfg: Config, items: seq<Value>, depth: nat, p: nat, q: nat)
    requires Reads(c, cfg) && InlineArrays(items) && ArrayFits(items, c.limits)
    requires Block(c.lines, p, InlineItemLines(cfg, items, depth + 1)) && p <= q < p + |items|
    ensures ItemLine(c, items, depth, p, q)
  {
    var item := items[q - p];
    assert item.Array? && AllExact(item.items) && |item.items| <= INT64_MAX;
    assert |item.items| <= c.limits.maxArrayLength;
    InlineItemLine(c, cfg, items, depth, p, q);
    InlineListItem(c, cfg, depth, q, item.items);
    assert item == Array(item.items);
  }

  /** A `- ` line holding an inline array, one level below `depth`, is a list
      item that reads back as that array. */
  lemma InlineListItem(c: Ctx, cfg: Config, depth: nat, q: nat, inner: seq<Value>)
    requires Reads(c, cfg) && q < |c.lines|
    requires c.lines[q] == Line(cfg, depth + 1, "- " + FormatInlineArray(cfg, inner, None))
    requires AllExact(inner) && |inner| <= INT64_MAX && |inner| <= c.limits.maxArrayLength
    ensures ListItemLine(c, depth, q, Array(inner), q + 1)
  {
    ListItemText(c, cfg, depth + 1, q, FormatInlineArray(cfg, inner, None));
    InlineItemReads(c, cfg, inner, depth + 1, q + 1);
  }

  /** The element lines of an array of arrays read back as its elements. */
  lemma InlineItemsReads(c: Ctx, cfg: Config, items: seq<Value>, depth: nat, p: nat, next: nat)
    requires Reads(c, cfg) && InlineArrays(items) && ArrayFits(items, c.limits)
    requires Block(c.lines, p, InlineItemLines(cfg, items, depth + 1)) && next == p + |items|
    ensures next <= |c.lines|
    ensures ListItemsAt(c, |items|, depth, p, []) == Ok(Parsed(items, next))
  {
    forall q | p <= q < p + |items| ensures ItemLine(c, items, depth, p, q) {
      ItemLineReads(c, cfg, items, depth, p, q);
    }
    InlineItemLinesAll(cfg, items, depth + 1);
    ItemsLoop(c, items, depth, p, next);
  }

  /** The row line at `q` of a table starting at line `p`: one level below
      the header, and its cells are those of row `q - p` in header order. */
  lemma RowText(c: Ctx, cfg: Config, rows: seq<Value>, header: seq<string>, depth: nat, p: nat, q: nat)
    returns (cells: seq<Value>)
    requires Reads(c, cfg)
    requires DetectTabularHeader(rows) == Some(header) && WellFormed(Array(rows)) && SupportedTable(rows)
    requires Block(c.lines, p, TabularLines(cfg, rows, header, depth + 1))
    requires p <= q < p + |rows|
    ensures q < |c.lines| && c.lines[q] != []
    ensures LineDepth(c.lines[q], c.indent) == depth + 1
    ensures DelimitedValues(LineContent(c.lines[q]), cfg.delimiter.Char()) == Ok(cells)
    ensures |cells| == |header| && rows[q - p] == Object(RowValues(header, cells), header)
  {
    var d, j := cfg.delimiter.Char(), q - p;
    cells := CellsExact(rows, header, j);
    TabularReadBack(cfg, rows, header, depth + 1, j);
    BlockAt(c.lines, p, TabularLines(cfg, rows, header, depth + 1), q);
    JoinedStart(cells, d);
    LineReadBack(cfg, depth + 1, JoinEncodedValues(cells, d));
  }

  /** The row line at `q` of a table starting at line `p` reads back as its row. */
  lemma RowReads(c: Ctx, cfg: Config, rows: seq<Value>, header: seq<string>, depth: nat, p: nat, q: nat)
    requires Reads(c, cfg)
    requires DetectTabularHeader(rows) == Some(header) && WellFormed(Array(rows)) && SupportedTable(rows)
    requires Block(c.lines, p, TabularLines(cfg, rows, header, depth + 1))
    requires p <= q < p + |rows|
    ensures TableRowLine(c, header, cfg.delimiter.Char(), depth, q, rows[q - p])
  {
    var cells := RowText(c, cfg, rows, header, depth, p, q);
  }

  /** Line `q`, within the `|rows|` lines from `p`, holds row `q - p`. */
  predicate RowLine(c: Ctx, rows: seq<Value>, header: seq<string>, d: char, depth: nat, p: nat, q: nat)
    requires c.indent > 0
  {
    p <= q < p + |rows| && TableRowLine(c, header, d, depth, q, rows[q - p])
  }

  /** Lines from `p` on each holding the next row of `rows`. */
  predicate RowLines(c: Ctx, rows: seq<Value>, header: seq<string>, d: char, depth: nat, p: nat)
    requires c.indent > 0
  {
    && p + |rows| <= |c.lines|
    && forall q :: p <= q < p + |rows| ==> RowLine(c, rows, header, d, depth, p, q)
  }

  /** `parseTabularRows` after the first `k` rows of `rows`, from line `p + k`. */
  function RowsFrom(c: Ctx, rows: seq<Value>, header: seq<string>, d: char, depth: nat, p: nat, k: nat)
    : Result<Parsed<seq<Value>>>
  {
    if c.indent > 0 && k <= |rows| && p + k <= |c.lines|
    then TabularRowsAt(c, |rows| - k, header, d, depth, p + k, rows[..k])
    else Err(InvalidFormat)
  }

  /** One pass of `parseTabularRows` over such lines. */
  lemma RowsLoopStep(c: Ctx, rows: seq<Value>, header: seq<string>, d: char, depth: nat, p: nat, k: nat)
    requires c.indent > 0 && RowLines(c, rows, header, d, depth, p) && k < |rows|
    ensures RowsFrom(c, rows, header, d, depth, p, k) == RowsFrom(c, rows, header, d, depth, p, k + 1)
  {
    var q := p + k;
    assert RowLine(c, rows, header, d, depth, p, q);
    assert rows[q - p] == rows[k];
    RowAtStep(c, rows, header, d, depth, p, k, q, rows[k]);
  }

  /** The pass over row `k`, on line `q`, from the state before it to the
      state after it. */
  lemma RowAtStep(c: Ctx, rows: seq<Value>, header: seq<string>, d: char, depth: nat, p: nat, k: nat, q: nat, row: Value)
    requires c.indent > 0 && k < |rows| && q == p + k && p + |rows| <= |c.lines| && row == rows[k]
    requires TableRowLine(c, header, d, depth, q, row)
    ensures RowsFrom(c, rows, header, d, depth, p, k) == RowsFrom(c, rows, header, d, depth, p, k + 1)
  {
    var before := TabularRowsAt(c, |rows| - k, header, d, depth, p + k, rows[..k]);
    var after := TabularRowsAt(c, |rows| - (k + 1), header, d, depth, p + (k + 1), rows[..k + 1]);
    assert before == after by {
      SliceSnoc(rows, k);
      RowsStepTo(c, |rows| - k, |rows| - (k + 1), header, d, depth, p + k, p + (k + 1), rows[..k], rows[..k + 1], row);
    }
    assert RowsFrom(c, rows, header, d, depth, p, k) == before by {
      RowsFromAt(c, rows, header, d, depth, p, k);
    }
    assert RowsFrom(c, rows, header, d, depth, p, k + 1) == after by {
      RowsFromAt(c, rows, header, d, depth, p, k + 1);
    }
  }

  /** `RowsFrom` inside its range is the row loop from line `p + k`. */
  lemma RowsFromAt(c: Ctx, rows: seq<Value>, header: seq<string>, d: char, depth: nat, p: nat, k: nat)
    requires c.indent > 0 && k <= |rows| && p + |rows| <= |c.lines|
    ensures RowsFrom(c, rows, header, d, depth, p, k) == TabularRowsAt(c, |rows| - k, header, d, depth, p + k, rows[..k])
  {
  }

  /** The passes of `parseTabularRows` chained from the first row to the last. */
  lemma RowsChain(c: Ctx, rows: seq<Value>, header: seq<string>, d: char, depth: nat, p: nat, next: nat)
    requires c.indent > 0 && next == p + |rows| && next <= |c.lines|
    requires forall k :: 0 <= k < |rows| ==>
      RowsFrom(c, rows, header, d, depth, p, k) == RowsFrom(c, rows, header, d, depth, p, k + 1)
    ensures TabularRowsAt(c, |rows|, header, d, depth, p, []) == Ok(Parsed(rows, next))
  {
    Chain((k: nat) => RowsFrom(c, rows, header, d, depth, p, k), 0, |rows|);
    assert rows[..0] == [] && rows[..|rows|] == rows;
  }

  /** `parseTabularRows` over such lines reads every row. */
  lemma RowsLoop(c: Ctx, rows: seq<Value>, header: seq<string>, d: char, depth: nat, p: nat, next: nat)
    requires c.indent > 0 && RowLines(c, rows, header, d, depth, p) && next == p + |rows|
    ensures next <= |c.lines|
    ensures TabularRowsAt(c, |rows|, header, d, depth, p, []) == Ok(Parsed(rows, next))
  {
    forall k | 0 <= k < |rows|
      ensures RowsFrom(c, rows, header, d, depth, p, k) == RowsFrom(c, rows, header, d, depth, p, k + 1)
    {
      RowsLoopStep(c, rows, header, d, depth, p, k);
    }
    RowsChain(c, rows, header, d, depth, p, next);
  }

  /** The row lines of a table read back as its rows. */
  lemma RowsReads(c: Ctx, cfg: Config, rows: seq<Value>, header: seq<string>, depth: nat, p: nat, next: nat)
    requires Reads(c, cfg)
    requires DetectTabularHeader(rows) == Some(header) && WellFormed(Array(rows)) && SupportedTable(rows)
    requires Block(c.lines, p, TabularLines(cfg, rows, header, depth + 1)) && next == p + |rows|
    ensures next <= |c.lines|
    ensures TabularRowsAt(c, |rows|, header, cfg.delimiter.Char(), depth, p, []) == Ok(Parsed(rows, next))
  {
    var d := cfg.delimiter.Char();
    assert AllObjects(rows) by {
      forall i | 0 <= i < |rows| ensures rows[i].Object? { assert RowFits(rows[i], header); }
    }
    TabularLinesAll(cfg, rows, header, depth + 1);
    forall q | p <= q < p + |rows| ensures RowLine(c, rows, header, d, depth, p, q) {
      RowReads(c, cfg, rows, header, depth, p, q);
    }
    RowsLoop(c, rows, header, d, depth, p, next);
  }

  // ---------------------------------------------------------------------------
  // Array blocks

  /** An array the encoder writes at line `p` in one of its compact layouts:
      inline, a list of inline arrays, or a table. */
  ghost predicate ArrayBlock(c: Ctx, cfg: Config, key: Option<string>, arr: Value, depth: nat, p: nat)
  {
    && Reads(c, cfg) && arr.Array? && FirstKeysPresent(arr) && WellFormed(arr)
    && SupportedArray(arr.items) && ArrayFits(arr.items, c.limits)
    && Block(c.lines, p, ArrayLines(cfg, key, arr, depth))
  }

  /** What the decoder reads from a header line: the header's key, the array,
      and the line it goes on at. */
  datatype HeaderRead = HeaderRead(key: Option<string>, arr: Value, next: nat)

  /** The header on `content` and the array content after it, as
      `parseArrayContent` reads them from line `pos` on. */
  function ArrayLineRead(c: Ctx, content: string, depth: nat, pos: nat): Result<HeaderRead>
    requires c.indent > 0 && pos <= |c.lines|
  {
    var h := HeaderOf(content);
    if h.Err? then Err(h.error)
    else
      var a := ArrayContentAt(c, h.value.header, RestOf(content, h.value), depth, pos);
      if a.Err? then Err(a.error) else Ok(HeaderRead(h.value.header.key, a.value.value, a.value.next))
  }

  /** The decoder finds a header for `key` on `content`, and reads the array
      content after it as `arr`, going on at line `next`. */
  predicate ArrayRead(c: Ctx, content: string, depth: nat, pos: nat, key: Option<string>, arr: Value, next: nat)
    requires c.indent > 0 && pos <= |c.lines|
  {
    ArrayLineRead(c, content, depth, pos) == Ok(HeaderRead(key, arr, next))
  }

  /** The header line of an array at line `p`, at its depth, starts with `[`
      when there is no key, and the array is read from it to the line after
      its last line. */
  ghost predicate ArrayBlockRead(c: Ctx, key: Option<string>, arr: Value, depth: nat, p: nat, next: nat)
    requires c.indent > 0
  {
    && p < |c.lines| && c.lines[p] != [] && LineDepth(c.lines[p], c.indent) == depth
    && (key.None? ==> LineContent(c.lines[p]) != [] && LineContent(c.lines[p])[0] == '[')
    && next <= |c.lines|
    && ArrayRead(c, LineContent(c.lines[p]), depth, p + 1, key, arr, next)
  }

  /** A header line the encoder writes, with whatever follows the header on
      it, reads back at its depth. */
  lemma HeaderLineAt(c: Ctx, cfg: Config, depth: nat, p: nat, key: Option<string>, n: nat,
                     fields: Option<seq<string>>, rest: string)
    requires Reads(c, cfg) && p < |c.lines|
    requires c.lines[p] == Line(cfg, depth, HeaderFor(cfg, n, key, fields) + rest)
    ensures var content := HeaderFor(cfg, n, key, fields) + rest;
      && c.lines[p] != [] && LineDepth(c.lines[p], c.indent) == depth
      && LineContent(c.lines[p]) == content
      && content != [] && (key.None? ==> content[0] == '[')
  {
    var d, m := cfg.delimiter.Char(), cfg.lengthMarker == Hash;
    var t := HeaderTail(n, fields, d, m);
    HeaderSplit(n, key, fields, d, m);
    Assoc(KeyText(key), t, rest);
    HeaderLineReadBack(cfg, depth, key, t + rest);
  }

  /** A header with no field names and nothing after it, over list items
      that read as `items`: the array of them. */
  lemma ListContent(c: Ctx, h: ArrayHeader, depth: nat, pos: nat, items: seq<Value>, next: nat)
    requires c.indent > 0 && pos <= |c.lines| && items != [] && h.fields.None?
    requires h.count == |items| && |items| <= c.limits.maxArrayLength
    requires ListItemsAt(c, |items|, depth, pos, []) == Ok(Parsed(items, next))
    ensures ArrayContentAt(c, h, [], depth, pos) == Ok(Parsed(Array(items), next))
  {
    assert TrimLeadingSpace([]) == [];
  }

  /** A header with field names and nothing after it, over rows that read
      as `items`: the array of them. */
  lemma RowContent(c: Ctx, h: ArrayHeader, fields: seq<string>, depth: nat, pos: nat, items: seq<Value>, next: nat)
    requires c.indent > 0 && pos <= |c.lines| && items != [] && h.fields == Some(fields)
    requires h.count == |items| && |items| <= c.limits.maxArrayLength
    requires TabularRowsAt(c, |items|, fields, h.delimiter, depth, pos, []) == Ok(Parsed(items, next))
    ensures ArrayContentAt(c, h, [], depth, pos) == Ok(Parsed(Array(items), next))
  {
    assert TrimLeadingSpace([]) == [];
  }

  /** A header for `key` alone on `content`, whose content below it reads
      as `arr`: the array. */
  lemma HeaderContentReads(c: Ctx, content: string, key: Option<string>, arr: Value, depth: nat, pos: nat, next: nat)
    requires c.indent > 0 && pos <= |c.lines|
    requires HeaderOf(content).Ok? && RestOf(content, HeaderOf(content).value) == []
    requires HeaderOf(content).value.header.key == key
    requires ArrayContentAt(c, HeaderOf(content).value.header, [], depth, pos) == Ok(Parsed(arr, next))
    ensures ArrayRead(c, content, depth, pos, key, arr, next)
  {
  }

  /** A header for `key` with no field names alone on `content`, then the
      items of `arr` read below it as list items: the array. */
  lemma ListBodyReads(c: Ctx, content: string, key: Option<string>, arr: Value, depth: nat, pos: nat, next: nat)
    requires c.indent > 0 && pos <= |c.lines| && arr.Array? && arr.items != []
    requires HeaderOf(content).Ok? && RestOf(content, HeaderOf(content).value) == []
    requires HeaderOf(content).value.header.key == key && HeaderOf(content).value.header.fields.None?
    requires HeaderOf(content).value.header.count == |arr.items| && |arr.items| <= c.limits.maxArrayLength
    requires ListItemsAt(c, |arr.items|, depth, pos, []) == Ok(Parsed(arr.items, next))
    ensures ArrayRead(c, content, depth, pos, key, arr, next)
  {
    ListContent(c, HeaderOf(content).value.header, depth, pos, arr.items, next);
    HeaderContentReads(c, content, key, arr, depth, pos, next);
  }

  /** A header for `key` with field names alone on `content`, then the rows
      of `arr` read below it as table rows: the array. */
  lemma RowBodyReads(c: Ctx, content: string, key: Option<string>, arr: Value, fields: seq<string>, d: char,
                     depth: nat, pos: nat, next: nat)
    requires c.indent > 0 && pos <= |c.lines| && arr.Array? && arr.items != []
    requires HeaderOf(content).Ok? && RestOf(content, HeaderOf(content).value) == []
    requires HeaderOf(content).value.header.key == key && HeaderOf(content).value.header.fields == Some(fields)
    requires HeaderOf(content).value.header.delimiter == d
    requires HeaderOf(content).value.header.count == |arr.items| && |arr.items| <= c.limits.maxArrayLength
    requires TabularRowsAt(c, |arr.items|, fields, d, depth, pos, []) == Ok(Parsed(arr.items, next))
    ensures ArrayRead(c, content, depth, pos, key, arr, next)
  {
    RowContent(c, HeaderOf(content).value.header, fields, depth, pos, arr.items, next);
    HeaderContentReads(c, content, key, arr, depth, pos, next);
  }

  /** An empty or all-primitive array is one line, its inline form. */
  lemma InlineBlockText(c: Ctx, cfg: Config, key: Option<string>, arr: Value, depth: nat, p: nat)
    requires ArrayBlock(c, cfg, key, arr, depth, p) && (arr.items == [] || AllPrimitive(arr.items))
    ensures AllExact(arr.items) && |arr.items| <= INT64_MAX && |arr.items| <= c.limits.maxArrayLength
    ensures |ArrayLines(cfg, key, arr, depth)| == 1 && p < |c.lines|
    ensures c.lines[p] != [] && LineDepth(c.lines[p], c.indent) == depth
    ensures var content := FormatInlineArray(cfg, arr.items, key);
      && LineContent(c.lines[p]) == content
      && (key.None? ==> content != [] && content[0] == '[')
  {
    var items := arr.items;
    var d := cfg.delimiter.Char();
    var content := FormatInlineArray(cfg, items, key);
    var h := HeaderFor(cfg, |items|, key, None);
    var rest := if items == [] then "" else " " + JoinEncodedValues(items, d);
    if items != [] {
      ArrayLayout(items);
      Assoc(h, " ", JoinEncodedValues(items, d));
    }
    assert content == h + rest;
    assert ArrayLines(cfg, key, arr, depth) == [Line(cfg, depth, content)];
    BlockAt(c.lines, p, [Line(cfg, depth, content)], p);
    HeaderLineAt(c, cfg, depth, p, key, |items|, None, rest);
  }

  /** An empty or all-primitive array reads back from its one line. */
  lemma InlineBlockReads(c: Ctx, cfg: Config, key: Option<string>, arr: Value, depth: nat, p: nat, next: nat)
    requires ArrayBlock(c, cfg, key, arr, depth, p) && (arr.items == [] || AllPrimitive(arr.items))
    requires next == p + |ArrayLines(cfg, key, arr, depth)|
    ensures ArrayBlockRead(c, key, arr, depth, p, next)
  {
    InlineBlockText(c, cfg, key, arr, depth, p);
    InlineLineReads(c, cfg, key, arr.items, depth, p + 1);
  }

  /** An array of inline arrays is its header alone, then one `- ` line per
      element. */
  lemma NestedBlockText(c: Ctx, cfg: Config, key: Option<string>, arr: Value, depth: nat, p: nat)
    requires ArrayBlock(c, cfg, key, arr, depth, p) && arr.items != [] && !AllPrimitive(arr.items)
    requires AllArrays(arr.items) && AllPrimitiveArrays(arr.items)
    ensures InlineArrays(arr.items) && |arr.items| <= INT64_MAX && |arr.items| <= c.limits.maxArrayLength
    ensures |ArrayLines(cfg, key, arr, depth)| == 1 + |arr.items| && p < |c.lines|
    ensures c.lines[p] != [] && LineDepth(c.lines[p], c.indent) == depth
    ensures var content := HeaderFor(cfg, |arr.items|, key, None);
      && LineContent(c.lines[p]) == content
      && (key.None? ==> content != [] && content[0] == '[')
    ensures Block(c.lines, p + 1, InlineItemLines(cfg, arr.items, depth + 1))
  {
    var items := arr.items;
    var h := HeaderFor(cfg, |items|, key, None);
    NestedLines(cfg, key, arr, depth);
    BlockAfterHead(c.lines, p, Line(cfg, depth, h), InlineItemLines(cfg, items, depth + 1));
    BlockAt(c.lines, p, [Line(cfg, depth, h)], p);
    assert h + "" == h;
    HeaderLineAt(c, cfg, depth, p, key, |items|, None, "");
  }

  /** The lines of an array of inline arrays: its header, then its items. */
  lemma NestedLines(cfg: Config, key: Option<string>, arr: Value, depth: nat)
    requires arr.Array? && FirstKeysPresent(arr) && SupportedArray(arr.items)
    requires arr.items != [] && !AllPrimitive(arr.items) && AllArrays(arr.items) && AllPrimitiveArrays(arr.items)
    ensures InlineArrays(arr.items) && |InlineItemLines(cfg, arr.items, depth + 1)| == |arr.items|
    ensures ArrayLines(cfg, key, arr, depth)
      == [Line(cfg, depth, HeaderFor(cfg, |arr.items|, key, None))] + InlineItemLines(cfg, arr.items, depth + 1)
  {
    ArrayLayout(arr.items);
    InlineItemLinesAll(cfg, arr.items, depth + 1);
  }

  /** Below a header for them alone on its line, the `- ` lines of an array
      of inline arrays read back as that array. */
  lemma NestedBodyReads(c: Ctx, cfg: Config, key: Option<string>, arr: Value, content: string, depth: nat, p: nat, next: nat)
    requires Reads(c, cfg) && arr.Array? && InlineArrays(arr.items) && ArrayFits(arr.items, c.limits) && arr.items != []
    requires Block(c.lines, p, InlineItemLines(cfg, arr.items, depth + 1)) && next == p + |arr.items|
    requires HeaderOf(content).Ok? && RestOf(content, HeaderOf(content).value) == []
    requires HeaderOf(content).value.header.key == key
    requires HeaderOf(content).value.header.count == |arr.items| && HeaderOf(content).value.header.fields.None?
    ensures next <= |c.lines| && ArrayRead(c, content, depth, p, key, arr, next)
  {
    InlineItemsReads(c, cfg, arr.items, depth, p, next);
    ListBodyReads(c, content, key, arr, depth, p, next);
  }

  /** An array of inline arrays reads back from its header and its `- ` lines. */
  lemma NestedBlockReads(c: Ctx, cfg: Config, key: Option<string>, arr: Value, depth: nat, p: nat, next: nat)
    requires ArrayBlock(c, cfg, key, arr, depth, p) && arr.items != [] && !AllPrimitive(arr.items)
    requires AllArrays(arr.items) && AllPrimitiveArrays(arr.items)
    requires next == p + |ArrayLines(cfg, key, arr, depth)|
    ensures ArrayBlockRead(c, key, arr, depth, p, next)
  {
    var items := arr.items;
    NestedBlockText(c, cfg, key, arr, depth, p);
    HeaderAlone(cfg, |items|, key, None);
    NestedBodyReads(c, cfg, key, arr, LineContent(c.lines[p]), depth, p + 1, next);
  }

  /** A table is its header with the field names alone, then one line per row. */
  lemma TableBlockText(c: Ctx, cfg: Config, key: Option<string>, arr: Value, depth: nat, p: nat)
    returns (header: seq<string>)
    requires ArrayBlock(c, cfg, key, arr, depth, p) && arr.items != [] && !AllPrimitive(arr.items)
    requires !(AllArrays(arr.items) && AllPrimitiveArrays(arr.items))
    ensures DetectTabularHeader(arr.items) == Some(header) && SupportedTable(arr.items)
    ensures WellFormed(Array(arr.items)) && FieldNamesFit(Some(header))
    ensures |arr.items| <= INT64_MAX && |arr.items| <= c.limits.maxArrayLength
    ensures |ArrayLines(cfg, key, arr, depth)| == 1 + |arr.items| && p < |c.lines|
    ensures c.lines[p] != [] && LineDepth(c.lines[p], c.indent) == depth
    ensures var content := HeaderFor(cfg, |arr.items|, key, Some(header));
      && LineContent(c.lines[p]) == content
      && (key.None? ==> content != [] && content[0] == '[')
    ensures Block(c.lines, p + 1, TabularLines(cfg, arr.items, header, depth + 1))
  {
    var items := arr.items;
    header := TableLines(cfg, key, arr, depth);
    var h := HeaderFor(cfg, |items|, key, Some(header));
    BlockAfterHead(c.lines, p, Line(cfg, depth, h), TabularLines(cfg, items, header, depth + 1));
    BlockAt(c.lines, p, [Line(cfg, depth, h)], p);
    assert h + "" == h;
    HeaderLineAt(c, cfg, depth, p, key, |items|, Some(header), "");
  }

  /** The lines of a table: its header with the field names, then its rows. */
  lemma TableLines(cfg: Config, key: Option<string>, arr: Value, depth: nat) returns (header: seq<string>)
    requires arr.Array? && FirstKeysPresent(arr) && SupportedArray(arr.items) && WellFormed(arr)
    requires arr.items != [] && !AllPrimitive(arr.items) && !(AllArrays(arr.items) && AllPrimitiveArrays(arr.items))
    ensures DetectTabularHeader(arr.items) == Some(header) && SupportedTable(arr.items)
    ensures WellFormed(Array(arr.items)) && FieldNamesFit(Some(header))
    ensures |TabularLines(cfg, arr.items, header, depth + 1)| == |arr.items|
    ensures ArrayLines(cfg, key, arr, depth)
      == [Line(cfg, depth, HeaderFor(cfg, |arr.items|, key, Some(header)))] + TabularLines(cfg, arr.items, header, depth + 1)
  {
    ArrayLayout(arr.items);
    header := DetectTabularHeader(arr.items).value;
    TabularLinesAll(cfg, arr.items, header, depth + 1);
    assert arr == Array(arr.items);
  }

  /** Below a header with their field names alone on its line, the row
      lines of a table read back as the table. */
  lemma TableBodyReads(c: Ctx, cfg: Config, key: Option<string>, arr: Value, header: seq<string>, content: string,
                       depth: nat, p: nat, next: nat)
    requires Reads(c, cfg) && arr.Array? && arr.items != [] && |arr.items| <= c.limits.maxArrayLength
    requires DetectTabularHeader(arr.items) == Some(header) && WellFormed(Array(arr.items)) && SupportedTable(arr.items)
    requires Block(c.lines, p, TabularLines(cfg, arr.items, header, depth + 1)) && next == p + |arr.items|
    requires HeaderOf(content).Ok? && RestOf(content, HeaderOf(content).value) == []
    requires HeaderOf(content).value.header
      == ArrayHeader(key, |arr.items|, cfg.delimiter.Char(), Some(header), HeaderOf(content).value.header.hasLengthMarker)
    ensures next <= |c.lines| && ArrayRead(c, content, depth, p, key, arr, next)
  {
    RowsReads(c, cfg, arr.items, header, depth, p, next);
    RowBodyReads(c, content, key, arr, header, cfg.delimiter.Char(), depth, p, next);
  }

  /** A table reads back from its header and its row lines. */
  lemma TableBlockReads(c: Ctx, cfg: Config, key: Option<string>, arr: Value, depth: nat, p: nat, next: nat)
    requires ArrayBlock(c, cfg, key, arr, depth, p) && arr.items != [] && !AllPrimitive(arr.items)
    requires !(AllArrays(arr.items) && AllPrimitiveArrays(arr.items))
    requires next == p + |ArrayLines(cfg, key, arr, depth)|
    ensures ArrayBlockRead(c, key, arr, depth, p, next)
  {
    var items := arr.items;
    var header := TableBlockText(c, cfg, key, arr, depth, p);
    HeaderAlone(cfg, |items|, key, Some(header));
    TableBodyReads(c, cfg, key, arr, header, LineContent(c.lines[p]), depth, p + 1, next);
  }

  /** Every array the round trip covers reads back from its lines; the
      list layout also needs the line after its last to be shallower than
      its elements. */
  lemma ArrayBlockReads(c: Ctx, cfg: Config, key: Option<string>, arr: Value, depth: nat, p: nat, next: nat)
    requires Reads(c, cfg) && arr.Array? && FirstKeysPresent(arr) && WellFormed(arr) && Supported(arr)
    requires Fits(arr, c.limits, depth)
    requires Block(c.lines, p, ArrayLines(cfg, key, arr, depth)) && next == p + |ArrayLines(cfg, key, arr, depth)|
    requires EndsBelow(c, next, depth + 1)
    ensures ArrayBlockRead(c, key, arr, depth, p, next)
    decreases arr, 3
  {
    if SupportedArray(arr.items) {
      CompactBlockReads(c, cfg, key, arr, depth, p, next);
    } else {
      ListBlockReads(c, cfg, key, arr, depth, p, next);
    }
  }

  /** An inline array, an array of inline arrays or a table reads back from
      its lines. */
  lemma CompactBlockReads(c: Ctx, cfg: Config, key: Option<string>, arr: Value, depth: nat, p: nat, next: nat)
    requires ArrayBlock(c, cfg, key, arr, depth, p) && next == p + |ArrayLines(cfg, key, arr, depth)|
    ensures ArrayBlockRead(c, key, arr, depth, p, next)
  {
    var items := arr.items;
    if items == [] || AllPrimitive(items) {
      InlineBlockReads(c, cfg, key, arr, depth, p, next);
    } else if AllArrays(items) && AllPrimitiveArrays(items) {
      NestedBlockReads(c, cfg, key, arr, depth, p, next);
    } else {
      TableBlockReads(c, cfg, key, arr, depth, p, next);
    }
  }

  // ---------------------------------------------------------------------------
  // The list layout

  /** `parseListItemContent` on a `key: value` item: the first field, a
      primitive on the item's line or a nested value below it, and then the
      field loop over the lines one level below the item, starting from an
      object that holds the first field alone. */
  lemma ListItemKeyLine(c: Ctx, content: string, depth: nat, pos: nat, sep: nat, key: string, valuePart: string)
    requires c.indent > 0 && pos <= |c.lines|
    requires KeyLine(content, sep, key, valuePart)
    ensures valuePart != [] ==>
      var v := ParsePrimitiveValue(valuePart);
      ListItemAt(c, content, depth, pos)
        == if v.Err? then Err(v.error) else ListItemFieldsAt(c, depth, pos, Fields(map[key := v.value], [key]))
    ensures valuePart == [] ==>
      var n := NestedValueAt(c, depth + 1, pos);
      ListItemAt(c, content, depth, pos)
        == if n.Err? then Err(n.error)
           else ListItemFieldsAt(c, depth, n.value.next, Fields(map[key := n.value.value], [key]))
  {
    var first := FirstFieldAt(c, content, key, valuePart, depth, pos);
    assert ListItemAt(c, content, depth, pos)
      == if first.Err? then Err(first.error)
         else ListItemFieldsAt(c, depth, first.value.next,
                               Fields(map[first.value.value.key := first.value.value.value], [first.value.value.key]));
  }

  /** On a key line one level below the item, the field loop reads one
      entry, stores it without path expansion, and goes on. */
  lemma FieldStep(c: Ctx, depth: nat, p: nat, f: Fields, key: string, v: Value, next: nat)
    requires c.indent > 0 && EntryRead(c, key, v, depth + 1, p, next)
    requires !IsListItem(LineContent(c.lines[p]))
    ensures ListItemFieldsAt(c, depth, p, f) == ListItemFieldsAt(c, depth, next, InsertPlain(f, key, v))
  {
  }

  /** The first entry of an object, alone. */
  lemma FieldsFirst(obj: Value)
    requires obj.Object? && obj.keyOrder != [] && obj.keyOrder[0] in obj.values
    ensures var k := obj.keyOrder[0]; FieldsBefore(obj, 1) == Fields(map[k := obj.values[k]], [k])
  {
    var k := obj.keyOrder[0];
    assert obj.keyOrder[..1] == [k];
  }

  /** The first line of an entry the encoder writes starts with its key,
      so it is never a `- ` line. */
  lemma KeyLineNotItem(c: Ctx, cfg: Config, key: string, v: Value, depth: nat, p: nat)
    requires Reads(c, cfg) && FirstKeysPresent(v)
    requires Block(c.lines, p, KeyValueLines(cfg, key, v, depth))
    ensures p < |c.lines| && c.lines[p] != [] && !IsListItem(LineContent(c.lines[p]))
  {
    var tail := KeyValueHead(cfg, key, v, depth);
    BlockAt(c.lines, p, KeyValueLines(cfg, key, v, depth), p);
    KeyLineAt(c, cfg, depth, p, key, tail);
    KeyStart(key);
    assert LineContent(c.lines[p])[0] == EncodeKey(key)[0];
  }

  /** The field loop of a list item reads the object's `i`-th entry, one
      level below the item, and goes on from the line after it. */
  lemma FieldThenRest(c: Ctx, cfg: Config, obj: Value, i: nat, depth: nat, p: nat, next: nat) returns (mid: nat)
    requires ObjectBlock(c, cfg, obj, i, depth + 1, p) && i < |obj.keyOrder|
    requires next == p + |ObjectLines(cfg, obj, i, depth + 1)| && EndsBelow(c, next, depth + 1)
    ensures ObjectBlock(c, cfg, obj, i + 1, depth + 1, mid) && next == mid + |ObjectLines(cfg, obj, i + 1, depth + 1)|
    ensures ListItemFieldsAt(c, depth, p, FieldsBefore(obj, i)) == ListItemFieldsAt(c, depth, mid, FieldsBefore(obj, i + 1))
    decreases obj, 2, |obj.keyOrder| - i, 0
  {
    var key := obj.keyOrder[i];
    mid := ObjectStepText(c, cfg, obj, i, depth + 1, p, next);
    var v := obj.values[key];
    KeyValueReads(c, cfg, key, v, depth + 1, p, mid);
    KeyLineNotItem(c, cfg, key, v, depth + 1, p);
    FieldsStep(obj, i);
    FieldStep(c, depth, p, FieldsBefore(obj, i), key, v, mid);
  }

  /** The field loop of a list item reads the entries the encoder writes
      one level below the item, from the object's `i`-th key on, after the
      entries before it, and stops after its last line. */
  lemma ListFieldsReads(c: Ctx, cfg: Config, obj: Value, i: nat, depth: nat, p: nat, next: nat)
    requires ObjectBlock(c, cfg, obj, i, depth + 1, p)
    requires next == p + |ObjectLines(cfg, obj, i, depth + 1)| && EndsBelow(c, next, depth + 1)
    ensures ListItemFieldsAt(c, depth, p, FieldsBefore(obj, i)) == Ok(Parsed(obj, next))
    decreases obj, 2, |obj.keyOrder| - i, 1
  {
    if i == |obj.keyOrder| {
      FieldsAll(obj);
    } else {
      var mid := FieldThenRest(c, cfg, obj, i, depth, p, next);
      ListFieldsReads(c, cfg, obj, i + 1, depth, mid, next);
    }
  }

  /** An object in the list layout, one level below `depth`: its first
      entry on the `- ` line, read as the first field, then its other
      entries one level deeper, read by the field loop. */
  lemma ObjectItemReads(c: Ctx, cfg: Config, obj: Value, depth: nat, p: nat, next: nat)
    requires Reads(c, cfg) && obj.Object? && FirstKeysPresent(obj) && WellFormed(obj) && Supported(obj)
    requires ListElement(obj) && Fits(obj, c.limits, depth + 2)
    requires Block(c.lines, p, ListItemLines(cfg, obj, depth + 1)) && next == p + |ListItemLines(cfg, obj, depth + 1)|
    requires EndsBelow(c, next, depth + 2)
    ensures ListItemLine(c, depth, p, obj, next)
    decreases obj, 3
  {
    var k := obj.keyOrder[0];
    var v := obj.values[k];
    var d := cfg.delimiter.Char();
    var t := EncodePrimitive(v, d).value;
    var f := ItemHead(cfg, obj, depth + 1);
    var head := Line(cfg, depth + 1, "- " + f);
    var rest := ObjectLines(cfg, obj, 1, depth + 2);
    BlockAfterHead(c.lines, p, head, rest);
    BlockAt(c.lines, p, [head], p);
    ListItemText(c, cfg, depth + 1, p, f);
    PrimitiveTail(v, d);
    KeyLineFacts(k, ": " + t);
    ListItemKeyLine(c, f, depth + 1, p + 1, |EncodeKey(k)|, k, t);
    FieldsFirst(obj);
    ListFieldsReads(c, cfg, obj, 1, depth + 1, p + 1, next);
  }

  /** One element of the list layout, one level below `depth`, reads back
      as a list item: a primitive, an inline array or an object. */
  lemma ItemReads(c: Ctx, cfg: Config, item: Value, depth: nat, p: nat, next: nat)
    requires Reads(c, cfg) && FirstKeysPresent(item) && WellFormed(item) && Supported(item) && ListElement(item)
    requires item.Array? ==> |item.items| <= c.limits.maxArrayLength
    requires item.Object? ==> Fits(item, c.limits, depth + 2)
    requires Block(c.lines, p, ListItemLines(cfg, item, depth + 1)) && next == p + |ListItemLines(cfg, item, depth + 1)|
    requires EndsBelow(c, next, depth + 2)
    ensures ListItemLine(c, depth, p, item, next)
    decreases item, 4
  {
    if item.Object? {
      ObjectItemReads(c, cfg, item, depth, p, next);
    } else {
      FlatItemReads(c, cfg, item, depth, p, next);
    }
  }

  /** A primitive or an inline array in the list layout is one `- ` line,
      read back as that element. */
  lemma FlatItemReads(c: Ctx, cfg: Config, item: Value, depth: nat, p: nat, next: nat)
    requires Reads(c, cfg) && !item.Object? && FirstKeysPresent(item) && Supported(item) && ListElement(item)
    requires item.Array? ==> |item.items| <= c.limits.maxArrayLength
    requires Block(c.lines, p, ListItemLines(cfg, item, depth + 1)) && next == p + |ListItemLines(cfg, item, depth + 1)|
    ensures ListItemLine(c, depth, p, item, next)
  {
    var f := ItemHead(cfg, item, depth + 1);
    BlockAt(c.lines, p, [Line(cfg, depth + 1, "- " + f)], p);
    if item.Array? {
      InlineListItem(c, cfg, depth, p, item.items);
    } else {
      ListItemText(c, cfg, depth + 1, p, f);
      RootToken(item, cfg.delimiter.Char());
    }
  }

  /** The first line of the elements from the `i`-th on is a `- ` line at
      their depth. */
  lemma NextItemBelow(c: Ctx, cfg: Config, arr: Value, i: nat, depth: nat, q: nat)
    requires Reads(c, cfg) && arr.Array? && i < |arr.items| && FirstKeysPresent(arr)
    requires Supported(arr.items[i]) && ListElement(arr.items[i])
    requires Block(c.lines, q, ListItemsLines(cfg, arr, i, depth))
    ensures EndsBelow(c, q, depth + 1)
  {
    var item := arr.items[i];
    var f := ItemHead(cfg, item, depth);
    var ls := ListItemsLines(cfg, arr, i, depth);
    assert ls == ListItemLines(cfg, item, depth) + ListItemsLines(cfg, arr, i + 1, depth);
    assert ls[0] == Line(cfg, depth, "- " + f);
    BlockAt(c.lines, q, ls, q);
    ListItemText(c, cfg, depth, q, f);
  }

  /** The elements of the list layout of `arr` from its `i`-th on, in the
      lines from `p`. */
  ghost predicate ListBlock(c: Ctx, cfg: Config, arr: Value, i: nat, depth: nat, p: nat)
  {
    && Reads(c, cfg) && arr.Array? && i <= |arr.items| && FirstKeysPresent(arr)
    && (forall j :: i <= j < |arr.items| ==> ElementOk(c.limits, arr.items[j], depth))
    && Block(c.lines, p, ListItemsLines(cfg, arr, i, depth + 1))
  }

  /** What reading back an element of the list layout, one level below
      `depth`, needs of it. */
  ghost predicate ElementOk(limits: Limits, item: Value, depth: nat)
  {
    && FirstKeysPresent(item) && WellFormed(item) && Supported(item) && ListElement(item)
    && (item.Array? ==> |item.items| <= limits.maxArrayLength)
    && (item.Object? ==> Fits(item, limits, depth + 2))
  }

  /** Each element of the list layout meets what reading it back needs. */
  lemma ElementFacts(limits: Limits, arr: Value, i: nat, depth: nat)
    requires arr.Array? && i < |arr.items| && FirstKeysPresent(arr) && WellFormed(arr)
    requires Supported(arr) && !SupportedArray(arr.items) && Fits(arr, limits, depth)
    ensures ElementOk(limits, arr.items[i], depth)
  {
  }

  /** The `i`-th element's lines, then the elements after it; the next
      element's `- ` line ends the `i`-th element's lines. */
  lemma ItemStepText(c: Ctx, cfg: Config, arr: Value, i: nat, depth: nat, p: nat, next: nat) returns (mid: nat)
    requires ListBlock(c, cfg, arr, i, depth, p) && i < |arr.items|
    requires next == p + |ListItemsLines(cfg, arr, i, depth + 1)| && EndsBelow(c, next, depth + 1)
    ensures var item := arr.items[i];
      && Block(c.lines, p, ListItemLines(cfg, item, depth + 1))
      && mid == p + |ListItemLines(cfg, item, depth + 1)|
    ensures EndsBelow(c, mid, depth + 2)
    ensures ListBlock(c, cfg, arr, i + 1, depth, mid) && next == mid + |ListItemsLines(cfg, arr, i + 1, depth + 1)|
  {
    var item := arr.items[i];
    var a := ListItemLines(cfg, item, depth + 1);
    var b := ListItemsLines(cfg, arr, i + 1, depth + 1);
    mid := p + |a|;
    assert Block(c.lines, p, a) && Block(c.lines, mid, b) && next == mid + |b| by {
      assert ListItemsLines(cfg, arr, i, depth + 1) == a + b;
      BlockSplit(c.lines, p, a, b);
    }
    if i + 1 < |arr.items| {
      assert EndsBelow(c, mid, depth + 2) by {
        NextItemBelow(c, cfg, arr, i + 1, depth + 1, mid);
      }
    }
  }

  /** `parseListItems` reads the `i`-th element of the list layout and goes
      on from the line after its last. */
  lemma ItemThenRest(c: Ctx, cfg: Config, arr: Value, i: nat, depth: nat, p: nat, next: nat) returns (mid: nat)
    requires ListBlock(c, cfg, arr, i, depth, p) && i < |arr.items|
    requires next == p + |ListItemsLines(cfg, arr, i, depth + 1)| && EndsBelow(c, next, depth + 1)
    ensures ListBlock(c, cfg, arr, i + 1, depth, mid) && next == mid + |ListItemsLines(cfg, arr, i + 1, depth + 1)|
    ensures ListItemsAt(c, |arr.items| - i, depth, p, arr.items[..i])
      == ListItemsAt(c, |arr.items| - (i + 1), depth, mid, arr.items[..i + 1])
    decreases arr, 1, |arr.items| - i, 0
  {
    var items := arr.items;
    var item := items[i];
    assert ElementOk(c.limits, item, depth);
    mid := ItemStepText(c, cfg, arr, i, depth, p, next);
    ItemReads(c, cfg, item, depth, p, mid);
    ListItemsStep(c, |items| - i, |items| - (i + 1), depth, p, items[..i], item, mid);
    SliceSnoc(items, i);
  }

  /** `parseListItems` reads the elements of the list layout from the
      `i`-th on, after the first `i`, and stops after the last line. */
  lemma ListItemsReadsFrom(c: Ctx, cfg: Config, arr: Value, i: nat, depth: nat, p: nat, next: nat)
    requires ListBlock(c, cfg, arr, i, depth, p)
    requires next == p + |ListItemsLines(cfg, arr, i, depth + 1)| && EndsBelow(c, next, depth + 1)
    ensures ListItemsAt(c, |arr.items| - i, depth, p, arr.items[..i]) == Ok(Parsed(arr.items, next))
    decreases arr, 1, |arr.items| - i, 1
  {
    if i == |arr.items| {
      SliceAll(arr.items);
    } else {
      var mid := ItemThenRest(c, cfg, arr, i, depth, p, next);
      ListItemsReadsFrom(c, cfg, arr, i + 1, depth, mid, next);
    }
  }

  /** The list layout reads back: its header alone on a line, then its
      elements one level deeper as list items. */
  lemma ListBlockReads(c: Ctx, cfg: Config, key: Option<string>, arr: Value, depth: nat, p: nat, next: nat)
    requires Reads(c, cfg) && arr.Array? && FirstKeysPresent(arr) && WellFormed(arr)
    requires Supported(arr) && !SupportedArray(arr.items) && Fits(arr, c.limits, depth)
    requires Block(c.lines, p, ArrayLines(cfg, key, arr, depth)) && next == p + |ArrayLines(cfg, key, arr, depth)|
    requires EndsBelow(c, next, depth + 1)
    ensures ArrayBlockRead(c, key, arr, depth, p, next)
    decreases arr, 2
  {
    var items := arr.items;
    var h := HeaderFor(cfg, |items|, key, None);
    var body := ListItemsLines(cfg, arr, 0, depth + 1);
    assert Block(c.lines, p, [Line(cfg, depth, h)]) && Block(c.lines, p + 1, body) by {
      assert ArrayLines(cfg, key, arr, depth) == [Line(cfg, depth, h)] + body;
      BlockAfterHead(c.lines, p, Line(cfg, depth, h), body);
    }
    assert c.lines[p] != [] && LineDepth(c.lines[p], c.indent) == depth && LineContent(c.lines[p]) == h by {
      BlockAt(c.lines, p, [Line(cfg, depth, h)], p);
      assert h + "" == h;
      HeaderLineAt(c, cfg, depth, p, key, |items|, None, "");
    }
    HeaderAlone(cfg, |items|, key, None);
    forall j | 0 <= j < |items|
      ensures ElementOk(c.limits, items[j], depth)
    {
      ElementFacts(c.limits, arr, j, depth);
    }
    assert ListItemsAt(c, |items|, depth, p + 1, []) == Ok(Parsed(items, next)) by {
      ListItemsReadsFrom(c, cfg, arr, 0, depth, p + 1, next);
      assert items[..0] == [];
    }
    ListBodyReads(c, h, key, arr, depth, p + 1, next);
  }

  // ---------------------------------------------------------------------------
  // Entries

  /** A line the encoder writes for a key, at `depth`, reads back at that
      depth with its content. */
  lemma KeyLineAt(c: Ctx, cfg: Config, depth: nat, p: nat, key: string, tail: string)
    requires Reads(c, cfg) && p < |c.lines| && c.lines[p] == Line(cfg, depth, EncodeKey(key) + tail)
    ensures c.lines[p] != [] && LineDepth(c.lines[p], c.indent) == depth
    ensures LineContent(c.lines[p]) == EncodeKey(key) + tail
  {
    var content := EncodeKey(key) + tail;
    KeyStart(key);
    assert content[0] == EncodeKey(key)[0];
    LineReadBack(cfg, depth, content);
  }

  /** The line at `p` is at `depth` and reads as the entry `key: v`, with
      the next line to read at `next`. */
  predicate EntryRead(c: Ctx, key: string, v: Value, depth: nat, p: nat, next: nat)
    requires c.indent > 0
  {
    && p < |c.lines| && c.lines[p] != [] && LineDepth(c.lines[p], c.indent) == depth
    && next <= |c.lines|
    && KeyValuePairAt(c, LineContent(c.lines[p]), depth, p + 1) == Ok(Parsed(Entry(key, v), next))
  }

  /** A header for `key` whose array reads as `arr`: the entry `key: arr`. */
  lemma ArrayEntryReads(c: Ctx, content: string, key: string, arr: Value, depth: nat, pos: nat, next: nat)
    requires c.indent > 0 && pos <= |c.lines|
    requires ArrayRead(c, content, depth, pos, Some(key), arr, next)
    ensures KeyValuePairAt(c, content, depth, pos) == Ok(Parsed(Entry(key, arr), next))
  {
  }

  /** `key: value` for a primitive, one line. */
  lemma PrimitiveBlockReads(c: Ctx, cfg: Config, key: string, v: Value, depth: nat, p: nat, next: nat)
    requires Reads(c, cfg) && IsExactPrimitive(v) && (v.Str? ==> '[' !in v.s)
    requires Block(c.lines, p, KeyValueLines(cfg, key, v, depth)) && next == p + 1
    ensures EntryRead(c, key, v, depth, p, next)
  {
    var d := cfg.delimiter.Char();
    var t := EncodePrimitive(v, d).value;
    var tail := ": " + t;
    assert EncodeKey(key) + ": " + t == EncodeKey(key) + tail;
    assert KeyValueLines(cfg, key, v, depth) == [Line(cfg, depth, EncodeKey(key) + tail)];
    BlockAt(c.lines, p, [Line(cfg, depth, EncodeKey(key) + tail)], p);
    KeyLineAt(c, cfg, depth, p, key, tail);
    PrimitiveEntryReads(c, LineContent(c.lines[p]), key, v, d, depth, p + 1);
  }

  /** `key:` for an empty object, one line with nothing below it. */
  lemma EmptyObjectBlockReads(c: Ctx, cfg: Config, key: string, v: Value, depth: nat, p: nat, next: nat)
    requires Reads(c, cfg) && v.Object? && v.keyOrder == [] && WellFormed(v)
    requires Block(c.lines, p, KeyValueLines(cfg, key, v, depth)) && next == p + 1
    requires EndsBelow(c, next, depth + 1)
    ensures EntryRead(c, key, v, depth, p, next)
  {
    NoKeysEmpty(v);
    assert KeyValueLines(cfg, key, v, depth) == [Line(cfg, depth, EncodeKey(key) + ":")];
    BlockAt(c.lines, p, [Line(cfg, depth, EncodeKey(key) + ":")], p);
    KeyLineAt(c, cfg, depth, p, key, ":");
    NestedEntryReads(c, LineContent(c.lines[p]), key, depth, p + 1);
    EmptyNested(c, depth + 1, p + 1);
  }

  /** `key:` for a non-empty object: the key line, then the object's entries
      one level deeper, the first of them on the next line. */
  lemma ObjectEntryText(c: Ctx, cfg: Config, key: string, v: Value, depth: nat, p: nat, next: nat)
    requires Reads(c, cfg) && v.Object? && v.keyOrder != [] && FirstKeysPresent(v)
    requires depth + 1 <= c.limits.maxDepth
    requires Block(c.lines, p, KeyValueLines(cfg, key, v, depth)) && next == p + |KeyValueLines(cfg, key, v, depth)|
    ensures p < |c.lines| && c.lines[p] != [] && LineDepth(c.lines[p], c.indent) == depth
    ensures LineContent(c.lines[p]) == EncodeKey(key) + ":"
    ensures Block(c.lines, p + 1, ObjectLines(cfg, v, 0, depth + 1))
    ensures next == p + 1 + |ObjectLines(cfg, v, 0, depth + 1)|
    ensures NestedValueAt(c, depth + 1, p + 1) == ObjectLoop(c, depth + 1, p + 1, Fields(map[], []))
  {
    var head := Line(cfg, depth, EncodeKey(key) + ":");
    var body := ObjectLines(cfg, v, 0, depth + 1);
    assert KeyValueLines(cfg, key, v, depth) == [head] + body;
    BlockAfterHead(c.lines, p, head, body);
    BlockAt(c.lines, p, [head], p);
    KeyLineAt(c, cfg, depth, p, key, ":");
    var tail := ObjectHead(cfg, v, depth + 1);
    BlockAt(c.lines, p + 1, body, p + 1);
    KeyLineAt(c, cfg, depth + 1, p + 1, v.keyOrder[0], tail);
    ObjectNested(c, depth + 1, p + 1, v.keyOrder[0], tail);
  }

  /** No entries read yet. */
  lemma FieldsNone(obj: Value)
    requires obj.Object?
    ensures FieldsBefore(obj, 0) == Fields(map[], [])
  {
    assert obj.keyOrder[..0] == [];
  }

  /** The entries of a non-empty object begin with a key line at their depth. */
  lemma NextKeyBelow(c: Ctx, cfg: Config, obj: Value, j: nat, depth: nat, q: nat)
    requires Reads(c, cfg) && obj.Object? && j < |obj.keyOrder| && FirstKeysPresent(obj) && WellFormed(obj)
    requires Block(c.lines, q, ObjectLines(cfg, obj, j, depth))
    ensures EndsBelow(c, q, depth + 1)
  {
    var key := obj.keyOrder[j];
    assert key in obj.values;
    var tail := KeyValueHead(cfg, key, obj.values[key], depth);
    var ls := ObjectLines(cfg, obj, j, depth);
    assert ls == KeyValueLines(cfg, key, obj.values[key], depth) + ObjectLines(cfg, obj, j + 1, depth);
    assert ls[0] == Line(cfg, depth, EncodeKey(key) + tail);
    BlockAt(c.lines, q, ls, q);
    KeyLineAt(c, cfg, depth, q, key, tail);
  }

  /** The entries of `obj` from its `i`-th key on, in the lines from `p`. */
  ghost predicate ObjectBlock(c: Ctx, cfg: Config, obj: Value, i: nat, depth: nat, p: nat)
  {
    && Reads(c, cfg) && obj.Object? && i <= |obj.keyOrder|
    && FirstKeysPresent(obj) && WellFormed(obj) && Supported(obj) && Fits(obj, c.limits, depth)
    && Block(c.lines, p, ObjectLines(cfg, obj, i, depth))
  }

  /** The `i`-th entry's lines, then the entries after it. */
  lemma ObjectStepText(c: Ctx, cfg: Config, obj: Value, i: nat, depth: nat, p: nat, next: nat) returns (mid: nat)
    requires ObjectBlock(c, cfg, obj, i, depth, p) && i < |obj.keyOrder|
    requires next == p + |ObjectLines(cfg, obj, i, depth)| && EndsBelow(c, next, depth)
    ensures obj.keyOrder[i] in obj.values
    ensures var v := obj.values[obj.keyOrder[i]];
      && FirstKeysPresent(v) && WellFormed(v) && Supported(v) && Fits(v, c.limits, depth + 1)
      && Block(c.lines, p, KeyValueLines(cfg, obj.keyOrder[i], v, depth))
      && mid == p + |KeyValueLines(cfg, obj.keyOrder[i], v, depth)|
    ensures EndsBelow(c, mid, depth + 1)
    ensures ObjectBlock(c, cfg, obj, i + 1, depth, mid) && next == mid + |ObjectLines(cfg, obj, i + 1, depth)|
    ensures i + 1 <= c.limits.maxObjectKeys
  {
    var key := obj.keyOrder[i];
    assert key in obj.keyOrder;
    var v := obj.values[key];
    var kv := KeyValueLines(cfg, key, v, depth);
    var rest := ObjectLines(cfg, obj, i + 1, depth);
    assert ObjectLines(cfg, obj, i, depth) == kv + rest;
    BlockSplit(c.lines, p, kv, rest);
    mid := p + |kv|;
    if i + 1 < |obj.keyOrder| {
      NextKeyBelow(c, cfg, obj, i + 1, depth, mid);
    }
  }

  /** The object loop reads the entries of `obj` from its `i`-th key on,
      after the entries before it, and stops after its last line. */
  lemma ObjectLinesReads(c: Ctx, cfg: Config, obj: Value, i: nat, depth: nat, p: nat, next: nat)
    requires ObjectBlock(c, cfg, obj, i, depth, p)
    requires next == p + |ObjectLines(cfg, obj, i, depth)| && EndsBelow(c, next, depth)
    ensures ObjectLoop(c, depth, p, FieldsBefore(obj, i)) == Ok(Parsed(obj, next))
    decreases obj, 1, |obj.keyOrder| - i
  {
    if i == |obj.keyOrder| {
      LoopEnd(c, depth, p, FieldsBefore(obj, i));
      FieldsAll(obj);
    } else {
      var key := obj.keyOrder[i];
      var mid := ObjectStepText(c, cfg, obj, i, depth, p, next);
      var v := obj.values[key];
      KeyValueReads(c, cfg, key, v, depth, p, mid);
      FieldsStep(obj, i);
      LoopStep(c, depth, p, FieldsBefore(obj, i), key, v, mid);
      ObjectLinesReads(c, cfg, obj, i + 1, depth, mid, next);
    }
  }

  /** One key's entry reads back as that key and its value, from its first
      line to the line after its last. */
  lemma KeyValueReads(c: Ctx, cfg: Config, key: string, v: Value, depth: nat, p: nat, next: nat)
    requires Reads(c, cfg) && FirstKeysPresent(v) && WellFormed(v) && Supported(v) && Fits(v, c.limits, depth + 1)
    requires Block(c.lines, p, KeyValueLines(cfg, key, v, depth)) && next == p + |KeyValueLines(cfg, key, v, depth)|
    requires EndsBelow(c, next, depth + 1)
    ensures EntryRead(c, key, v, depth, p, next)
    decreases v, 4
  {
    if v.Array? {
      assert KeyValueLines(cfg, key, v, depth) == ArrayLines(cfg, Some(key), v, depth);
      FitsShallower(v, c.limits, depth);
      ArrayBlockReads(c, cfg, Some(key), v, depth, p, next);
      ArrayEntryReads(c, LineContent(c.lines[p]), key, v, depth, p + 1, next);
    } else if v.Object? && v.keyOrder == [] {
      EmptyObjectBlockReads(c, cfg, key, v, depth, p, next);
    } else if v.Object? {
      ObjectEntryText(c, cfg, key, v, depth, p, next);
      FieldsNone(v);
      ObjectLinesReads(c, cfg, v, 0, depth + 1, p + 1, next);
      NestedEntryReads(c, LineContent(c.lines[p]), key, depth, p + 1);
    } else {
      PrimitiveBlockReads(c, cfg, key, v, depth, p, next);
    }
  }

  // ---------------------------------------------------------------------------
  // The document

  /** A root object with entries: the first line has a key and a separator,
      so the decoder reads an object from the top. */
  lemma RootObjectReads(c: Ctx, cfg: Config, v: Value)
    requires Reads(c, cfg) && v.Object? && v.keyOrder != []
    requires FirstKeysPresent(v) && WellFormed(v) && Supported(v) && Fits(v, c.limits, 0)
    requires c.lines == ObjectLines(cfg, v, 0, 0)
    ensures Parse(c) == Ok(v)
  {
    RootObjectText(c, cfg, v);
    RootShape(c, 0);
    ObjectAtFacts(c, 0, 0);
    FieldsNone(v);
    SliceAll(c.lines);
    ObjectLinesReads(c, cfg, v, 0, 0, 0, |c.lines|);
  }

  /** The first line of a root object's entries: a key, not `[`, with a
      separator. */
  lemma RootObjectText(c: Ctx, cfg: Config, v: Value)
    requires Reads(c, cfg) && v.Object? && v.keyOrder != [] && FirstKeysPresent(v)
    requires c.lines == ObjectLines(cfg, v, 0, 0)
    ensures 0 < |c.lines| && c.lines[0] != []
    ensures var content := LineContent(c.lines[0]);
      content != [] && content[0] != '[' && KeyValueSeparator(content).Some?
  {
    var k := v.keyOrder[0];
    var tail := ObjectHead(cfg, v, 0);
    SliceAll(c.lines);
    BlockAt(c.lines, 0, c.lines, 0);
    KeyLineAt(c, cfg, 0, 0, k, tail);
    KeyStart(k);
    assert LineContent(c.lines[0])[0] == EncodeKey(k)[0];
  }

  /** A root array: its header starts with `[`, so the decoder reads an
      array from the first line. */
  lemma RootArrayReads(c: Ctx, cfg: Config, v: Value)
    requires Reads(c, cfg) && v.Array?
    requires FirstKeysPresent(v) && WellFormed(v) && Supported(v) && Fits(v, c.limits, 0)
    requires c.lines == ArrayLines(cfg, None, v, 0)
    ensures Parse(c) == Ok(v)
  {
    SliceAll(c.lines);
    ArrayBlockReads(c, cfg, None, v, 0, 0, |c.lines|);
    RootShape(c, 0);
  }

  /** A root primitive: one line, without `[` or a separator, read as that
      primitive. */
  lemma RootPrimitiveReads(c: Ctx, cfg: Config, v: Value)
    requires Reads(c, cfg) && IsExactPrimitive(v) && (v.Str? ==> '[' !in v.s)
    requires c.lines == [Line(cfg, 0, EncodePrimitive(v, cfg.delimiter.Char()).value)]
    ensures Parse(c) == Ok(v)
  {
    RootPrimitiveText(cfg, v);
    RootShape(c, 0);
  }

  /** The one line of a root primitive: its token at depth 0, which holds
      no `[` and no separator, and reads back as the primitive. */
  lemma RootPrimitiveText(cfg: Config, v: Value)
    requires cfg.indent > 0 && IsExactPrimitive(v) && (v.Str? ==> '[' !in v.s)
    ensures var t := EncodePrimitive(v, cfg.delimiter.Char()).value;
      && Line(cfg, 0, t) != [] && LineContent(Line(cfg, 0, t)) == t
      && t != [] && t[0] != '[' && KeyValueSeparator(t).None?
      && ParsePrimitiveValue(t) == Ok(v)
  {
    var t := EncodePrimitive(v, cfg.delimiter.Char()).value;
    RootToken(v, cfg.delimiter.Char());
    LineReadBack(cfg, 0, t);
  }

  /** The token of a covered primitive: no leading space, no `[`, no
      separator, and it reads back as the primitive. */
  lemma RootToken(v: Value, d: char)
    requires IsExactPrimitive(v) && (v.Str? ==> '[' !in v.s)
    ensures var t := EncodePrimitive(v, d).value;
      && t != [] && t[0] != ' ' && t[0] != '[' && KeyValueSeparator(t).None?
      && ParsePrimitiveValue(t) == Ok(v)
  {
    var t := EncodePrimitive(v, d).value;
    EncodePrimitiveReadsBack(v, d);
    TokenStart(t);
    TokenNoBracket(v, d);
    assert t[0] == (": " + t)[2];
    TokenHasNoSeparator(v, d);
  }

  /** Text that trimming leaves as it is does not start with a space. */
  lemma TokenStart(t: string)
    requires t != [] && Trim(t) == t
    ensures t[0] != ' '
  {
    TrimShape(t);
  }

  /** The encoder writes nothing for an empty root object, which the
      decoder reads as an empty object. */
  lemma EmptyRootReads(cfg: Config, v: Value, limits: Limits, text: string)
    requires cfg.indent > 0 && v.Object? && v.keyOrder == [] && WellFormed(v) && text == []
    requires Utf8Length(text) <= limits.maxInputSize
    ensures Decode(text, cfg.indent, Disabled, limits) == Ok(v)
  {
    NoKeysEmpty(v);
    EmptyTextLines(text);
    BlankDecodes(text, cfg.indent, limits);
  }

  /** Text whose only line is empty decodes to the empty object. */
  lemma BlankDecodes(text: string, indent: nat, limits: Limits)
    requires indent > 0 && Descent.Lines(text) == [[]]
    requires Utf8Length(text) <= limits.maxInputSize
    ensures Decode(text, indent, Disabled, limits) == Ok(EmptyObject)
  {
    EmptyDocument(Ctx([[]], indent, Disabled, limits));
  }

  /** A well-formed object without keys is the empty object. */
  lemma NoKeysEmpty(v: Value)
    requires v.Object? && v.keyOrder == [] && WellFormed(v)
    ensures v == EmptyObject
  {
    assert forall k :: k in v.values <==> k in v.keyOrder;
    assert v.values.Keys == {};
  }

  /** Empty text is one empty line. */
  lemma EmptyTextLines(text: string)
    requires text == []
    ensures Descent.Lines(text) == [[]]
    ensures Utf8Length(text) == 0
  {
    assert ReplaceCRLF(text) == [];
  }

  /** The round trip: for a covered value that fits the decoder's limits,
      decoding the encoder's text without path expansion gives the value
      back. */
  lemma DecodeEncode(cfg: Config, v: Value, limits: Limits)
    requires cfg.indent > 0 && FirstKeysPresent(v) && WellFormed(v) && Supported(v) && Fits(v, limits, 0)
    requires Utf8Length(Encode(cfg, v)) <= limits.maxInputSize
    ensures Decode(Encode(cfg, v), cfg.indent, Disabled, limits) == Ok(v)
  {
    var ls := ValueLines(cfg, v, 0);
    if v.Object? && v.keyOrder == [] {
      assert ObjectLines(cfg, v, 0, 0) == [];
      EmptyRootReads(cfg, v, limits, Encode(cfg, v));
    } else {
      if v.Object? {
        var _ := ObjectHead(cfg, v, 0);
      }
      ValueLinesClean(cfg, v);
      LinesOfJoin(ls);
      var c := Ctx(ls, cfg.indent, Disabled, limits);
      if v.Array? {
        RootArrayReads(c, cfg, v);
      } else if v.Object? {
        RootObjectReads(c, cfg, v);
      } else {
        RootPrimitiveReads(c, cfg, v);
      }
    }
  }
}

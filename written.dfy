/** The shape of the encoder's output for the values whose round trip is
    proved: which values those are, that every line written is one
    non-empty line of text, that the text splits back into exactly those
    lines, and what the first line of each entry and of each array holds. */
module Written {
  import opened ToonValue
  import opened Text
  import opened Numbers
  import opened Scan
  import opened Quoting
  import opened Emit
  import opened EncodeFacts
  import opened LineShapes

  // ---------------------------------------------------------------------------
  // The values covered

  /** Non-empty arrays of arrays, each inner array holding exact primitives
      only: the encoder writes them as `- ` items in inline form. */
  predicate InlineArrays(items: seq<Value>)
  {
    forall i :: 0 <= i < |items| ==> items[i].Array? && AllExact(items[i].items) && |items[i].items| <= INT64_MAX
  }

  /** A table: a tabular header whose names hold no `}`, every row keyed in
      header order, and no double in any cell. */
  ghost predicate SupportedTable(rows: seq<Value>)
  {
    && DetectTabularHeader(rows).Some?
    && FieldNamesFit(DetectTabularHeader(rows))
    && forall i :: 0 <= i < |rows| ==>
         && rows[i].Object?
         && rows[i].keyOrder == DetectTabularHeader(rows).value
         && forall k :: k in rows[i].values ==> !rows[i].values[k].Double?
  }

  /** Arrays whose layout is read back: inline arrays of exact primitives
      (the empty array among them), arrays of such arrays, and tables; their
      length fits the header's 64-bit count. */
  ghost predicate SupportedArray(items: seq<Value>)
  {
    && |items| <= INT64_MAX
    && (AllExact(items) || (items != [] && InlineArrays(items)) || SupportedTable(items))
  }

  /** An element of the list layout that reads back: a primitive on its
      `- ` line, an array of exact primitives inline after `- `, or a
      non-empty object whose first value is an exact primitive, written
      after `- ` with the object's other entries one level deeper. */
  predicate ListElement(item: Value)
  {
    match item
    case Array(inner) => AllExact(inner) && |inner| <= INT64_MAX
    case Object(values, keyOrder) => keyOrder != [] && keyOrder[0] in values && IsExactPrimitive(values[keyOrder[0]])
    case _ => true
  }

  /** Arrays the encoder writes as a list of `- ` items
      (`encodeMixedArrayAsListItems`): not all primitives, not all arrays of
      primitives, not a table; every element one the list layout reads back. */
  predicate ListLayout(items: seq<Value>)
  {
    && items != [] && |items| <= INT64_MAX
    && !AllPrimitive(items) && !(AllArrays(items) && AllPrimitiveArrays(items))
    && !(AllObjects(items) && DetectTabularHeader(items).Some?)
    && forall i :: 0 <= i < |items| ==> ListElement(items[i])
  }

  /** The values whose round trip is proved: objects of such values, the
      arrays above, lists of such values, and primitives other than doubles;
      a string under a key holds no `[`, since the decoder looks for an
      array header on every key line before it looks for the key's colon. */
  ghost predicate Supported(v: Value)
  {
    match v
    case Object(values, _) => forall k :: k in values ==> Supported(values[k])
    case Array(items) =>
      || SupportedArray(items)
      || (ListLayout(items) && forall i :: 0 <= i < |items| ==> Supported(items[i]))
    case _ => IsExactPrimitive(v) && (v.Str? ==> '[' !in v.s)
  }

  /** An array within the length limit, and each array inside it as well. */
  predicate ArrayFits(items: seq<Value>, limits: Limits)
  {
    && |items| <= limits.maxArrayLength
    && forall i :: 0 <= i < |items| && items[i].Array? ==> |items[i].items| <= limits.maxArrayLength
  }

  /** A value read at `depth` stays within the decoder's limits: a non-empty
      object sits no deeper than allowed and has no more keys than allowed,
      and no array is longer than allowed. An object in a list is counted
      two levels below its array, where its later entries are read. */
  ghost predicate Fits(v: Value, limits: Limits, depth: nat)
  {
    match v
    case Object(values, keyOrder) =>
      && (keyOrder != [] ==> depth <= limits.maxDepth && |keyOrder| <= limits.maxObjectKeys)
      && forall k :: k in values ==> Fits(values[k], limits, depth + 1)
    case Array(items) =>
      && ArrayFits(items, limits)
      && forall i :: 0 <= i < |items| && items[i].Object? ==> Fits(items[i], limits, depth + 2)
    case _ => true
  }

  /** What fits deeper fits higher up. */
  lemma {:induction false} FitsShallower(v: Value, limits: Limits, depth: nat)
    requires Fits(v, limits, depth + 1)
    ensures Fits(v, limits, depth)
    decreases v
  {
    match v
    case Object(values, _) =>
      forall k | k in values ensures Fits(values[k], limits, depth + 1) {
        FitsShallower(values[k], limits, depth + 1);
      }
    case Array(items) =>
      forall i | 0 <= i < |items| && items[i].Object? ensures Fits(items[i], limits, depth + 2) {
        FitsShallower(items[i], limits, depth + 2);
      }
    case _ =>
  }

  /** Which layout the encoder picks for a covered non-empty array. */
  lemma ArrayLayout(items: seq<Value>)
    requires items != [] && SupportedArray(items)
    ensures AllPrimitive(items) ==> AllExact(items)
    ensures !AllPrimitive(items) && AllArrays(items) && AllPrimitiveArrays(items) ==> InlineArrays(items)
    ensures !AllPrimitive(items) && !(AllArrays(items) && AllPrimitiveArrays(items)) ==>
      AllObjects(items) && SupportedTable(items)
  {
    if AllExact(items) {
    } else if InlineArrays(items) {
      assert !items[0].IsPrimitive();
      forall i | 0 <= i < |items|
        ensures items[i].Array? && AllPrimitive(items[i].items)
      {
        assert AllExact(items[i].items);
      }
    } else {
      assert SupportedTable(items);
      assert !items[0].IsPrimitive() && !items[0].Array?;
    }
  }

  // ---------------------------------------------------------------------------
  // Lines

  /** Lines that are each one non-empty line of text. */
  predicate Clean(ls: seq<string>)
  {
    forall i :: 0 <= i < |ls| ==> ls[i] != [] && OneLine(ls[i])
  }

  lemma CleanAppend(a: seq<string>, b: seq<string>)
    requires Clean(a) && Clean(b)
    ensures Clean(a + b)
  {
    forall i | 0 <= i < |a + b|
      ensures (a + b)[i] != [] && OneLine((a + b)[i])
    {
      if i >= |a| {
        assert (a + b)[i] == b[i - |a|];
      }
    }
  }

  /** A line written from one line of non-empty content. */
  lemma CleanLine(cfg: Config, depth: nat, content: string)
    requires content != [] && OneLine(content)
    ensures Clean([Line(cfg, depth, content)])
  {
    LineOneLine(cfg, depth, content);
  }

  /** The written lines come back from the text they are joined into. */
  lemma LinesOfJoin(ls: seq<string>)
    requires ls != [] && Clean(ls)
    ensures Descent.Lines(Join(ls, "\n")) == ls
  {
    JoinAvoids(ls, "\n", '\r');
    ReplaceCRLFNoCR(Join(ls, "\n"));
    assert "\n" == ['\n'];
    SplitJoin(ls, '\n');
  }

  /** The delimited values of a non-empty row begin with a token, which
      begins with neither a space nor any other whitespace. */
  lemma JoinedStart(values: seq<Value>, d: char)
    requires values != [] && AllExact(values)
    ensures var j := JoinEncodedValues(values, d); j != [] && j[0] != ' '
  {
    assert AllPrimitive(values) by {
      forall i | 0 <= i < |values| ensures values[i].IsPrimitive() { assert IsExactPrimitive(values[i]); }
    }
    EncodedValuesAt(values, d);
    var toks := EncodedValues(values, d);
    var t := toks[0];
    EncodePrimitiveReadsBack(values[0], d);
    TrimShape(t);
    assert !IsWhitespace(t[0]);
    if |toks| > 1 {
      assert Join(toks, [d]) == t + [d] + Join(toks[1..], [d]);
    }
  }

  /** `formatHeader` is the key as written, then `[` and the rest. */
  function HeaderTail(length: nat, fields: Option<seq<string>>, d: char, marker: bool): (r: string)
    ensures r != [] && r[0] == '['
  {
    "[" + (if marker then "#" else "") + NatToDecimal(length) + (if d != ',' then [d] else "") + "]"
    + (if fields.Some? then "{" + Join(EncodedKeys(fields.value), [d]) + "}" else "")
    + ":"
  }

  lemma HeaderSplit(length: nat, key: Option<string>, fields: Option<seq<string>>, d: char, marker: bool)
    ensures FormatHeader(length, key, fields, d, marker) == KeyText(key) + HeaderTail(length, fields, d, marker)
  {
    Regroup(KeyText(key), if marker then "#" else "", NatToDecimal(length), if d != ',' then [d] else "",
            if fields.Some? then "{" + Join(EncodedKeys(fields.value), [d]) + "}" else "");
  }

  lemma Regroup(a: string, m: string, n: string, dl: string, f: string)
    ensures a + "[" + m + n + dl + "]" + f + ":" == a + ("[" + m + n + dl + "]" + f + ":")
  {
  }

  /** `write` repeats `indent` spaces per level before content beginning with
      the key or `[`, so the content comes back at the line's depth. */
  lemma HeaderLineReadBack(cfg: Config, depth: nat, key: Option<string>, tail: string)
    requires cfg.indent > 0 && tail != [] && tail[0] == '['
    ensures var content := KeyText(key) + tail;
      && content != [] && content[0] != ' '
      && (key.None? ==> content[0] == '[')
      && LineDepth(Line(cfg, depth, content), cfg.indent) == depth
      && LineContent(Line(cfg, depth, content)) == content
  {
    var content := KeyText(key) + tail;
    if key.Some? {
      KeyStart(key.value);
      assert content[0] == EncodeKey(key.value)[0];
    } else {
      assert content == tail;
    }
    LineReadBack(cfg, depth, content);
  }

  /** Every line of `writeTabularRows` for a covered table. */
  lemma TableLinesClean(cfg: Config, rows: seq<Value>, header: seq<string>, depth: nat)
    requires DetectTabularHeader(rows) == Some(header) && SupportedTable(rows)
    ensures Clean(TabularLines(cfg, rows, header, depth))
  {
    var d := cfg.delimiter.Char();
    assert AllObjects(rows) by {
      forall i | 0 <= i < |rows| ensures rows[i].Object? { assert RowFits(rows[i], header); }
    }
    TabularLinesAll(cfg, rows, header, depth);
    forall i | 0 <= i < |rows|
      ensures TabularLines(cfg, rows, header, depth)[i] != []
      ensures OneLine(TabularLines(cfg, rows, header, depth)[i])
    {
      var cells := CellsExact(rows, header, i);
      JoinedOneLine(cells, d);
      JoinedStart(cells, d);
      CleanLine(cfg, depth, JoinEncodedValues(cells, d));
    }
  }

  /** The cells of a covered table's row, in header order, are exact
      primitives, one per header name. */
  lemma CellsExact(rows: seq<Value>, header: seq<string>, i: nat) returns (cells: seq<Value>)
    requires DetectTabularHeader(rows) == Some(header) && SupportedTable(rows) && i < |rows|
    ensures cells == HeaderValues(rows[i].values, header)
    ensures cells != [] && |cells| == |header| && AllExact(cells)
    ensures forall j :: 0 <= j < |header| ==> cells[j] == rows[i].values[header[j]]
  {
    assert RowFits(rows[i], header);
    HeaderValuesAll(rows[i].values, header);
    cells := HeaderValues(rows[i].values, header);
    forall j | 0 <= j < |cells|
      ensures IsExactPrimitive(cells[j])
    {
      assert cells[j] == rows[i].values[header[j]];
    }
  }

  /** The element lines of `encodeArrayOfArraysAsListItems`, one per inner array. */
  lemma {:induction false} InlineItemLinesAll(cfg: Config, items: seq<Value>, depth: nat)
    requires AllArrays(items)
    ensures |InlineItemLines(cfg, items, depth)| == |items|
    ensures forall i :: 0 <= i < |items| ==>
      InlineItemLines(cfg, items, depth)[i] == Line(cfg, depth, "- " + FormatInlineArray(cfg, items[i].items, None))
  {
    if items != [] {
      InlineItemLinesAll(cfg, items[1..], depth);
    }
  }

  lemma InlineItemsClean(cfg: Config, items: seq<Value>, depth: nat)
    requires InlineArrays(items)
    ensures Clean(InlineItemLines(cfg, items, depth))
  {
    InlineItemLinesAll(cfg, items, depth);
    forall i | 0 <= i < |items|
      ensures InlineItemLines(cfg, items, depth)[i] != []
      ensures OneLine(InlineItemLines(cfg, items, depth)[i])
    {
      InlineOneLine(cfg, items[i].items, None);
      CleanLine(cfg, depth, "- " + FormatInlineArray(cfg, items[i].items, None));
    }
  }

  /** The first line of an array's lines is its header, whatever the layout. */
  lemma ArrayHead(cfg: Config, key: Option<string>, arr: Value, depth: nat)
    returns (fields: Option<seq<string>>, rest: string)
    requires arr.Array? && FirstKeysPresent(arr)
    ensures ArrayLines(cfg, key, arr, depth) != []
    ensures ArrayLines(cfg, key, arr, depth)[0] == Line(cfg, depth, HeaderFor(cfg, |arr.items|, key, fields) + rest)
  {
    var items := arr.items;
    if items != [] && AllPrimitive(items) {
      fields, rest := None, " " + JoinEncodedValues(items, cfg.delimiter.Char());
      InlineHead(cfg, key, arr, depth);
    } else {
      fields, rest := HeaderAloneHead(cfg, key, arr, depth);
    }
  }

  /** An array of primitives is one line, its header and then its values. */
  lemma InlineHead(cfg: Config, key: Option<string>, arr: Value, depth: nat)
    requires arr.Array? && FirstKeysPresent(arr) && arr.items != [] && AllPrimitive(arr.items)
    ensures ArrayLines(cfg, key, arr, depth)
      == [Line(cfg, depth, HeaderFor(cfg, |arr.items|, key, None) + " " + JoinEncodedValues(arr.items, cfg.delimiter.Char()))]
  {
  }

  /** Any other array starts with its header alone on a line. */
  lemma HeaderAloneHead(cfg: Config, key: Option<string>, arr: Value, depth: nat)
    returns (fields: Option<seq<string>>, rest: string)
    requires arr.Array? && FirstKeysPresent(arr) && !(arr.items != [] && AllPrimitive(arr.items))
    ensures ArrayLines(cfg, key, arr, depth) != [] && rest == []
    ensures ArrayLines(cfg, key, arr, depth)[0] == Line(cfg, depth, HeaderFor(cfg, |arr.items|, key, fields))
  {
    var items := arr.items;
    rest := "";
    fields := if items != [] && !(AllArrays(items) && AllPrimitiveArrays(items)) && AllObjects(items)
      then DetectTabularHeader(items) else None;
  }

  /** Every line an array is written as is one non-empty line. */
  lemma ArrayLinesClean(cfg: Config, key: Option<string>, arr: Value, depth: nat)
    requires arr.Array? && FirstKeysPresent(arr) && Supported(arr)
    ensures Clean(ArrayLines(cfg, key, arr, depth))
    decreases arr, 1
  {
    var items, d, m := arr.items, cfg.delimiter.Char(), cfg.lengthMarker == Hash;
    if !SupportedArray(items) {
      HeaderOneLine(|items|, key, None, d, m);
      CleanLine(cfg, depth, HeaderFor(cfg, |items|, key, None));
      ListItemsLinesClean(cfg, arr, 0, depth + 1);
      CleanAppend([Line(cfg, depth, HeaderFor(cfg, |items|, key, None))], ListItemsLines(cfg, arr, 0, depth + 1));
    } else if items == [] {
      HeaderOneLine(0, key, None, d, m);
      CleanLine(cfg, depth, HeaderFor(cfg, 0, key, None));
    } else {
      ArrayLayout(items);
      if AllPrimitive(items) {
        InlineOneLine(cfg, items, key);
        CleanLine(cfg, depth, FormatInlineArray(cfg, items, key));
      } else if AllArrays(items) && AllPrimitiveArrays(items) {
        HeaderOneLine(|items|, key, None, d, m);
        CleanLine(cfg, depth, HeaderFor(cfg, |items|, key, None));
        InlineItemsClean(cfg, items, depth + 1);
        CleanAppend([Line(cfg, depth, HeaderFor(cfg, |items|, key, None))], InlineItemLines(cfg, items, depth + 1));
      } else {
        var header := DetectTabularHeader(items).value;
        HeaderOneLine(|items|, key, Some(header), d, m);
        CleanLine(cfg, depth, HeaderFor(cfg, |items|, key, Some(header)));
        TableLinesClean(cfg, items, header, depth + 1);
        CleanAppend([Line(cfg, depth, HeaderFor(cfg, |items|, key, Some(header)))],
                    TabularLines(cfg, items, header, depth + 1));
      }
    }
  }

  /** Every line of the list layout from the `i`-th element on is one
      non-empty line. */
  lemma {:induction false} ListItemsLinesClean(cfg: Config, arr: Value, i: nat, depth: nat)
    requires arr.Array? && i <= |arr.items| && FirstKeysPresent(arr) && Supported(arr) && !SupportedArray(arr.items)
    ensures Clean(ListItemsLines(cfg, arr, i, depth))
    decreases arr, 0, |arr.items| - i
  {
    if i < |arr.items| {
      ListItemLinesClean(cfg, arr.items[i], depth);
      ListItemsLinesClean(cfg, arr, i + 1, depth);
      CleanAppend(ListItemLines(cfg, arr.items[i], depth), ListItemsLines(cfg, arr, i + 1, depth));
    }
  }

  /** Every line of one element of the list layout is one non-empty line. */
  lemma ListItemLinesClean(cfg: Config, item: Value, depth: nat)
    requires FirstKeysPresent(item) && ListElement(item) && Supported(item)
    ensures Clean(ListItemLines(cfg, item, depth))
    decreases item, 2
  {
    var f := ItemHead(cfg, item, depth);
    CleanLine(cfg, depth, "- " + f);
    if item.Object? {
      ObjectLinesClean(cfg, item, 1, depth + 1);
      CleanAppend([Line(cfg, depth, "- " + f)], ObjectLines(cfg, item, 1, depth + 1));
    }
  }

  /** The first line of an element of the list layout is `- ` and one line
      of text: the primitive's token, the inner array inline, or an object's
      first key and value, whose other entries follow one level deeper. */
  lemma ItemHead(cfg: Config, item: Value, depth: nat) returns (f: string)
    requires FirstKeysPresent(item) && ListElement(item) && Supported(item)
    ensures f != [] && OneLine(f) && OneLine("- " + f)
    ensures item.Object? ==>
      var k := item.keyOrder[0];
      && f == EncodeKey(k) + (": " + EncodePrimitive(item.values[k], cfg.delimiter.Char()).value)
      && ListItemLines(cfg, item, depth) == [Line(cfg, depth, "- " + f)] + ObjectLines(cfg, item, 1, depth + 1)
    ensures !item.Object? ==> ListItemLines(cfg, item, depth) == [Line(cfg, depth, "- " + f)]
    ensures item.Array? ==> f == FormatInlineArray(cfg, item.items, None)
    ensures item.IsPrimitive() ==> f == EncodePrimitive(item, cfg.delimiter.Char()).value
  {
    var d := cfg.delimiter.Char();
    if item.Array? {
      f := FormatInlineArray(cfg, item.items, None);
      InlineOneLine(cfg, item.items, None);
      InlineStartsBracket(cfg, item.items);
    } else if item.Object? {
      var k := item.keyOrder[0];
      var v := item.values[k];
      var t := EncodePrimitive(v, d).value;
      f := EncodeKey(k) + (": " + t);
      KeyStart(k);
      TokenForm(v, d);
      OneLineCat(": ", t);
      OneLineCat(EncodeKey(k), ": " + t);
      Assoc("- " + EncodeKey(k), ": ", t);
      Assoc("- ", EncodeKey(k), ": " + t);
      assert FirstFieldLines(cfg, k, v, depth) == [Line(cfg, depth, "- " + f)];
      assert ListItemLines(cfg, item, depth) == ObjectAsListItemLines(cfg, item, depth);
    } else {
      f := EncodePrimitive(item, d).value;
      TokenForm(item, d);
      EncodePrimitiveReadsBack(item, d);
    }
    OneLineCat("- ", f);
  }

  /** A keyless inline array begins with `[`. */
  lemma InlineStartsBracket(cfg: Config, values: seq<Value>)
    ensures var f := FormatInlineArray(cfg, values, None); f != [] && f[0] == '['
  {
    var d, m := cfg.delimiter.Char(), cfg.lengthMarker == Hash;
    HeaderSplit(|values|, None, None, d, m);
    assert KeyText(None) == [];
  }

  /** Every line an object's entries are written as is one non-empty line. */
  lemma {:induction false} ObjectLinesClean(cfg: Config, obj: Value, i: nat, depth: nat)
    requires obj.Object? && i <= |obj.keyOrder| && FirstKeysPresent(obj) && Supported(obj)
    ensures Clean(ObjectLines(cfg, obj, i, depth))
    decreases obj, 1, |obj.keyOrder| - i
  {
    if i < |obj.keyOrder| {
      var key := obj.keyOrder[i];
      var head: seq<string> := if key in obj.values then KeyValueLines(cfg, key, obj.values[key], depth) else [];
      if key in obj.values {
        KeyValueLinesClean(cfg, key, obj.values[key], depth);
      }
      ObjectLinesClean(cfg, obj, i + 1, depth);
      CleanAppend(head, ObjectLines(cfg, obj, i + 1, depth));
    }
  }

  /** Every line of one key's entry is one non-empty line. */
  lemma {:induction false} KeyValueLinesClean(cfg: Config, key: string, v: Value, depth: nat)
    requires FirstKeysPresent(v) && Supported(v)
    ensures Clean(KeyValueLines(cfg, key, v, depth))
    decreases v, 2
  {
    KeyStart(key);
    if v.Array? {
      ArrayLinesClean(cfg, Some(key), v, depth);
    } else if v.Object? {
      CleanLine(cfg, depth, EncodeKey(key) + ":");
      if v.keyOrder != [] {
        ObjectLinesClean(cfg, v, 0, depth + 1);
        CleanAppend([Line(cfg, depth, EncodeKey(key) + ":")], ObjectLines(cfg, v, 0, depth + 1));
      }
    } else {
      TokenForm(v, cfg.delimiter.Char());
      CleanLine(cfg, depth, EncodeKey(key) + ": " + EncodePrimitive(v, cfg.delimiter.Char()).value);
    }
  }

  /** The lines of a covered root value. */
  lemma ValueLinesClean(cfg: Config, v: Value)
    requires FirstKeysPresent(v) && Supported(v)
    ensures Clean(ValueLines(cfg, v, 0))
  {
    if v.Array? {
      ArrayLinesClean(cfg, None, v, 0);
    } else if v.Object? {
      ObjectLinesClean(cfg, v, 0, 0);
    } else {
      var t := EncodePrimitive(v, cfg.delimiter.Char()).value;
      TokenForm(v, cfg.delimiter.Char());
      EncodePrimitiveReadsBack(v, cfg.delimiter.Char());
      CleanLine(cfg, 0, t);
    }
  }

  // ---------------------------------------------------------------------------
  // First lines

  /** The first line of one key's entry: the key at the entry's depth, then
      a colon or the rest of an array header. Either way the decoder finds a
      key-value separator on it. */
  lemma KeyValueHead(cfg: Config, key: string, v: Value, depth: nat) returns (tail: string)
    requires FirstKeysPresent(v)
    ensures KeyValueLines(cfg, key, v, depth) != []
    ensures KeyValueLines(cfg, key, v, depth)[0] == Line(cfg, depth, EncodeKey(key) + tail)
    ensures KeyValueSeparator(EncodeKey(key) + tail).Some?
  {
    var d := cfg.delimiter.Char();
    if v.Array? {
      tail := ArrayKeyHead(cfg, key, v, depth);
    } else if v.Object? {
      tail := ":";
      KeySeparator(key, tail);
    } else {
      tail := PrimitiveKeyHead(cfg, key, v, depth);
    }
  }

  /** The line of a key with a primitive value: the key, `: ` and the token. */
  lemma PrimitiveKeyHead(cfg: Config, key: string, v: Value, depth: nat) returns (tail: string)
    requires v.IsPrimitive()
    ensures KeyValueLines(cfg, key, v, depth) == [Line(cfg, depth, EncodeKey(key) + tail)]
    ensures KeyValueSeparator(EncodeKey(key) + tail).Some?
  {
    var t := EncodePrimitive(v, cfg.delimiter.Char()).value;
    tail := ": " + t;
    assert KeyValueLines(cfg, key, v, depth) == [Line(cfg, depth, EncodeKey(key) + ": " + t)];
    assert EncodeKey(key) + ": " + t == EncodeKey(key) + tail;
    KeySeparator(key, tail);
  }

  /** The first line of a key's array: the key, then the rest of the header. */
  lemma ArrayKeyHead(cfg: Config, key: string, arr: Value, depth: nat) returns (tail: string)
    requires arr.Array? && FirstKeysPresent(arr)
    ensures ArrayLines(cfg, Some(key), arr, depth) != []
    ensures ArrayLines(cfg, Some(key), arr, depth)[0] == Line(cfg, depth, EncodeKey(key) + tail)
    ensures tail != [] && tail[0] == '['
    ensures KeyValueSeparator(EncodeKey(key) + tail).Some?
  {
    var d, m, n := cfg.delimiter.Char(), cfg.lengthMarker == Hash, |arr.items|;
    var fields, rest := ArrayHead(cfg, Some(key), arr, depth);
    var h, ht := FormatHeader(n, Some(key), fields, d, m), HeaderTail(n, fields, d, m);
    assert HeaderFor(cfg, n, Some(key), fields) == h;
    HeaderSplit(n, Some(key), fields, d, m);
    assert KeyText(Some(key)) == EncodeKey(key);
    tail := ht + rest;
    Assoc(EncodeKey(key), ht, rest);
    HeaderLineSeparator(n, key, fields, d, m, rest);
  }

  /** The first line of a non-empty object's entries is its first key's. */
  lemma ObjectHead(cfg: Config, obj: Value, depth: nat) returns (tail: string)
    requires obj.Object? && obj.keyOrder != [] && FirstKeysPresent(obj)
    ensures ObjectLines(cfg, obj, 0, depth) != []
    ensures ObjectLines(cfg, obj, 0, depth)[0] == Line(cfg, depth, EncodeKey(obj.keyOrder[0]) + tail)
    ensures KeyValueSeparator(EncodeKey(obj.keyOrder[0]) + tail).Some?
  {
    var key := obj.keyOrder[0];
    tail := KeyValueHead(cfg, key, obj.values[key], depth);
  }
}

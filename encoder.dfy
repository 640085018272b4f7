/** The encoder object: its three settings and the emitters, each of which
    appends lines to an output list passed in and handed back (the source's
    `inout [String]`). Every emitter is proved to append exactly the lines
    its specification in `Emit` describes. */
module EncoderImpl {
  import opened ToonValue
  import opened Text
  import opened Quoting
  import opened Emit

  /** Regrouping appended line lists. */
  lemma AppendAssoc(a: seq<string>, b: seq<string>, c: seq<string>)
    ensures a + b + c == a + (b + c)
  {
  }

  /** The entries of an object from its `i`-th key on: that key's lines, if
      it has a value, then the entries after it. */
  lemma EntryThenRest(cfg: Config, obj: Value, i: nat, depth: nat, prev: seq<string>, out: seq<string>)
    requires obj.Object? && i < |obj.keyOrder| && FirstKeysPresent(obj)
    requires var key := obj.keyOrder[i];
      out == prev + (if key in obj.values then KeyValueLines(cfg, key, obj.values[key], depth) else [])
    ensures out + ObjectLines(cfg, obj, i + 1, depth) == prev + ObjectLines(cfg, obj, i, depth)
  {
    var key := obj.keyOrder[i];
    var part := if key in obj.values then KeyValueLines(cfg, key, obj.values[key], depth) else [];
    assert ObjectLines(cfg, obj, i, depth) == part + ObjectLines(cfg, obj, i + 1, depth);
    AppendAssoc(prev, part, ObjectLines(cfg, obj, i + 1, depth));
  }

  class Encoder {
    /** Spaces per indentation level. */
    var indent: nat
    /** Separator of inline values and table cells. */
    var delimiter: Delimiter
    /** Whether headers prefix the length with `#`. */
    var lengthMarker: LengthMarker

    /** `init()`: two spaces, commas, no length marker. */
    constructor()
      ensures indent == 2 && delimiter == Comma && lengthMarker == NoMarker
    {
      indent := 2;
      delimiter := Comma;
      lengthMarker := NoMarker;
    }

    function Settings(): Config
      reads this
    {
      Config(indent, delimiter, lengthMarker)
    }

    /** `encode`: the lines of the value, joined by line feeds. */
    method Encode(v: Value) returns (text: string)
      requires FirstKeysPresent(v)
      ensures text == Emit.Encode(Settings(), v)
    {
      var output := EncodeValue(v, [], 0);
      assert output == ValueLines(Settings(), v, 0);
      text := Join(output, "\n");
    }

    /** `write(depth:content:to:)`. */
    method Write(depth: nat, content: string, output: seq<string>) returns (out: seq<string>)
      ensures out == output + [Line(Settings(), depth, content)]
    {
      var indentation := Repeat(' ', indent * depth);
      out := output + [indentation + content];
    }

    /** `encodeValue`. */
    method EncodeValue(v: Value, output: seq<string>, depth: nat) returns (out: seq<string>)
      requires FirstKeysPresent(v)
      ensures out == output + ValueLines(Settings(), v, depth)
      decreases v, 3
    {
      match v
      case Array(items) =>
        out := EncodeArray(None, items, output, depth);
      case Object(values, keyOrder) =>
        out := EncodeObject(values, keyOrder, output, depth);
      case _ =>
        out := output;
        if depth == 0 {
          var encoded := EncodePrimitive(v, delimiter.Char());
          if encoded.Some? {
            out := Write(depth, encoded.value, output);
          }
        } else {
          assert out == output + [];
        }
    }

    /** `encodeObject`: one entry per key of `keyOrder` that has a value. */
    method EncodeObject(values: map<string, Value>, keyOrder: seq<string>, output: seq<string>, depth: nat)
      returns (out: seq<string>)
      requires FirstKeysPresent(Object(values, keyOrder))
      ensures out == output + ObjectLines(Settings(), Object(values, keyOrder), 0, depth)
      decreases Object(values, keyOrder), 1
    {
      out := EncodeFields(values, keyOrder, 0, output, depth);
    }

    /** The loop of `encodeObject` from the `start`-th key on; list-item
        objects run it from the second key. */
    method EncodeFields(values: map<string, Value>, keyOrder: seq<string>, start: nat, output: seq<string>, depth: nat)
      returns (out: seq<string>)
      requires start <= |keyOrder| && FirstKeysPresent(Object(values, keyOrder))
      ensures out == output + ObjectLines(Settings(), Object(values, keyOrder), start, depth)
      decreases Object(values, keyOrder), 0
    {
      ghost var obj := Object(values, keyOrder);
      out := output;
      var i := start;
      assert output == output + [];
      while i < |keyOrder|
        invariant start <= i <= |keyOrder|
        invariant out + ObjectLines(Settings(), obj, i, depth) == output + ObjectLines(Settings(), obj, start, depth)
      {
        var key := keyOrder[i];
        ghost var prev := out;
        if key in values {
          out := EncodeKeyValuePair(key, values[key], out, depth);
        } else {
          assert out == prev + [];
        }
        EntryThenRest(Settings(), obj, i, depth, prev, out);
        i := i + 1;
      }
      assert out == out + [];
    }

    /** `encodeKeyValuePair`. */
    method EncodeKeyValuePair(key: string, value: Value, output: seq<string>, depth: nat) returns (out: seq<string>)
      requires FirstKeysPresent(value)
      ensures out == output + KeyValueLines(Settings(), key, value, depth)
      decreases value, 2
    {
      var encodedKey := EncodeKey(key);
      match value
      case Array(items) =>
        out := EncodeArray(Some(key), items, output, depth);
      case Object(values, keyOrder) =>
        out := Write(depth, encodedKey + ":", output);
        if keyOrder != [] {
          out := EncodeObject(values, keyOrder, out, depth + 1);
          AppendAssoc(output, [Line(Settings(), depth, encodedKey + ":")], ObjectLines(Settings(), value, 0, depth + 1));
        }
      case _ =>
        out := output;
        var encodedValue := EncodePrimitive(value, delimiter.Char());
        if encodedValue.Some? {
          out := Write(depth, encodedKey + ": " + encodedValue.value, output);
        }
    }

    /** `encodeObjectAsListItem`: `-` alone for an empty object, otherwise the
        first field on the `- ` line and the rest one level deeper. */
    method EncodeObjectAsListItem(values: map<string, Value>, keyOrder: seq<string>, output: seq<string>, depth: nat)
      returns (out: seq<string>)
      requires FirstKeysPresent(Object(values, keyOrder))
      ensures out == output + ObjectAsListItemLines(Settings(), Object(values, keyOrder), depth)
      decreases Object(values, keyOrder), 3
    {
      if keyOrder == [] {
        out := Write(depth, "-", output);
        return;
      }
      var firstKey := keyOrder[0];
      var firstValue := values[firstKey];
      out := EncodeFirstField(firstKey, firstValue, output, depth);
      ghost var first := FirstFieldLines(Settings(), firstKey, firstValue, depth);
      out := EncodeFields(values, keyOrder, 1, out, depth + 1);
      AppendAssoc(output, first, ObjectLines(Settings(), Object(values, keyOrder), 1, depth + 1));
    }

    /** The `switch firstValue` of `encodeObjectAsListItem`: the first field
        on the `- ` line. */
    method EncodeFirstField(key: string, value: Value, output: seq<string>, depth: nat) returns (out: seq<string>)
      requires FirstKeysPresent(value)
      ensures out == output + FirstFieldLines(Settings(), key, value, depth)
      decreases value, 4
    {
      var encodedKey := EncodeKey(key);
      match value
      case Array(items) =>
        if AllPrimitive(items) {
          var formatted := FormatInlineArray(Settings(), items, Some(key));
          out := Write(depth, "- " + formatted, output);
        } else if AllObjects(items) {
          var header := DetectTabularHeader(items);
          if header.Some? {
            var headerStr := FormatHeader(|items|, Some(key), Some(header.value), delimiter.Char(), lengthMarker == Hash);
            out := Write(depth, "- " + headerStr, output);
            out := WriteTabularRows(items, header.value, out, depth + 1);
            AppendAssoc(output, [Line(Settings(), depth, "- " + headerStr)], TabularLines(Settings(), items, header.value, depth + 1));
          } else {
            out := Write(depth, ListItemArrayHeader(key, |items|), output);
            out := EncodeListItems(items, out, depth + 1);
            AppendAssoc(output, [Line(Settings(), depth, ListItemArrayHeader(key, |items|))], ListItemsLines(Settings(), value, 0, depth + 1));
          }
        } else {
          out := Write(depth, ListItemArrayHeader(key, |items|), output);
          out := EncodeListItems(items, out, depth + 1);
          AppendAssoc(output, [Line(Settings(), depth, ListItemArrayHeader(key, |items|))], ListItemsLines(Settings(), value, 0, depth + 1));
        }
      case Object(nestedValues, nestedKeyOrder) =>
        out := Write(depth, "- " + encodedKey + ":", output);
        if nestedKeyOrder != [] {
          out := EncodeObject(nestedValues, nestedKeyOrder, out, depth + 2);
          AppendAssoc(output, [Line(Settings(), depth, "- " + encodedKey + ":")], ObjectLines(Settings(), value, 0, depth + 2));
        }
      case _ =>
        out := output;
        var encodedValue := EncodePrimitive(value, delimiter.Char());
        if encodedValue.Some? {
          out := Write(depth, "- " + encodedKey + ": " + encodedValue.value, output);
        }
    }

    /** `encodeArray`: the first applicable layout. */
    method EncodeArray(key: Option<string>, items: seq<Value>, output: seq<string>, depth: nat) returns (out: seq<string>)
      requires FirstKeysPresent(Array(items))
      ensures out == output + ArrayLines(Settings(), key, Array(items), depth)
      decreases Array(items), 1, 1
    {
      if items == [] {
        var header := FormatHeader(0, key, None, delimiter.Char(), lengthMarker == Hash);
        out := Write(depth, header, output);
        return;
      }
      if AllPrimitive(items) {
        out := EncodeInlinePrimitiveArray(key, items, output, depth);
        return;
      }
      if AllArrays(items) {
        if AllPrimitiveArrays(items) {
          out := EncodeArrayOfArraysAsListItems(key, items, output, depth);
          return;
        }
      }
      if AllObjects(items) {
        var header := DetectTabularHeader(items);
        if header.Some? {
          out := EncodeArrayOfObjectsAsTabular(key, items, header.value, output, depth);
        } else {
          out := EncodeMixedArrayAsListItems(key, items, output, depth);
        }
        return;
      }
      out := EncodeMixedArrayAsListItems(key, items, output, depth);
    }

    /** `encodeInlinePrimitiveArray`. */
    method EncodeInlinePrimitiveArray(key: Option<string>, values: seq<Value>, output: seq<string>, depth: nat)
      returns (out: seq<string>)
      ensures out == output + [Line(Settings(), depth, FormatInlineArray(Settings(), values, key))]
    {
      var formatted := FormatInlineArray(Settings(), values, key);
      out := Write(depth, formatted, output);
    }

    /** `encodeArrayOfArraysAsListItems`: the header, then each inner array
        inline after `- `, one level deeper. */
    method EncodeArrayOfArraysAsListItems(key: Option<string>, values: seq<Value>, output: seq<string>, depth: nat)
      returns (out: seq<string>)
      ensures out == output + ([Line(Settings(), depth, HeaderFor(Settings(), |values|, key, None))]
                               + InlineItemLines(Settings(), values, depth + 1))
    {
      var header := FormatHeader(|values|, key, None, delimiter.Char(), lengthMarker == Hash);
      out := Write(depth, header, output);
      ghost var start := out;
      var i := 0;
      while i < |values|
        invariant 0 <= i <= |values|
        invariant out + InlineItemLines(Settings(), values[i..], depth + 1) == start + InlineItemLines(Settings(), values, depth + 1)
      {
        ghost var prev := out;
        ghost var part := if values[i].Array? then [Line(Settings(), depth + 1, "- " + FormatInlineArray(Settings(), values[i].items, None))] else [];
        assert values[i..][0] == values[i] && values[i..][1..] == values[i + 1..];
        assert InlineItemLines(Settings(), values[i..], depth + 1) == part + InlineItemLines(Settings(), values[i + 1..], depth + 1);
        if values[i].Array? {
          var inline := FormatInlineArray(Settings(), values[i].items, None);
          out := Write(depth + 1, "- " + inline, out);
        } else {
          assert out == prev + part;
        }
        AppendAssoc(prev, part, InlineItemLines(Settings(), values[i + 1..], depth + 1));
        i := i + 1;
      }
      assert out == out + InlineItemLines(Settings(), values[i..], depth + 1);
      AppendAssoc(output, [Line(Settings(), depth, header)], InlineItemLines(Settings(), values, depth + 1));
    }

    /** `encodeArrayOfObjectsAsTabular`: the header with the field names, then
        one row per element. */
    method EncodeArrayOfObjectsAsTabular(key: Option<string>, rows: seq<Value>, header: seq<string>, output: seq<string>, depth: nat)
      returns (out: seq<string>)
      ensures out == output + ([Line(Settings(), depth, HeaderFor(Settings(), |rows|, key, Some(header)))]
                               + TabularLines(Settings(), rows, header, depth + 1))
    {
      var headerStr := FormatHeader(|rows|, key, Some(header), delimiter.Char(), lengthMarker == Hash);
      out := Write(depth, headerStr, output);
      out := WriteTabularRows(rows, header, out, depth + 1);
      AppendAssoc(output, [Line(Settings(), depth, headerStr)], TabularLines(Settings(), rows, header, depth + 1));
    }

    /** `encodeMixedArrayAsListItems`: the header, then the list of elements. */
    method EncodeMixedArrayAsListItems(key: Option<string>, items: seq<Value>, output: seq<string>, depth: nat)
      returns (out: seq<string>)
      requires FirstKeysPresent(Array(items))
      ensures out == output + ([Line(Settings(), depth, HeaderFor(Settings(), |items|, key, None))]
                               + ListItemsLines(Settings(), Array(items), 0, depth + 1))
      decreases Array(items), 1, 0
    {
      var header := FormatHeader(|items|, key, None, delimiter.Char(), lengthMarker == Hash);
      out := Write(depth, header, output);
      out := EncodeListItems(items, out, depth + 1);
      AppendAssoc(output, [Line(Settings(), depth, header)], ListItemsLines(Settings(), Array(items), 0, depth + 1));
    }

    /** The element loop of the list layouts: a primitive after `- `, an
        array of primitives inline after `- `, an object as a list item, and
        nothing for any other array. */
    method EncodeListItems(items: seq<Value>, output: seq<string>, depth: nat) returns (out: seq<string>)
      requires FirstKeysPresent(Array(items))
      ensures out == output + ListItemsLines(Settings(), Array(items), 0, depth)
      decreases Array(items), 0
    {
      ghost var arr := Array(items);
      out := output;
      var i := 0;
      assert output == output + [];
      while i < |items|
        invariant 0 <= i <= |items|
        invariant out + ListItemsLines(Settings(), arr, i, depth) == output + ListItemsLines(Settings(), arr, 0, depth)
      {
        var item := items[i];
        ghost var prev := out;
        ghost var part := ListItemLines(Settings(), item, depth);
        match item {
          case Array(inner) =>
            if AllPrimitive(inner) {
              var inline := FormatInlineArray(Settings(), inner, None);
              out := Write(depth, "- " + inline, out);
            } else {
              assert out == prev + part;
            }
          case Object(values, keyOrder) =>
            out := EncodeObjectAsListItem(values, keyOrder, out, depth);
          case _ =>
            var encoded := EncodePrimitive(item, delimiter.Char());
            out := Write(depth, "- " + encoded.value, out);
        }
        assert ListItemsLines(Settings(), arr, i, depth) == part + ListItemsLines(Settings(), arr, i + 1, depth);
        AppendAssoc(prev, part, ListItemsLines(Settings(), arr, i + 1, depth));
        i := i + 1;
      }
      assert out == out + [];
    }

    /** `detectTabularHeader`. */
    method DetectTabularHeader(rows: seq<Value>) returns (header: Option<seq<string>>)
      ensures header == Emit.DetectTabularHeader(rows)
    {
      if rows == [] || !rows[0].Object? {
        return None;
      }
      var keyOrder := rows[0].keyOrder;
      if keyOrder == [] {
        return None;
      }
      var tabular := IsTabularArray(rows, keyOrder);
      if tabular {
        return Some(keyOrder);
      }
      return None;
    }

    /** `isTabularArray`: the scan stops at the first row that does not fit. */
    method IsTabularArray(rows: seq<Value>, header: seq<string>) returns (r: bool)
      ensures r == IsTabular(rows, header)
    {
      var i := 0;
      while i < |rows|
        invariant 0 <= i <= |rows|
        invariant forall k :: 0 <= k < i ==> RowFits(rows[k], header)
      {
        var row := rows[i];
        if !row.Object? {
          return false;
        }
        if |row.keyOrder| != |header| {
          return false;
        }
        var j := 0;
        while j < |header|
          invariant 0 <= j <= |header|
          invariant forall m :: 0 <= m < j ==> header[m] in row.values && row.values[header[m]].IsPrimitive()
        {
          var key := header[j];
          if key !in row.values {
            return false;
          }
          if !row.values[key].IsPrimitive() {
            return false;
          }
          j := j + 1;
        }
        i := i + 1;
      }
      return true;
    }

    /** `writeTabularRows`: one line of delimited cells per object row, the
        cells in header order. */
    method WriteTabularRows(rows: seq<Value>, header: seq<string>, output: seq<string>, depth: nat) returns (out: seq<string>)
      ensures out == output + TabularLines(Settings(), rows, header, depth)
    {
      out := output;
      var i := 0;
      assert output == output + [];
      while i < |rows|
        invariant 0 <= i <= |rows|
        invariant out + TabularLines(Settings(), rows[i..], header, depth) == output + TabularLines(Settings(), rows, header, depth)
      {
        ghost var prev := out;
        ghost var part := if rows[i].Object?
          then [Line(Settings(), depth, JoinEncodedValues(HeaderValues(rows[i].values, header), delimiter.Char()))]
          else [];
        assert rows[i..][0] == rows[i] && rows[i..][1..] == rows[i + 1..];
        assert TabularLines(Settings(), rows[i..], header, depth) == part + TabularLines(Settings(), rows[i + 1..], header, depth);
        if rows[i].Object? {
          var rowValues := HeaderValues(rows[i].values, header);
          var joinedValue := JoinEncodedValues(rowValues, delimiter.Char());
          out := Write(depth, joinedValue, out);
        } else {
          assert out == prev + part;
        }
        AppendAssoc(prev, part, TabularLines(Settings(), rows[i + 1..], header, depth));
        i := i + 1;
      }
      assert out == out + TabularLines(Settings(), rows[i..], header, depth);
    }
  }
}

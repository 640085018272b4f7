/** What the encoder writes, stated as functions: every emitter of the
    encoder is specified by the lines it appends to the output. The shape of
    a value alone decides the layout: key-value lines for objects, and for
    arrays an inline line, a list of inline arrays, a table, or a list. */
module Emit {
  import opened ToonValue
  import opened Text
  import opened Numbers
  import opened Header
  import opened Quoting

  /** The encoder's delimiter option. */
  datatype Delimiter = Comma | Tab | Pipe
  {
    function Char(): (c: char)
      ensures IsDelimiter(c)
    {
      match this
      case Comma => ','
      case Tab => '\t'
      case Pipe => '|'
    }
  }

  /** The encoder's length-marker option. */
  datatype LengthMarker = NoMarker | Hash

  /** The three settings of an encoder. */
  datatype Config = Config(indent: nat, delimiter: Delimiter, lengthMarker: LengthMarker)

  /** Objects whose first key has no value are never written as list items:
      `encodeObjectAsListItem` force-unwraps that value. This holds at every
      level of the tree. */
  ghost predicate FirstKeysPresent(v: Value)
  {
    match v
    case Array(items) => forall i :: 0 <= i < |items| ==> FirstKeysPresent(items[i])
    case Object(values, keyOrder) =>
      && (keyOrder != [] ==> keyOrder[0] in values)
      && (forall k :: k in values ==> FirstKeysPresent(values[k]))
    case _ => true
  }

  /** Every well-formed value meets that demand: a well-formed object's key
      order lists exactly its keys. */
  lemma {:induction false} WellFormedFirstKeys(v: Value)
    requires WellFormed(v)
    ensures FirstKeysPresent(v)
  {
    match v
    case Array(items) =>
      forall i | 0 <= i < |items|
        ensures FirstKeysPresent(items[i])
      {
        WellFormedFirstKeys(items[i]);
      }
    case Object(values, keyOrder) =>
      forall k | k in values
        ensures FirstKeysPresent(values[k])
      {
        WellFormedFirstKeys(values[k]);
      }
    case _ =>
  }

  // ---------------------------------------------------------------------------
  // Primitives

  /** `encodePrimitive` for every case but the double, whose formatting is
      not modelled: a double is written as the literal it holds. */
  function EncodePrimitive(v: Value, d: char): (r: Option<string>)
    ensures r.Some? <==> v.IsPrimitive()
  {
    match v
    case Null => Some("null")
    case Bool(b) => Some(if b then "true" else "false")
    case Int(i) => Some(IntToDecimal(i))
    case Double(lit) => Some(lit)
    case Str(s) => Some(EncodeStringLiteral(s, d))
    case _ => None
  }

  /** `compactMap` of `encodePrimitive`: containers are skipped. */
  function EncodedValues(values: seq<Value>, d: char): (r: seq<string>)
    ensures |r| <= |values|
  {
    if values == [] then []
    else
      var e := EncodePrimitive(values[0], d);
      (if e.Some? then [e.value] else []) + EncodedValues(values[1..], d)
  }

  /** `joinEncodedValues`. */
  function JoinEncodedValues(values: seq<Value>, d: char): string
  {
    Join(EncodedValues(values, d), [d])
  }

  // ---------------------------------------------------------------------------
  // Headers and lines

  /** `formatHeader`: the key, `[`, the marker, the length, the delimiter
      unless it is a comma, `]`, the field names between braces, `:`. */
  function FormatHeader(length: nat, key: Option<string>, fields: Option<seq<string>>, d: char, marker: bool): string
  {
    (if key.Some? then EncodeKey(key.value) else "")
    + "[" + (if marker then "#" else "") + NatToDecimal(length) + (if d != ',' then [d] else "") + "]"
    + (if fields.Some? then "{" + Join(EncodedKeys(fields.value), [d]) + "}" else "")
    + ":"
  }

  /** `fields.map { encodeKey($0) }`. */
  function EncodedKeys(fields: seq<string>): (r: seq<string>)
    ensures |r| == |fields|
    ensures forall i :: 0 <= i < |r| ==> r[i] == EncodeKey(fields[i])
  {
    if fields == [] then [] else [EncodeKey(fields[0])] + EncodedKeys(fields[1..])
  }

  /** `formatHeader` with the encoder's own delimiter and marker. */
  function HeaderFor(cfg: Config, length: nat, key: Option<string>, fields: Option<seq<string>>): string
  {
    FormatHeader(length, key, fields, cfg.delimiter.Char(), cfg.lengthMarker == Hash)
  }

  /** `formatInlineArray`: the header alone for no values, otherwise the
      header, a space and the delimited values. */
  function FormatInlineArray(cfg: Config, values: seq<Value>, key: Option<string>): string
  {
    var header := HeaderFor(cfg, |values|, key, None);
    if values == [] then header else header + " " + JoinEncodedValues(values, cfg.delimiter.Char())
  }

  /** The header of a list inside a list item: `- key[N]:`, with neither
      length marker nor delimiter. */
  function ListItemArrayHeader(key: string, length: nat): string
  {
    "- " + EncodeKey(key) + "[" + NatToDecimal(length) + "]:"
  }

  /** `write(depth:content:to:)`: `indent` spaces per level, then the content. */
  function Line(cfg: Config, depth: nat, content: string): string
  {
    Repeat(' ', cfg.indent * depth) + content
  }

  // ---------------------------------------------------------------------------
  // Shapes of arrays

  predicate AllPrimitive(items: seq<Value>)
  {
    forall i :: 0 <= i < |items| ==> items[i].IsPrimitive()
  }

  predicate AllArrays(items: seq<Value>)
  {
    forall i :: 0 <= i < |items| ==> items[i].Array?
  }

  predicate AllObjects(items: seq<Value>)
  {
    forall i :: 0 <= i < |items| ==> items[i].Object?
  }

  /** Every element is an array of primitives. */
  predicate AllPrimitiveArrays(items: seq<Value>)
  {
    forall i :: 0 <= i < |items| ==> items[i].Array? && AllPrimitive(items[i].items)
  }

  /** One row of `isTabularArray`: an object with as many keys as the header,
      holding a primitive under every header key. */
  predicate RowFits(row: Value, header: seq<string>)
  {
    && row.Object?
    && |row.keyOrder| == |header|
    && forall j :: 0 <= j < |header| ==> header[j] in row.values && row.values[header[j]].IsPrimitive()
  }

  /** `isTabularArray`. */
  predicate IsTabular(rows: seq<Value>, header: seq<string>)
  {
    forall i :: 0 <= i < |rows| ==> RowFits(rows[i], header)
  }

  /** `detectTabularHeader`: the key order of the first row when it is not
      empty and every row fits it. */
  function DetectTabularHeader(rows: seq<Value>): Option<seq<string>>
  {
    if rows == [] || !rows[0].Object? || rows[0].keyOrder == [] then None
    else if IsTabular(rows, rows[0].keyOrder) then Some(rows[0].keyOrder)
    else None
  }

  /** `header.compactMap { values[$0] }`. */
  function HeaderValues(values: map<string, Value>, header: seq<string>): (r: seq<Value>)
    ensures |r| <= |header|
  {
    if header == [] then []
    else (if header[0] in values then [values[header[0]]] else []) + HeaderValues(values, header[1..])
  }

  /** `writeTabularRows`: one delimited line per object row. */
  function TabularLines(cfg: Config, rows: seq<Value>, header: seq<string>, depth: nat): (r: seq<string>)
    ensures |r| <= |rows|
  {
    if rows == [] then []
    else
      (if rows[0].Object?
       then [Line(cfg, depth, JoinEncodedValues(HeaderValues(rows[0].values, header), cfg.delimiter.Char()))]
       else [])
      + TabularLines(cfg, rows[1..], header, depth)
  }

  /** The element lines of `encodeArrayOfArraysAsListItems`: `- ` and the
      inline form of each inner array. */
  function InlineItemLines(cfg: Config, items: seq<Value>, depth: nat): (r: seq<string>)
    ensures |r| <= |items|
  {
    if items == [] then []
    else
      (if items[0].Array? then [Line(cfg, depth, "- " + FormatInlineArray(cfg, items[0].items, None))] else [])
      + InlineItemLines(cfg, items[1..], depth)
  }

  // ---------------------------------------------------------------------------
  // The emitters

  /** `encodeValue`: a primitive is written only at the root. */
  function ValueLines(cfg: Config, v: Value, depth: nat): seq<string>
    requires FirstKeysPresent(v)
  {
    match v
    case Array(_) => ArrayLines(cfg, None, v, depth)
    case Object(_, _) => ObjectLines(cfg, v, 0, depth)
    case _ => if depth == 0 then [Line(cfg, depth, EncodePrimitive(v, cfg.delimiter.Char()).value)] else []
  }

  /** `encodeObject` from the `i`-th key on: the entries in key order, keys
      without a value skipped. */
  function ObjectLines(cfg: Config, obj: Value, i: nat, depth: nat): seq<string>
    requires obj.Object? && i <= |obj.keyOrder| && FirstKeysPresent(obj)
    decreases obj, 1, |obj.keyOrder| - i
  {
    if i == |obj.keyOrder| then []
    else
      var key := obj.keyOrder[i];
      (if key in obj.values then KeyValueLines(cfg, key, obj.values[key], depth) else [])
      + ObjectLines(cfg, obj, i + 1, depth)
  }

  /** `encodeKeyValuePair`. */
  function KeyValueLines(cfg: Config, key: string, v: Value, depth: nat): seq<string>
    requires FirstKeysPresent(v)
    decreases v, 2
  {
    match v
    case Array(_) => ArrayLines(cfg, Some(key), v, depth)
    case Object(_, keyOrder) =>
      if keyOrder == [] then [Line(cfg, depth, EncodeKey(key) + ":")]
      else [Line(cfg, depth, EncodeKey(key) + ":")] + ObjectLines(cfg, v, 0, depth + 1)
    case _ => [Line(cfg, depth, EncodeKey(key) + ": " + EncodePrimitive(v, cfg.delimiter.Char()).value)]
  }

  /** `encodeArray`: the first applicable layout of empty, all primitives,
      all arrays of primitives, all objects with a tabular header, and list. */
  function ArrayLines(cfg: Config, key: Option<string>, arr: Value, depth: nat): seq<string>
    requires arr.Array? && FirstKeysPresent(arr)
    decreases arr, 1
  {
    var items := arr.items;
    if items == [] then [Line(cfg, depth, HeaderFor(cfg, 0, key, None))]
    else if AllPrimitive(items) then [Line(cfg, depth, FormatInlineArray(cfg, items, key))]
    else if AllArrays(items) && AllPrimitiveArrays(items) then
      [Line(cfg, depth, HeaderFor(cfg, |items|, key, None))] + InlineItemLines(cfg, items, depth + 1)
    else if AllObjects(items) && DetectTabularHeader(items).Some? then
      var header := DetectTabularHeader(items).value;
      [Line(cfg, depth, HeaderFor(cfg, |items|, key, Some(header)))] + TabularLines(cfg, items, header, depth + 1)
    else
      [Line(cfg, depth, HeaderFor(cfg, |items|, key, None))] + ListItemsLines(cfg, arr, 0, depth + 1)
  }

  /** The element loop of the list layout from the `i`-th element on: a
      primitive as `- value`, an array of primitives inline after `- `, an
      object as a list item; any other array is skipped. */
  function ListItemsLines(cfg: Config, arr: Value, i: nat, depth: nat): seq<string>
    requires arr.Array? && i <= |arr.items| && FirstKeysPresent(arr)
    decreases arr, 0, |arr.items| - i
  {
    if i == |arr.items| then []
    else ListItemLines(cfg, arr.items[i], depth) + ListItemsLines(cfg, arr, i + 1, depth)
  }

  /** One element of the list layout. */
  function ListItemLines(cfg: Config, item: Value, depth: nat): seq<string>
    requires FirstKeysPresent(item)
    decreases item, 5
  {
    match item
    case Array(inner) =>
      if AllPrimitive(inner) then [Line(cfg, depth, "- " + FormatInlineArray(cfg, inner, None))] else []
    case Object(_, _) => ObjectAsListItemLines(cfg, item, depth)
    case _ => [Line(cfg, depth, "- " + EncodePrimitive(item, cfg.delimiter.Char()).value)]
  }

  /** `encodeObjectAsListItem`: `-` alone for an empty object; otherwise the
      first field after `- ` and the other fields one level deeper. */
  function ObjectAsListItemLines(cfg: Config, obj: Value, depth: nat): seq<string>
    requires obj.Object? && FirstKeysPresent(obj)
    decreases obj, 2
  {
    if obj.keyOrder == [] then [Line(cfg, depth, "-")]
    else
      var key := obj.keyOrder[0];
      FirstFieldLines(cfg, key, obj.values[key], depth) + ObjectLines(cfg, obj, 1, depth + 1)
  }

  /** The first field of a list-item object, on the `- ` line. A nested
      object goes two levels deeper; an array of objects without a tabular
      header and a mixed array are written as lists under `- key[N]:`. */
  function FirstFieldLines(cfg: Config, key: string, v: Value, depth: nat): seq<string>
    requires FirstKeysPresent(v)
    decreases v, 4
  {
    var d := cfg.delimiter.Char();
    match v
    case Array(items) =>
      if AllPrimitive(items) then [Line(cfg, depth, "- " + FormatInlineArray(cfg, items, Some(key)))]
      else if AllObjects(items) && DetectTabularHeader(items).Some? then
        var header := DetectTabularHeader(items).value;
        [Line(cfg, depth, "- " + HeaderFor(cfg, |items|, Some(key), Some(header)))]
        + TabularLines(cfg, items, header, depth + 1)
      else
        [Line(cfg, depth, ListItemArrayHeader(key, |items|))] + ListItemsLines(cfg, v, 0, depth + 1)
    case Object(_, keyOrder) =>
      if keyOrder == [] then [Line(cfg, depth, "- " + EncodeKey(key) + ":")]
      else [Line(cfg, depth, "- " + EncodeKey(key) + ":")] + ObjectLines(cfg, v, 0, depth + 2)
    case _ => [Line(cfg, depth, "- " + EncodeKey(key) + ": " + EncodePrimitive(v, d).value)]
  }

  /** `encode`: the lines of the root value joined by line feeds. */
  function Encode(cfg: Config, v: Value): string
    requires FirstKeysPresent(v)
  {
    Join(ValueLines(cfg, v, 0), "\n")
  }
}

/** What the decoder's recursive descent guarantees: the invariants of the
    objects it builds, the shape of tabular rows and arrays, and how the root
    of a document is chosen. */
module DescentFacts {
  import opened ToonValue
  import opened Text
  import opened Scan
  import opened Primitive
  import opened Header
  import opened Paths
  import opened Descent
  import opened Numbers

  // ---------------------------------------------------------------------------
  // Objects

  /** Where an object ends: at the end of the input, or at a non-empty line
      shallower than the object, which is left for the caller. */
  predicate EndsObject(c: Ctx, depth: nat, next: nat)
    requires c.indent > 0 && next <= |c.lines|
  {
    next == |c.lines| || (c.lines[next] != [] && LineDepth(c.lines[next], c.indent) < depth)
  }

  /** The entries of an object value. */
  function FieldsOf(v: Value): Fields
    requires v.Object?
  {
    Fields(v.values, v.keyOrder)
  }

  /** One entry of an object: the entries keep the object invariant and the
      key limit; without path expansion a repeated key takes the new value
      and keeps its first position; the entry fails on its own line's pair,
      on a path collision or on the key limit. */
  lemma ObjectEntryFacts(c: Ctx, depth: nat, pos: nat, f: Fields)
    requires c.indent > 0 && pos < |c.lines| && KeysMatch(f)
    ensures var g := ObjectEntryAt(c, depth, pos, f);
      var e := KeyValuePairAt(c, LineContent(c.lines[pos]), depth, pos + 1);
      && (g.Ok? ==> KeysMatch(g.value.value) && |g.value.value.keyOrder| <= c.limits.maxObjectKeys)
      && (g.Ok? && c.expand == Disabled ==> g.value.value == InsertPlain(f, e.value.value.key, e.value.value.value))
      && (g.Err? ==>
            || e.Err?
            || g.error == PathCollision(e.value.next)
            || g.error.ObjectKeyLimitExceeded?)
  {
    var e := KeyValuePairAt(c, LineContent(c.lines[pos]), depth, pos + 1);
    if e.Ok? {
      InsertFacts(c.expand, f, e.value.value.key, e.value.value.value, e.value.next);
    }
  }

  /** The loop of `parseObject`: from entries that keep the object invariant,
      it builds an object that keeps it and stays within the key limit; it
      stops at the end of the input or at a shallower line without consuming
      it, and a deeper line where an entry is expected is an indentation error. */
  lemma {:induction false} ObjectLoopFacts(c: Ctx, depth: nat, pos: nat, f: Fields)
    requires c.indent > 0 && pos <= |c.lines|
    requires KeysMatch(f) && (f.keyOrder == [] || |f.keyOrder| <= c.limits.maxObjectKeys)
    ensures var r := ObjectLoop(c, depth, pos, f);
      r.Ok? ==>
        && r.value.value.Object?
        && KeysMatch(FieldsOf(r.value.value))
        && (r.value.value.keyOrder == [] || |r.value.value.keyOrder| <= c.limits.maxObjectKeys)
        && EndsObject(c, depth, r.value.next)
    ensures pos < |c.lines| && c.lines[pos] != [] && LineDepth(c.lines[pos], c.indent) > depth ==>
      ObjectLoop(c, depth, pos, f) == Err(InvalidIndentation(pos + 1))
    decreases |c.lines| - pos
  {
    if pos == |c.lines| {
    } else if c.lines[pos] == [] {
      ObjectLoopFacts(c, depth, pos + 1, f);
    } else if LineDepth(c.lines[pos], c.indent) == depth {
      var g := ObjectEntryAt(c, depth, pos, f);
      ObjectEntryFacts(c, depth, pos, f);
      if g.Ok? {
        ObjectLoopFacts(c, depth, g.value.next, g.value.value);
      }
    }
  }

  /** `parseObject`: the depth limit is checked first; an object read is
      well formed at its own level, holds at most `maxObjectKeys` keys and
      ends where `EndsObject` says. */
  lemma ObjectAtFacts(c: Ctx, depth: nat, pos: nat)
    requires c.indent > 0 && pos <= |c.lines|
    ensures depth > c.limits.maxDepth ==> ObjectAt(c, depth, pos) == Err(DepthLimitExceeded(depth, c.limits.maxDepth))
    ensures var r := ObjectAt(c, depth, pos);
      r.Ok? ==>
        && r.value.value.Object?
        && NoDuplicates(r.value.value.keyOrder)
        && (forall k :: k in r.value.value.values <==> k in r.value.value.keyOrder)
        && (r.value.value.keyOrder == [] || |r.value.value.keyOrder| <= c.limits.maxObjectKeys)
        && EndsObject(c, depth, r.value.next)
  {
    ObjectLoopFacts(c, depth, pos, Fields(map[], []));
  }

  // ---------------------------------------------------------------------------
  // Tabular rows

  /** The object of a row has exactly the fields as keys; when no field is
      repeated, field `i` holds value `i`. */
  lemma {:induction false} RowValuesFacts(fields: seq<string>, values: seq<Value>)
    requires |fields| == |values|
    ensures forall k :: k in RowValues(fields, values) <==> k in fields
    ensures NoDuplicates(fields) ==>
      forall i :: 0 <= i < |fields| ==> RowValues(fields, values)[fields[i]] == values[i]
  {
    if fields != [] {
      var n := |fields| - 1;
      RowValuesFacts(fields[..n], values[..n]);
      assert fields == fields[..n] + [fields[n]];
      if NoDuplicates(fields) {
        forall i | 0 <= i < |fields|
          ensures RowValues(fields, values)[fields[i]] == values[i]
        {
          if i < n {
            assert fields[..n][i] == fields[i];
            assert values[..n][i] == values[i];
          }
        }
      }
    }
  }

  /** A row line: it must sit at `depth + 1` and hold one value per field;
      it becomes an object whose key order is the field list and whose
      field `i` holds value `i` of the line. */
  lemma TabularRowFacts(c: Ctx, fields: seq<string>, d: char, depth: nat, p: nat)
    requires c.indent > 0 && p < |c.lines|
    ensures var r := TabularRowAt(c, fields, d, depth, p);
      var values := DelimitedValues(LineContent(c.lines[p]), d);
      && (LineDepth(c.lines[p], c.indent) != depth + 1 ==> r == Err(InvalidIndentation(p + 1)))
      && (LineDepth(c.lines[p], c.indent) == depth + 1 && values.Ok? && |values.value| != |fields| ==>
            r == Err(FieldCountMismatch(|fields|, |values.value|, p + 1)))
      && (r.Ok? ==>
            && values.Ok? && |values.value| == |fields|
            && r.value.Object? && r.value.keyOrder == fields
            && (forall k :: k in r.value.values <==> k in fields)
            && (NoDuplicates(fields) ==> forall i :: 0 <= i < |fields| ==> r.value.values[fields[i]] == values.value[i]))
  {
    var values := DelimitedValues(LineContent(c.lines[p]), d);
    if values.Ok? && |values.value| == |fields| {
      RowValuesFacts(fields, values.value);
    }
  }

  /** Whether every row from index `from` on is an object keyed by `fields`
      in that order. */
  predicate RowsKeyedBy(rows: seq<Value>, from: nat, fields: seq<string>)
  {
    forall i :: from <= i < |rows| ==> rows[i].Object? && rows[i].keyOrder == fields
  }

  /** `parseListItems` adds at most `remaining` items to those read so far
      and stops early only at the end of the input. */
  lemma {:induction false} ListItemsFacts(c: Ctx, remaining: nat, depth: nat, pos: nat, items: seq<Value>)
    requires c.indent > 0 && pos <= |c.lines|
    ensures var r := ListItemsAt(c, remaining, depth, pos, items);
      r.Ok? ==>
        && |items| <= |r.value.value| <= |items| + remaining
        && (|r.value.value| < |items| + remaining ==> r.value.next == |c.lines|)
    decreases remaining
  {
    if remaining > 0 {
      var p := SkipEmpty(c.lines, pos);
      if p < |c.lines| && LineDepth(c.lines[p], c.indent) == depth + 1 {
        var content := LineContent(c.lines[p]);
        if IsListItem(content) {
          var item := ListItemAt(c, content[2..], depth + 1, p + 1);
          if item.Ok? {
            ListItemsFacts(c, remaining - 1, depth, item.value.next, items + [item.value.value]);
          }
        }
      }
    }
  }

  /** Where the fields of a list-item object end: at the end of the input,
      at a line that is not one level below the item, or at the next `- `
      line. */
  predicate EndsListItem(c: Ctx, depth: nat, next: nat)
    requires c.indent > 0 && next <= |c.lines|
  {
    next == |c.lines|
    || (c.lines[next] != [] &&
        (LineDepth(c.lines[next], c.indent) != depth + 1 || IsListItem(LineContent(c.lines[next]))))
  }

  /** The field loop of `parseListItemContent`: the object it returns is
      well formed and keeps the keys read so far in their order, a later key
      being appended and a repeated key keeping its place; the loop stops
      where `EndsListItem` says; and when the first non-empty line already
      ends the item, the fields are returned unchanged. */
  lemma {:induction false} ListItemFieldsFacts(c: Ctx, depth: nat, pos: nat, f: Fields)
    requires c.indent > 0 && pos <= |c.lines|
    requires KeysMatch(f)
    ensures var r := ListItemFieldsAt(c, depth, pos, f);
      r.Ok? ==>
        && r.value.value.Object?
        && KeysMatch(FieldsOf(r.value.value))
        && f.keyOrder <= r.value.value.keyOrder
        && EndsListItem(c, depth, r.value.next)
    ensures var q := SkipEmpty(c.lines, pos);
      EndsListItem(c, depth, q) ==>
        ListItemFieldsAt(c, depth, pos, f) == Ok(Parsed(Object(f.values, f.keyOrder), q))
    decreases |c.lines| - pos
  {
    if pos == |c.lines| {
    } else if c.lines[pos] == [] {
      ListItemFieldsFacts(c, depth, pos + 1, f);
    } else if LineDepth(c.lines[pos], c.indent) != depth + 1 || IsListItem(LineContent(c.lines[pos])) {
    } else {
      var g := ListItemFieldAt(c, depth, pos, f);
      if g.Ok? {
        var e := KeyValuePairAt(c, LineContent(c.lines[pos]), depth + 1, pos + 1);
        InsertPlainFacts(f, e.value.value.key, e.value.value.value);
        ListItemFieldsFacts(c, depth, g.value.next, g.value.value);
      }
    }
  }

  // ---------------------------------------------------------------------------
  // Arrays

  /** `parseArrayContent`: a count above the limit fails before any line is
      read; inline values and an empty array consume no line; tabular items are objects
      keyed by the header's fields; and a block with no line left to read
      ends in a count mismatch. */
  lemma ArrayContentFacts(c: Ctx, h: ArrayHeader, rest: string, depth: nat, pos: nat)
    requires c.indent > 0 && pos <= |c.lines|
    ensures var r := ArrayContentAt(c, h, rest, depth, pos);
      var inline := TrimLeadingSpace(rest);
      && (h.count > c.limits.maxArrayLength ==> r == Err(ArrayLengthLimitExceeded(h.count, c.limits.maxArrayLength)))
      && (r.Ok? && (inline != [] || h.count == 0) ==> r.value.next == pos)
      && (r.Ok? && inline == [] && h.fields.Some? ==> RowsKeyedBy(r.value.value.items, 0, h.fields.value))
      && (h.count <= c.limits.maxArrayLength && inline == [] && h.count > 0 && SkipEmpty(c.lines, pos) == |c.lines| ==>
            r == Err(CountMismatch(h.count, 0, |c.lines|)))
  {
    var inline := TrimLeadingSpace(rest);
    if h.count <= c.limits.maxArrayLength && inline == [] && h.count > 0 {
      if h.fields.Some? {
        assert SkipEmpty(c.lines, pos) == |c.lines| ==>
          TabularRowsAt(c, h.count, h.fields.value, h.delimiter, depth, pos, []) == Ok(Parsed([], |c.lines|));
      } else {
        assert SkipEmpty(c.lines, pos) == |c.lines| ==> ListItemsAt(c, h.count, depth, pos, []) == Ok(Parsed([], |c.lines|));
      }
    }
  }

  /** The inline text as `parseArrayContent` finds it on the header's line:
      after the last colon of the line, wherever the header itself ends. */
  function InlineTextAsWritten(content: string): (r: string)
    ensures ':' !in r
  {
    var i := LastIndexOf(content, ':');
    if i.None? then [] else TrimLeadingSpace(content[i.value + 1..])
  }

  /** The inline values of the root array line `[1]: "a:b"` as
      `parseArrayContent` finds them, after the line's last colon: the one
      bare string `b"`, where the line holds the one string `a:b`. */
  lemma InlineColonAsWritten()
    ensures DelimitedValues(InlineTextAsWritten("[1]: \"a:b\""), ',') == Ok([Str("b\"")])
  {
    ColonLineAsWritten();
    StrayQuoteValue();
  }

  /** The same line read from the header's own colon on, as Descent does:
      the header `[1]:` ends at position 4 and the inline values are the one
      string `a:b`. */
  lemma InlineColonCorrected()
    ensures var content := "[1]: \"a:b\"";
      var h := HeaderOf(content);
      && h == Ok(HeaderParse(ArrayHeader(None, 1, ',', None, false), 4))
      && DelimitedValues(TrimLeadingSpace(RestOf(content, h.value)), ',') == Ok([Str("a:b")])
  {
    var content := "[1]: \"a:b\"";
    ColonLineHeader();
    var hp := HeaderParse(ArrayHeader(None, 1, ',', None, false), 4);
    assert RestOf(content, hp) == content[4..];
    assert TrimLeadingSpace(content[4..]) == "\"a:b\"";
    QuotedColonValue();
  }

  /** The header of `[1]: "a:b"`, stage by stage. */
  lemma ColonLineHeader()
    ensures HeaderOf("[1]: \"a:b\"") == Ok(HeaderParse(ArrayHeader(None, 1, ',', None, false), 4))
  {
    var content := "[1]: \"a:b\"";
    var kp := KeyPart(None, 0);
    assert HeaderKey(content) == Ok(kp);
    LeadingDigitsExact(content[1..], 1);
    assert content[1..][..1] == "1";
    assert DigitsOf("1") == Some(1) by {
      assert "1"[..0] == [];
    }
    var cp := CountPart(false, 1, 2);
    assert HeaderCountPart(content, 0) == Ok(cp);
    var dp := DelimiterPart(',', 3);
    assert HeaderDelimiter(content, 2) == Ok(dp);
    var fp := FieldsPart(None, 3);
    assert HeaderFieldsPart(content, ',', 3) == Ok(fp);
    HeaderOfStages(content, kp, cp, dp, fp);
  }

  /** The last colon of `[1]: "a:b"` is the one inside the quotes. */
  lemma ColonLineAsWritten()
    ensures InlineTextAsWritten("[1]: \"a:b\"") == "b\""
  {
    var content := "[1]: \"a:b\"";
    assert content[..9][..8] == content[..8];
    assert LastIndexOf(content, ':') == Some(7);
    assert content[8..] == "b\"";
  }

  lemma QuotedColonValue()
    ensures DelimitedValues("\"a:b\"", ',') == Ok([Str("a:b")])
  {
    var t := "\"a:b\"";
    OneValue(t, ',');
    assert t[1..|t| - 1] == "a:b";
    UnescapePlain("a:b");
    QuotedToken(t);
    assert [Str("a:b")] + [] == [Str("a:b")];
  }

  lemma StrayQuoteValue()
    ensures DelimitedValues("b\"", ',') == Ok([Str("b\"")])
  {
    var t := "b\"";
    OneValue(t, ',');
    assert DigitsOf(t) == None;
    assert !IsDoubleToken(t) by {
      assert '.' !in t && 'e' !in t && 'E' !in t;
    }
    BareStringToken(t);
    assert [Str("b\"")] + [] == [Str("b\"")];
  }

  /** The splitting loop on a line without the delimiter extends the current
      piece by the whole line and closes nothing. */
  lemma {:induction false} RunWithoutDelimiter(st: Splitter, s: string, d: char)
    requires d !in s
    ensures Run(st, s, d).done == st.done && Run(st, s, d).cur == st.cur + s
    decreases |s|
  {
    if s != [] {
      RunWithoutDelimiter(Step(st, s[0], d), s[1..], d);
      assert st.cur + s == (st.cur + [s[0]]) + s[1..];
    }
  }

  /** A token without the delimiter and without padding is a single value. */
  lemma OneValue(t: string, d: char)
    requires d !in t && t != [] && !IsWhitespace(t[0]) && !IsWhitespace(t[|t| - 1])
    ensures DelimitedValues(t, d) == Cons(ParsePrimitiveValue(t), Ok([]))
  {
    var f := Run(SplitStart, t, d);
    RunWithoutDelimiter(SplitStart, t, d);
    assert f.done == [] && f.cur == t;
    assert Pieces(t, d) == [t];
    assert Trim(t) == t;
    ParseAllOne(t);
    assert DelimitedValues(t, d) == ParseAll([t]);
  }

  // ---------------------------------------------------------------------------
  // The root of a document

  /** `enumerated().filter`: exactly the positions of the non-empty lines... */
  lemma {:induction false} NonEmptyIndicesMembers(lines: seq<string>)
    ensures forall k: nat :: k in NonEmptyIndices(lines) <==> k < |lines| && lines[k] != []
  {
    if lines != [] {
      var n := |lines| - 1;
      var prefix := NonEmptyIndices(lines[..n]);
      NonEmptyIndicesMembers(lines[..n]);
      assert NonEmptyIndices(lines) == prefix + (if lines[n] == [] then [] else [n]);
      forall k: nat
        ensures k in NonEmptyIndices(lines) <==> k < |lines| && lines[k] != []
      {
        if k < n {
          assert lines[..n][k] == lines[k];
        }
      }
    }
  }

  /** Strictly increasing positions. */
  predicate Increasing(s: seq<nat>) {
    forall i, j :: 0 <= i < j < |s| ==> s[i] < s[j]
  }

  /** ... listed in increasing order. */
  lemma {:induction false} NonEmptyIndicesSorted(lines: seq<string>)
    ensures Increasing(NonEmptyIndices(lines))
  {
    if lines != [] {
      var n := |lines| - 1;
      NonEmptyIndicesSorted(lines[..n]);
      assert NonEmptyIndices(lines) == NonEmptyIndices(lines[..n]) + (if lines[n] == [] then [] else [n]);
    }
  }

  /** The first non-empty line is the first position listed, and it is the
      only one exactly when every later line is empty. */
  lemma {:induction false} FirstNonEmpty(lines: seq<string>, p: nat)
    requires p < |lines| && lines[p] != []
    requires forall k :: 0 <= k < p ==> lines[k] == []
    ensures var r := NonEmptyIndices(lines);
      && r != [] && r[0] == p
      && ((forall k :: p < k < |lines| ==> lines[k] == []) <==> |r| == 1)
  {
    var n := |lines| - 1;
    if n == p {
      assert forall k :: 0 <= k < n ==> lines[..n][k] == lines[k];
      NoNonEmptyIndices(lines[..n]);
    } else {
      FirstNonEmpty(lines[..n], p);
      assert forall k :: p < k < n ==> lines[..n][k] == lines[k];
    }
  }

  /** Without a non-empty line there is no position to list. */
  lemma {:induction false} NoNonEmptyIndices(lines: seq<string>)
    requires forall k :: 0 <= k < |lines| ==> lines[k] == []
    ensures NonEmptyIndices(lines) == []
  {
    if lines != [] {
      var n := |lines| - 1;
      assert forall k :: 0 <= k < n ==> lines[..n][k] == lines[k];
      NoNonEmptyIndices(lines[..n]);
    }
  }

  /** A document without a non-empty line is an empty object. */
  lemma EmptyDocument(c: Ctx)
    requires c.indent > 0
    requires forall k :: 0 <= k < |c.lines| ==> c.lines[k] == []
    ensures Parse(c) == Ok(EmptyObject)
  {
    NoNonEmptyIndices(c.lines);
  }

  /** The root of a document whose first non-empty line is `p`: a keyless
      array header there makes a root array; otherwise a single non-empty
      line without a key separator is one primitive; anything else is an
      object read from the first line. */
  lemma RootShape(c: Ctx, p: nat)
    requires c.indent > 0 && p < |c.lines| && c.lines[p] != []
    requires forall k :: 0 <= k < p ==> c.lines[k] == []
    ensures var content := LineContent(c.lines[p]);
      var r := Parse(c);
      var arrayRoot := content != [] && content[0] == '[' && HeaderOf(content).Ok?;
      var single := forall k :: p < k < |c.lines| ==> c.lines[k] == [];
      && (arrayRoot ==> r == Drop(ArrayAtLine(c, 0, p)) && (r.Ok? ==> r.value.Array?))
      && (!arrayRoot && single && KeyValueSeparator(content).None? ==>
            r == ParsePrimitiveValue(content) && (r.Ok? ==> r.value.IsPrimitive()))
      && (!arrayRoot && !(single && KeyValueSeparator(content).None?) ==>
            r == Drop(ObjectAt(c, 0, 0)) && (r.Ok? ==> r.value.Object?))
  {
    FirstNonEmpty(c.lines, p);
    ObjectAtFacts(c, 0, 0);
  }
}

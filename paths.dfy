/** Building an object's entries as a parser reads its lines: plain insertion
    of a key and the `.safe` dotted-key expansion (`expandDottedKey`,
    `buildNestedObject`, `isValidDottedPath`, `isValidIdentifier`). */
module Paths {
  import opened ToonValue
  import opened Text
  import opened Numbers

  /** The entries of an object under construction. */
  datatype Fields = Fields(values: map<string, Value>, keyOrder: seq<string>)

  /** The object invariant on entries under construction. */
  ghost predicate KeysMatch(f: Fields)
  {
    NoDuplicates(f.keyOrder) && (forall k :: k in f.values <==> k in f.keyOrder)
  }

  /** `if !keyOrder.contains(key) { keyOrder.append(key) }`. */
  function AddKey(keyOrder: seq<string>, key: string): (r: seq<string>)
    ensures key in r
    ensures forall k :: k in r <==> k in keyOrder || k == key
    ensures NoDuplicates(keyOrder) ==> NoDuplicates(r)
    ensures key in keyOrder ==> r == keyOrder
    ensures key !in keyOrder ==> |r| == |keyOrder| + 1 && r[..|keyOrder|] == keyOrder
  {
    if key in keyOrder then keyOrder else keyOrder + [key]
  }

  /** Plain insertion: the last value for a key wins and the key keeps the
      position of its first occurrence. */
  function InsertPlain(f: Fields, key: string, value: Value): (r: Fields)
  {
    Fields(f.values[key := value], AddKey(f.keyOrder, key))
  }

  lemma InsertPlainFacts(f: Fields, key: string, value: Value)
    requires KeysMatch(f)
    ensures var r := InsertPlain(f, key, value);
      && KeysMatch(r)
      && r.values[key] == value
      && (forall k :: k in f.values && k != key ==> k in r.values && r.values[k] == f.values[k])
      && (key in f.values ==> r.keyOrder == f.keyOrder)
      && (key !in f.values ==> r.keyOrder == f.keyOrder + [key])
  {
  }

  // ---------------------------------------------------------------------------
  // Identifiers and dotted paths (ASCII letters and digits)

  predicate IsLetter(c: char)
  {
    'A' <= c <= 'Z' || 'a' <= c <= 'z'
  }

  /** `isValidIdentifier`: a letter or `_`, then letters, digits or `_`. */
  predicate IsValidIdentifier(s: string)
  {
    && s != []
    && (IsLetter(s[0]) || s[0] == '_')
    && forall i :: 1 <= i < |s| ==> IsLetter(s[i]) || IsDigit(s[i]) || s[i] == '_'
  }

  /** `isValidDottedPath`: more than one non-empty `.`-segment, each an identifier. */
  predicate IsValidDottedPath(key: string)
  {
    var segments := SplitOmittingEmpty(key, '.');
    |segments| > 1 && forall i :: 0 <= i < |segments| ==> IsValidIdentifier(segments[i])
  }

  lemma DottedPathHasDot(key: string)
    requires IsValidDottedPath(key)
    ensures '.' in key
  {
    if '.' !in key {
      NoDotOneSegment(key);
    }
  }

  lemma NoDotOneSegment(key: string)
    requires '.' !in key
    ensures |SplitOmittingEmpty(key, '.')| <= 1
  {
    SplitNoSeparator(key, '.');
    assert [key][1..] == [];
    assert NonEmpty([key][1..]) == [];
    assert SplitOmittingEmpty(key, '.') == NonEmpty([key]);
  }

  lemma {:induction false} SplitNoSeparator(s: string, c: char)
    requires c !in s
    ensures Split(s, c) == [s]
  {
    if s != [] {
      SplitNoSeparator(s[1..], c);
      assert [s[0]] + s[1..] == s;
    }
  }

  // ---------------------------------------------------------------------------
  // `buildNestedObject`

  /** A chain of single-key objects, one per segment, ending in `value`. */
  function BuildNestedObject(segments: seq<string>, value: Value): (r: Value)
  {
    if segments == [] then value
    else Object(map[segments[0] := BuildNestedObject(segments[1..], value)], [segments[0]])
  }

  /** Looks a path up through nested objects. */
  function Resolve(v: Value, path: seq<string>): (r: Option<Value>)
  {
    if path == [] then Some(v)
    else if v.Object? && path[0] in v.values then Resolve(v.values[path[0]], path[1..])
    else None
  }

  /** Following the segments back through the built chain finds the value. */
  lemma {:induction false} BuildNestedResolves(segments: seq<string>, value: Value)
    ensures Resolve(BuildNestedObject(segments, value), segments) == Some(value)
  {
    if segments != [] {
      BuildNestedResolves(segments[1..], value);
    }
  }

  /** Every level of the chain is a well-formed object with exactly one key. */
  lemma {:induction false} BuildNestedWellFormed(segments: seq<string>, value: Value)
    requires WellFormed(value)
    ensures WellFormed(BuildNestedObject(segments, value))
  {
    if segments != [] {
      BuildNestedWellFormed(segments[1..], value);
      var r := BuildNestedObject(segments, value);
      assert r.keyOrder == [segments[0]];
      assert forall k :: k in r.values <==> k == segments[0];
    }
  }

  // ---------------------------------------------------------------------------
  // The collision walk of `expandDottedKey`

  /** The walk as the source writes it: at an absent intermediate segment it
      records an empty object in the current level but stays on that level,
      so the next segment is looked up beside it instead of inside it.
      True when the walk reports a collision. */
  function CollidesAsWritten(m: map<string, Value>, segments: seq<string>, i: nat): bool
    requires i < |segments|
    decreases |segments| - i
  {
    if i == |segments| - 1 then false
    else
      var segment := segments[i];
      if segment in m then
        if !m[segment].Object? then true
        else if i == |segments| - 2 then false
        else CollidesAsWritten(m[segment].values, segments, i + 1)
      else if i == |segments| - 2 then false
      else CollidesAsWritten(m[segment := EmptyObject], segments, i + 1)
  }

  /** The walk descending into the fresh empty object at an absent segment.
      True when the walk reports a collision. */
  function Collides(m: map<string, Value>, segments: seq<string>, i: nat): bool
    requires i < |segments|
    decreases |segments| - i
  {
    if i == |segments| - 1 then false
    else
      var segment := segments[i];
      if segment in m then
        if !m[segment].Object? then true
        else Collides(m[segment].values, segments, i + 1)
      else Collides(map[], segments, i + 1)
  }

  /** Looks a non-empty path up inside an object's mapping. */
  function ResolveIn(m: map<string, Value>, path: seq<string>): (r: Option<Value>)
    requires path != []
    decreases |path|
  {
    if path[0] !in m then None
    else if |path| == 1 then Some(m[path[0]])
    else if m[path[0]].Object? then ResolveIn(m[path[0]].values, path[1..])
    else None
  }

  /** A path prefix of the segments from `i` that leads to a value that is not an object. */
  predicate BlockedAt(m: map<string, Value>, segments: seq<string>, i: nat, j: nat)
    requires i < j <= |segments|
  {
    var found := ResolveIn(m, segments[i..j]);
    found.Some? && !found.value.Object?
  }

  lemma {:induction false} CollidesEmpty(segments: seq<string>, i: nat)
    requires i < |segments|
    ensures !Collides(map[], segments, i)
    decreases |segments| - i
  {
    if i < |segments| - 1 {
      CollidesEmpty(segments, i + 1);
    }
  }

  /** The corrected walk reports a collision exactly when an intermediate
      path (all segments but the last, or a shorter prefix) already leads to
      a value that is not an object. */
  lemma {:induction false} CollidesIff(m: map<string, Value>, segments: seq<string>, i: nat)
    requires i < |segments|
    ensures Collides(m, segments, i) <==> exists j :: i < j < |segments| && BlockedAt(m, segments, i, j)
    decreases |segments| - i
  {
    if i == |segments| - 1 {
    } else {
      var segment := segments[i];
      if segment in m {
        if !m[segment].Object? {
          assert segments[i..i + 1] == [segment];
          assert BlockedAt(m, segments, i, i + 1);
        } else {
          var nested := m[segment].values;
          CollidesIff(nested, segments, i + 1);
          forall j | i + 1 < j <= |segments|
            ensures ResolveIn(m, segments[i..j]) == ResolveIn(nested, segments[i + 1..j])
          {
            assert segments[i..j][1..] == segments[i + 1..j];
          }
          assert segments[i..i + 1] == [segment];
          if Collides(m, segments, i) {
            var j :| i + 1 < j < |segments| && BlockedAt(nested, segments, i + 1, j);
            assert BlockedAt(m, segments, i, j);
          }
          if exists j :: i < j < |segments| && BlockedAt(m, segments, i, j) {
            var j :| i < j < |segments| && BlockedAt(m, segments, i, j);
            assert BlockedAt(nested, segments, i + 1, j);
          }
        }
      } else {
        CollidesEmpty(segments, i + 1);
        forall j | i < j <= |segments|
          ensures ResolveIn(m, segments[i..j]) == None
        {
        }
      }
    }
  }

  /** With `b: 1` already present, `a.b.c` is reported as a collision by the
      walk as written although the path `a` does not exist yet. */
  lemma FalseCollisionAsWritten()
    ensures var m := map["b" := Int(1)];
      && CollidesAsWritten(m, ["a", "b", "c"], 0)
      && !Collides(m, ["a", "b", "c"], 0)
      && ResolveIn(m, ["a"]) == None
  {
    var m := map["b" := Int(1)];
    var segments := ["a", "b", "c"];
    assert "a" !in m;
    assert CollidesAsWritten(m, segments, 0) == CollidesAsWritten(m["a" := EmptyObject], segments, 1);
    assert !Collides(map[], segments, 1) by { CollidesEmpty(segments, 1); }
  }

  // ---------------------------------------------------------------------------
  // `expandDottedKey`

  /** The entries after inserting `key` with dotted-path expansion; `line` is
      the parser's line counter reported with a collision. */
  function ExpandDotted(f: Fields, key: string, value: Value, line: int): (r: Result<Fields>)
  {
    var segments := SplitOmittingEmpty(key, '.');
    if |segments| <= 1 then Ok(InsertPlain(f, key, value))
    else if Collides(f.values, segments, 0) then Err(PathCollision(line))
    else Ok(Fields(f.values[segments[0] := BuildNestedObject(segments[1..], value)], AddKey(f.keyOrder, segments[0])))
  }

  /** What `parseObject` does with each key and value it reads. */
  function Insert(expand: PathExpansion, f: Fields, key: string, value: Value, line: int): (r: Result<Fields>)
  {
    if expand == Safe && '.' in key && IsValidDottedPath(key) then ExpandDotted(f, key, value, line)
    else Ok(InsertPlain(f, key, value))
  }

  /** Insertion keeps the object invariant, fails only with a path collision,
      and an expanded key replaces the entry of its first segment with the
      chain of the remaining segments, dropping what was there before. */
  lemma InsertFacts(expand: PathExpansion, f: Fields, key: string, value: Value, line: int)
    requires KeysMatch(f)
    ensures var r := Insert(expand, f, key, value, line);
      && (r.Ok? ==> KeysMatch(r.value))
      && (r.Err? ==> r.error == PathCollision(line) && expand == Safe && IsValidDottedPath(key))
      && (r.Ok? && expand == Safe && IsValidDottedPath(key) ==>
            var segments := SplitOmittingEmpty(key, '.');
            segments[0] in r.value.values && Resolve(r.value.values[segments[0]], segments[1..]) == Some(value))
      && (expand == Disabled ==> r == Ok(InsertPlain(f, key, value)))
  {
    var segments := SplitOmittingEmpty(key, '.');
    if expand == Safe && IsValidDottedPath(key) {
      DottedPathHasDot(key);
      BuildNestedResolves(segments[1..], value);
    }
  }

  /** The loop of `expandDottedKey`, with the walk corrected to descend into
      a freshly created level. */
  method ExpandDottedKey(f: Fields, key: string, value: Value, line: int) returns (r: Result<Fields>)
    ensures r == ExpandDotted(f, key, value, line)
  {
    var segments := SplitOmittingEmpty(key, '.');
    if |segments| <= 1 {
      var order := f.keyOrder;
      if key !in order {
        order := order + [key];
      }
      return Ok(Fields(f.values[key := value], order));
    }
    var firstKey := segments[0];
    var order := f.keyOrder;
    if firstKey !in order {
      order := order + [firstKey];
    }
    var current := f.values;
    var i := 0;
    while i < |segments| - 1
      invariant 0 <= i <= |segments| - 1
      invariant Collides(f.values, segments, 0) == Collides(current, segments, i)
    {
      var segment := segments[i];
      if segment in current {
        if !current[segment].Object? {
          return Err(PathCollision(line));
        }
        current := current[segment].values;
      } else {
        current := map[];
      }
      i := i + 1;
    }
    return Ok(Fields(f.values[firstKey := BuildNestedObject(segments[1..], value)], order));
  }
}

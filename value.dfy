/** Shared vocabulary of the TOON engine: the value tree that both directions
    exchange, the closed error taxonomy of the decoder and its resource limits. */
module ToonValue {

  datatype Option<+T> = None | Some(value: T)

  /** Signed 64-bit integers, the payload of an integer value. */
  type Int64 = x: int | -0x8000_0000_0000_0000 <= x <= 0x7FFF_FFFF_FFFF_FFFF

  const INT64_MAX: int := 0x7FFF_FFFF_FFFF_FFFF

  /** The value tree. A double keeps the literal text it was read from:
      floating-point arithmetic and formatting are outside this model.
      An object is a mapping plus the order in which its keys were first inserted. */
  datatype Value =
    | Null
    | Bool(b: bool)
    | Int(i: Int64)
    | Double(lit: string)
    | Str(s: string)
    | Array(items: seq<Value>)
    | Object(values: map<string, Value>, keyOrder: seq<string>)
  {
    predicate IsPrimitive() { !Array? && !Object? }
  }

  const EmptyObject: Value := Object(map[], [])

  predicate NoDuplicates<T(==)>(s: seq<T>)
  {
    forall i, j :: 0 <= i < j < |s| ==> s[i] != s[j]
  }

  /** The object invariant: the key list has no duplicates and lists exactly
      the keys of the mapping; it holds at every level of the tree. */
  ghost predicate WellFormed(v: Value)
  {
    match v
    case Array(items) => forall i :: 0 <= i < |items| ==> WellFormed(items[i])
    case Object(values, keyOrder) =>
      && NoDuplicates(keyOrder)
      && (forall k :: k in values <==> k in keyOrder)
      && (forall k :: k in values ==> WellFormed(values[k]))
    case _ => true
  }

  /** The decoder's error kinds with their integer context; message texts are not modelled. */
  datatype DecodeError =
    | InvalidFormat
    | InvalidIndentation(line: int)
    | InvalidEscapeSequence
    | CountMismatch(expected: int, actual: int, line: int)
    | FieldCountMismatch(expected: int, actual: int, line: int)
    | UnexpectedBlankLine(line: int)
    | InvalidHeader
    | TypeMismatch
    | KeyNotFound
    | DataCorrupted
    | PathCollision(line: int)
    | InputTooLarge(size: int, limit: int)
    | DepthLimitExceeded(depth: int, limit: int)
    | ObjectKeyLimitExceeded(count: int, limit: int)
    | ArrayLengthLimitExceeded(length: int, limit: int)

  datatype Result<+T> = Ok(value: T) | Err(error: DecodeError)
  {
    predicate IsFailure() { Err? }

    function PropagateFailure<U>(): Result<U>
      requires Err?
    {
      Err(error)
    }

    function Extract(): T
      requires Ok?
    {
      value
    }
  }

  /** Resource limits of one decode call. */
  datatype Limits = Limits(maxInputSize: int, maxDepth: int, maxObjectKeys: int, maxArrayLength: int)

  const DefaultLimits: Limits := Limits(10 * 1024 * 1024, 128, 10000, 100000)

  /** Every limit at the largest 64-bit value, for trusted input. */
  const UnlimitedLimits: Limits := Limits(INT64_MAX, INT64_MAX, INT64_MAX, INT64_MAX)

  datatype PathExpansion = Disabled | Safe
}

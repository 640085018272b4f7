# TOON encoder and decoder core, modelled in Dafny

TOON (Token-Oriented Object Notation) is a line-based text format for JSON-like
values. It uses indentation for nesting and `key: value` lines for objects. An
array is introduced by a header such as `items[3]{id,name}:` and written inline,
as a table or as a list of `- ` items. This project models the two halves of
the Swift implementation that turn a value tree into TOON text and back:

* the **decoder** (`Sources/TOONDecoder/TOONDecoder.swift`):
  * the intermediate `Value` tree, the error taxonomy and the decoding limits;
  * the line-oriented recursive-descent `Parser` class: root detection,
    objects, nested values, array headers, inline, tabular and list arrays,
    list items, delimited values, primitive classification, unescaping and
    dotted-key expansion;
  * the integer-width checks of `DecodingHelpers`;
* the **encoder** (`Sources/TOONEncoder/TOONEncoder.swift`):
  * the emitters that append lines to the output (`encodeValue`,
    `encodeObject`, `encodeKeyValuePair`, `encodeObjectAsListItem` and the
    `encodeArray` family);
  * tabular detection, header formatting, value joining and indentation;
  * the quoting rules for strings and keys.

Every stateful operation is modelled twice:

* as a pure specification function (the `Descent`, `Header`, `Scan`,
  `Primitive`, `Paths` and `Emit` modules);
* as an imperative method proved equal to it:
  * the decoder's `Parser` is a class whose `currentLine` cursor the methods
    advance;
  * the encoder's `inout [String]` output is an input sequence and the
    returned, extended sequence.

The lemmas then prove what the format promises of those functions:

* The cursor moves forward and stays in bounds.
* Objects keep their key list and mapping in step.
* The decoder reports the error kinds the source throws. On the inputs named
  under "## Left out", the model follows the corrected rule of a
  "## Findings" row instead of the source.
* The decoder reads back what the encoder writes. `RoundTrip.DecodeEncode`
  proves `decode(encode(v)) == v` for every delimiter and length-marker
  option, without path expansion, for the values of `Written.Supported`:
  objects; primitives other than doubles; inline arrays; arrays of inline
  arrays; tables; and mixed arrays written as lists of `- ` items whose
  elements are primitives, inline arrays or objects whose first value is a
  primitive. The parts it is built from cover:
  * keys and every primitive other than a double;
  * string literals, under either quoting;
  * array headers (key, count, delimiter, field list, length marker);
  * inline arrays, table rows and indentation.

Modules:

* `ToonValue`: `Value`, `DecodeError`, `Limits`.
* `Text`: trimming, splitting, joining.
* `Numbers`: 64-bit integer text, the float-literal grammar, integer widths.
* `Scan`: the quote-aware scanners and unescaping.
* `Header`: `parseArrayHeader`.
* `Primitive`: token classification, delimited values, field lists.
* `Paths`: dotted-key expansion.
* `Descent`: the parser as functions.
* `DescentFacts`: lemmas about `Descent`.
* `ParserImpl`: the `Parser` class.
* `Quoting`: escaping and the safe-unquoted rules.
* `Emit`: the encoder as functions.
* `EncoderImpl`: the encoder's methods.
* `EncodeFacts`: the read-back lemmas for tokens, headers and lines.
* `LineShapes`: what the decoder's line scans see in the encoder's lines.
* `Written`: the covered values and the shape of their lines.
* `RoundTrip`: the decoder's parse of each block the encoder writes, and the
  whole-document round trip.

## Model

| member | source | states |
|---|---|---|
| Text.TrimShape | Sources/TOONDecoder/TOONDecoder.swift:959-960 | `trimmingCharacters(in: .whitespaces)` yields a slice of the input; everything outside it is whitespace; a non-empty result neither starts nor ends with whitespace |
| Text.Trim | Sources/TOONEncoder/TOONEncoder.swift:1418-1420 | text that does not start or end with whitespace is not padded: trimming returns it unchanged |
| Text.Split | Sources/TOONDecoder/TOONDecoder.swift:236-238 | splitting on line feeds keeps empty pieces, so there is always at least one line, and no line holds a line feed |
| Text.SplitJoin | Sources/TOONDecoder/TOONDecoder.swift:236-238 | splitting text joined with a separator that no part contains gives the parts back |
| Text.ReplaceCRLFNoCR | Sources/TOONDecoder/TOONDecoder.swift:236-237 | the CR LF replacement leaves text without carriage returns unchanged |
| Text.Repeat | Sources/TOONEncoder/TOONEncoder.swift:602-605 | the indentation has exactly the requested width and holds only that character |
| Text.Utf8Length | Sources/TOONDecoder/TOONDecoder.swift:97-100 | the byte size checked against `maxInputSize` is between one and four bytes per character |
| Text.FirstIndexOf | Sources/TOONDecoder/TOONDecoder.swift:593-598 | `firstIndex(of:)` finds the first occurrence, with none before it, or reports that there is none |
| Text.LastIndexOf | Sources/TOONDecoder/TOONDecoder.swift:711-713 | `lastIndex(of:)` finds the last occurrence, with none after it, or reports that there is none |
| Text.SplitOmittingEmpty | Sources/TOONDecoder/TOONDecoder.swift:1038 | `split(separator: ".")` yields only non-empty segments without dots |
| Numbers.DigitsOfAll | Sources/TOONDecoder/TOONDecoder.swift:567-576 | a character run has a decimal value exactly when it consists of ASCII digits |
| Numbers.NatToDecimal | Sources/TOONEncoder/TOONEncoder.swift:495-496 | the decimal spelling consists of digits only and has no leading zero |
| Numbers.IntToDecimalShape | Sources/TOONEncoder/TOONEncoder.swift:495-496 | `String(intValue)` begins with `-` or a digit and ends with a digit |
| Numbers.IntToDecimalRoundTrip | Sources/TOONDecoder/TOONDecoder.swift:986-988 | `Int64(_:)` reads the encoder's spelling of every 64-bit integer back as that integer |
| Numbers.Int64IsDecimalFloat | Sources/TOONDecoder/TOONDecoder.swift:986-992 | every text `Int64(_:)` accepts is also a decimal float literal, so the integer branch takes priority over the double branch |
| Numbers.NanPayloadExample | Sources/TOONDecoder/TOONDecoder.swift:989-990 | `Double(_:)` accepts `nan(0x1e)`, a NaN with a hexadecimal payload, which is neither a decimal nor a hexadecimal literal |
| Numbers.DecodeInteger | Sources/TOONDecoder/TOONDecoder.swift:1671-1759 | the width checks accept exactly an integer value within the target width and return it unchanged; a non-integer gives a type mismatch; an integer out of range gives corrupted data |
| Scan.KeyValueSeparator | Sources/TOONDecoder/TOONDecoder.swift:439-474 | the separator found is a colon outside quotes and brackets, and no earlier position is one |
| Scan.FindKeyValueSeparator | Sources/TOONDecoder/TOONDecoder.swift:439-474 | the scanning loop returns exactly that separator |
| Scan.IsKeyValuePair | Sources/TOONDecoder/TOONDecoder.swift:280-313 | the loop answers true exactly when the line has such a separator |
| Scan.ClosingQuote | Sources/TOONDecoder/TOONDecoder.swift:617-634 | the quote found is the first unescaped quote after the opening one |
| Scan.FindClosingQuote | Sources/TOONDecoder/TOONDecoder.swift:617-634 | the scanning loop returns exactly that position |
| Scan.PiecesJoin | Sources/TOONDecoder/TOONDecoder.swift:916-948 | splitting on the delimiter outside quotes loses nothing: the pieces joined with the delimiter give the line back |
| Scan.Unescape | Sources/TOONDecoder/TOONDecoder.swift:1000-1028 | unescaping fails only with an invalid-escape error and never lengthens the text |
| Scan.UnescapePlain | Sources/TOONDecoder/TOONDecoder.swift:1000-1028 | text without a backslash unescapes to itself |
| Scan.UnescapeFailsOnBadEscape | Sources/TOONDecoder/TOONDecoder.swift:1005-1025 | after text that unescapes cleanly, an unknown escape or a trailing backslash makes unescaping fail, whatever follows |
| Scan.UnescapeFailureAt | Sources/TOONDecoder/TOONDecoder.swift:1005-1025 | conversely, a failed unescaping has a first bad backslash: the text before it unescapes cleanly, and the backslash is last or followed by a character that cannot be escaped |
| Scan.UnescapeString | Sources/TOONDecoder/TOONDecoder.swift:1000-1028 | the loop computes exactly `Unescape` |
| Scan.LeadingSpaces | Sources/TOONDecoder/TOONDecoder.swift:317-324 | the count covers only spaces and stops before a non-space |
| Scan.LineContentIs | Sources/TOONDecoder/TOONDecoder.swift:317-327 | the content of a line is what follows its leading spaces |
| Scan.IndentedLine | Sources/TOONDecoder/TOONDecoder.swift:317-328 | `indent * depth` spaces before content that does not start with a space read back as that depth and that content |
| Scan.TrimIndentation | Sources/TOONDecoder/TOONDecoder.swift:317-328 | the loop returns the line's depth (spaces divided by the indent size) and its content |
| Header.LeadingDigitsFacts | Sources/TOONDecoder/TOONDecoder.swift:567-572 | the count loop stops at the first non-digit, having read only digits |
| Header.HeaderKey | Sources/TOONDecoder/TOONDecoder.swift:536-552 | the key stage stays within the line and fails only with an invalid header or an invalid escape |
| Header.HeaderCountPart | Sources/TOONDecoder/TOONDecoder.swift:554-576 | the bracket, marker and count stage consumes at least one character and fails only with an invalid header |
| Header.HeaderDelimiter | Sources/TOONDecoder/TOONDecoder.swift:578-589 | the delimiter stage yields comma, tab or pipe, consumes the closing bracket, and fails only with an invalid header |
| Header.HeaderFieldsPart | Sources/TOONDecoder/TOONDecoder.swift:591-601 | the field-list stage stays within the line and fails only with an invalid header or an invalid escape |
| Header.HeaderColon | Sources/TOONDecoder/TOONDecoder.swift:603-606 | a header ends with a colon, and the rest of the line starts just after it |
| Header.HeaderOf | Sources/TOONDecoder/TOONDecoder.swift:530-615 | a parsed header ends with a colon just before the rest of the line and has one of the three delimiters; `parseArrayHeader` throws only an invalid header or an invalid escape sequence |
| Header.ParseArrayHeader | Sources/TOONDecoder/TOONDecoder.swift:530-615 | the method composed of the four scanning stages computes exactly `HeaderOf` |
| Header.ScanKey | Sources/TOONDecoder/TOONDecoder.swift:536-552 | the quoted or bare key scan computes exactly the key stage |
| Header.ScanCount | Sources/TOONDecoder/TOONDecoder.swift:554-576 | the `[`, marker and digit loop computes exactly the count stage |
| Header.ScanDelimiter | Sources/TOONDecoder/TOONDecoder.swift:578-589 | the delimiter indicator and `]` scan computes exactly the delimiter stage |
| Header.ScanFields | Sources/TOONDecoder/TOONDecoder.swift:591-601 | the braced field-list scan computes exactly the field stage |
| Primitive.ParsePrimitiveValue | Sources/TOONDecoder/TOONDecoder.swift:959-996 | the classification always yields a primitive, and fails only with an invalid escape sequence; the lemmas below pin down each class, a double being any token `Double(_:)` accepts, NaN payloads included, that holds `.`, `e` or `E` |
| Primitive.ParsePrimitiveFails | Sources/TOONDecoder/TOONDecoder.swift:966-970 | it fails exactly when the trimmed token is quoted and its inner text has a bad escape |
| Primitive.ParsePrimitiveBareString | Sources/TOONDecoder/TOONDecoder.swift:994-995 | an unquoted token read as a string is exactly its trimmed text |
| Primitive.ParsePrimitiveInt | Sources/TOONDecoder/TOONDecoder.swift:985-988 | an integer result is the 64-bit value of the trimmed text |
| Primitive.BareStringToken | Sources/TOONDecoder/TOONDecoder.swift:959-996 | an unpadded, unquoted token that is neither a keyword nor a number reads as that very string; a number here is what `Int64(_:)` accepts, or what `Double(_:)` accepts (decimal, hexadecimal, `inf`, `infinity`, `nan`, `snan` in any case and with a sign, or `nan` with a hexadecimal payload) when it holds `.`, `e` or `E` |
| Primitive.DoubleToken | Sources/TOONDecoder/TOONDecoder.swift:989-990 | an unpadded, unquoted token that `Int64(_:)` rejects, that `Double(_:)` accepts in any of those spellings, and that holds `.`, `e` or `E` reads as a double |
| Primitive.QuotedToken | Sources/TOONDecoder/TOONDecoder.swift:966-970 | a quoted token reads as the unescaping of its inner text |
| Primitive.KeywordTokens | Sources/TOONDecoder/TOONDecoder.swift:972-983 | `null`, `true` and `false` read as null and the two booleans |
| Primitive.IntToken | Sources/TOONDecoder/TOONDecoder.swift:985-988 | the decimal spelling of a 64-bit integer reads as that integer |
| Primitive.IntegerToken | Sources/TOONDecoder/TOONDecoder.swift:985-988 | an unpadded token that `Int64(_:)` accepts reads as that integer |
| Primitive.ParseKey | Sources/TOONDecoder/TOONDecoder.swift:476-487 | an unquoted key is its trimmed text; only a quoted key can fail, and only with an invalid escape sequence |
| Primitive.ParseAll | Sources/TOONDecoder/TOONDecoder.swift:941-954 | parsing the pieces yields one primitive per piece, in order |
| Primitive.DelimitedValues | Sources/TOONDecoder/TOONDecoder.swift:916-957 | all results are primitives; the result is empty only for a blank line; otherwise there is one value per piece |
| Primitive.ParseDelimitedValues | Sources/TOONDecoder/TOONDecoder.swift:916-957 | the character loop computes exactly `DelimitedValues` |
| Primitive.DelimitedFinish | Sources/TOONDecoder/TOONDecoder.swift:950-956 | after the loop, a blank last piece is dropped only when no value was read; otherwise it is parsed and appended |
| Primitive.DelimitedFailure | Sources/TOONDecoder/TOONDecoder.swift:941-943 | a piece that fails to parse makes the whole line fail with that piece's error |
| Primitive.ParseKeys | Sources/TOONDecoder/TOONDecoder.swift:661-672 | field names parse one per piece, and fail only with an invalid escape sequence |
| Primitive.FieldsList | Sources/TOONDecoder/TOONDecoder.swift:636-675 | there is one field per piece, except that an empty last piece is dropped; failures are invalid escapes |
| Primitive.ParseFieldsList | Sources/TOONDecoder/TOONDecoder.swift:636-675 | the character loop computes exactly `FieldsList` |
| Primitive.FieldsFinish | Sources/TOONDecoder/TOONDecoder.swift:670-672 | after the loop, the last piece becomes a field unless it is empty |
| Primitive.FieldsFailure | Sources/TOONDecoder/TOONDecoder.swift:661-662 | a field name that fails to parse makes the whole list fail with its error |
| Quoting.Escaped | Sources/TOONEncoder/TOONEncoder.swift:1400-1407 | escaping leaves no raw line feed, carriage return or tab, and never shortens the text |
| Quoting.EscapedKeeps | Sources/TOONEncoder/TOONEncoder.swift:1400-1407 | any other character appears after escaping exactly when it appeared before |
| Quoting.EscapedIsEscapeEach | Sources/TOONEncoder/TOONEncoder.swift:1400-1407 | the five chained replacements, backslash first, escape each character on its own |
| Quoting.UnescapeEscaped | Sources/TOONDecoder/TOONDecoder.swift:1000-1028 | the decoder's `unescapeString` undoes the encoder's `escaped` for every text |
| Quoting.NumericLikeIsDecimalFloat | Sources/TOONEncoder/TOONEncoder.swift:1409-1416 | every text `isNumericLike` matches is a decimal float literal |
| Quoting.EncodeStringLiteralAsWritten | Sources/TOONEncoder/TOONEncoder.swift:534-542 | the source's `encodeStringLiteral` writes the text bare or quotes and escapes it |
| Quoting.EncodeStringLiteral | Sources/TOONEncoder/TOONEncoder.swift:534-542 | with the corrected safety rule, the text is written bare exactly when `isSafeUnquoted` holds and the decoder would not read it as a number, hexadecimal, non-finite and NaN-payload spellings included; otherwise it is quoted and escaped |
| Quoting.SafeTokenShape | Sources/TOONEncoder/TOONEncoder.swift:1422-1470 | a text `isSafeUnquoted` accepts is neither padded nor quoted |
| Quoting.QuotedLiteral | Sources/TOONEncoder/TOONEncoder.swift:534-542 | a quoted, escaped literal reads back as the text it quotes |
| Quoting.EncodeStringLiteralReadsBack | Sources/TOONEncoder/TOONEncoder.swift:534-542 | with the corrected safety rule, every string value the encoder writes is classified by the decoder as that same string, hexadecimal and NaN-payload spellings included |
| Quoting.HexStringAsWritten | Sources/TOONEncoder/TOONEncoder.swift:1409-1437 | as written, `0xe` passes `isSafeUnquoted`, is written bare, and is decoded as a double |
| Quoting.HexStringQuoted | Sources/TOONEncoder/TOONEncoder.swift:534-542 | with the corrected safety rule, `0xe` is quoted and reads back as the string |
| Quoting.NanPayloadAsWritten | Sources/TOONEncoder/TOONEncoder.swift:1409-1470 | as written, `nan(0x1e)` passes `isSafeUnquoted`, is written bare, and is decoded as a double |
| Quoting.NanPayloadQuoted | Sources/TOONEncoder/TOONEncoder.swift:534-542 | with the corrected safety rule, `nan(0x1e)` is quoted and reads back as the string |
| Quoting.PlusSignAsWritten | Sources/TOONEncoder/TOONEncoder.swift:1409-1437 | as written, `+5` passes `isSafeUnquoted`, is written bare, and is decoded as the integer 5 |
| Quoting.EncodeKey | Sources/TOONEncoder/TOONEncoder.swift:544-550 | a key is written bare exactly when `isValidUnquotedKey` holds, otherwise quoted and escaped |
| Quoting.EncodeKeyRoundTrip | Sources/TOONEncoder/TOONEncoder.swift:544-550 | the decoder's `parseKey` gives back every key the encoder writes |
| Paths.AddKey | Sources/TOONDecoder/TOONDecoder.swift:391-393 | appending a key leaves the order unchanged when the key is present, adds it otherwise, and keeps the list free of duplicates |
| Paths.InsertPlainFacts | Sources/TOONDecoder/TOONDecoder.swift:390-394 | a plain insertion stores the value; it leaves other keys alone; it appends a new key at the end of the key order; it keeps keys and mapping in step |
| Paths.DottedPathHasDot | Sources/TOONDecoder/TOONDecoder.swift:1770-1775 | a valid dotted path contains a dot |
| Paths.NoDotOneSegment | Sources/TOONDecoder/TOONDecoder.swift:1038-1046 | a key without a dot splits into at most one segment |
| Paths.BuildNestedResolves | Sources/TOONDecoder/TOONDecoder.swift:1101-1109 | following the segments through the built chain finds the value |
| Paths.BuildNestedWellFormed | Sources/TOONDecoder/TOONDecoder.swift:1101-1109 | every level of the built chain is an object with exactly one key |
| Paths.CollidesIff | Sources/TOONDecoder/TOONDecoder.swift:1057-1095 | the corrected walk reports a collision exactly when some intermediate prefix of the path already leads to a non-object |
| Paths.FalseCollisionAsWritten | Sources/TOONDecoder/TOONDecoder.swift:1086-1092 | as written, with `b: 1` present, the walk reports `a.b.c` as a collision although `a` does not exist; the corrected walk does not |
| Paths.InsertFacts | Sources/TOONDecoder/TOONDecoder.swift:386-394 | inserting a key keeps keys and mapping in step and fails only with a path collision on an expanded dotted key; an expanded key's value is reachable through its segments; without expansion the insertion is plain |
| Paths.ExpandDottedKey | Sources/TOONDecoder/TOONDecoder.swift:1032-1099 | the segment walk computes exactly `ExpandDotted`, which uses the corrected walk of the third "## Findings" row |
| Descent.SkipEmpty | Sources/TOONDecoder/TOONDecoder.swift:342-346 | skipping stops at the first non-empty line or at the end |
| Descent.ObjectAt | Sources/TOONDecoder/TOONDecoder.swift:350-403 | parsing an object only moves the cursor forward, within the document |
| Descent.KeyValuePairAt | Sources/TOONDecoder/TOONDecoder.swift:405-437 | parsing a key-value pair only moves the cursor forward, within the document |
| Descent.NestedValueAt | Sources/TOONDecoder/TOONDecoder.swift:489-520 | parsing a nested value only moves the cursor forward, within the document |
| Descent.ArrayContentAt | Sources/TOONDecoder/TOONDecoder.swift:696-754 | a parsed array has exactly the header's count of items, and the cursor only moves forward; inline values are read after the header's own colon, the corrected rule of the second "## Findings" row |
| Descent.TabularRowsAt | Sources/TOONDecoder/TOONDecoder.swift:756-800 | the rows read keep the earlier rows, are objects keyed by the fields, and number at most `count`; fewer only at the end of the document |
| Descent.TabularRowAt | Sources/TOONDecoder/TOONDecoder.swift:772-796 | a row is an object whose key order is the field list |
| Descent.ListItemsAt | Sources/TOONDecoder/TOONDecoder.swift:802-839 | parsing list items only moves the cursor forward, within the document |
| Descent.ListItemAt | Sources/TOONDecoder/TOONDecoder.swift:841-912 | parsing one list item only moves the cursor forward, within the document |
| DescentFacts.ListItemFieldsFacts | Sources/TOONDecoder/TOONDecoder.swift:880-905 | the field loop of a list item returns a well-keyed object that keeps the fields read so far in their order, a new key being appended and a repeated key keeping its place; it stops at the end of the input, at a line not one level below the item or at the next `- ` line; when the first non-empty line already stops it, the fields are returned unchanged |
| Descent.NonEmptyIndices | Sources/TOONDecoder/TOONDecoder.swift:247 | every listed position is a non-empty line of the document |
| Descent.ArrayAtLine | Sources/TOONDecoder/TOONDecoder.swift:686-694 | an array at the current line is an array and consumes at least its header line |
| Descent.Lines | Sources/TOONDecoder/TOONDecoder.swift:236-238 | the document always has at least one line |
| DescentFacts.ObjectEntryFacts | Sources/TOONDecoder/TOONDecoder.swift:381-399 | one entry keeps keys and mapping in step and the key count within the limit; without expansion it is the plain insertion; it fails only when the pair fails, on a path collision, or on the key limit |
| DescentFacts.ObjectLoopFacts | Sources/TOONDecoder/TOONDecoder.swift:359-400 | the loop returns a well-keyed object within the key limit, stopping where the object ends; a deeper line gives an invalid indentation on that line |
| DescentFacts.ObjectAtFacts | Sources/TOONDecoder/TOONDecoder.swift:350-403 | beyond `maxDepth` the depth-limit error is thrown; otherwise the object has no duplicate keys, its keys and mapping agree, and its key count is within `maxObjectKeys` |
| DescentFacts.RowValuesFacts | Sources/TOONDecoder/TOONDecoder.swift:791-796 | a row object has exactly the field keys, and with distinct fields the i-th field maps to the i-th value |
| DescentFacts.TabularRowFacts | Sources/TOONDecoder/TOONDecoder.swift:772-796 | a wrong depth gives an invalid indentation; a wrong value count gives a field-count mismatch; a parsed row holds the values in field order |
| DescentFacts.ListItemsFacts | Sources/TOONDecoder/TOONDecoder.swift:802-839 | at most `count` items are read, fewer only when the document ends |
| DescentFacts.ArrayContentFacts | Sources/TOONDecoder/TOONDecoder.swift:696-754 | the array-length limit is checked first; inline and empty arrays consume no further line; tabular rows are keyed by the fields; a count with no lines left gives a count mismatch |
| DescentFacts.InlineTextAsWritten | Sources/TOONDecoder/TOONDecoder.swift:711-713 | as written, the inline text is taken after the last colon of the line, so it holds no colon |
| DescentFacts.InlineColonAsWritten | Sources/TOONDecoder/TOONDecoder.swift:711-726 | as written, `[1]: "a:b"` decodes as the one-element array holding `b"` |
| DescentFacts.InlineColonCorrected | Sources/TOONDecoder/TOONDecoder.swift:711-726 | reading the inline values after the header's own colon decodes `[1]: "a:b"` as `["a:b"]` |
| DescentFacts.NonEmptyIndicesMembers | Sources/TOONDecoder/TOONDecoder.swift:247 | `enumerated().filter` keeps exactly the positions of non-empty lines |
| DescentFacts.NonEmptyIndicesSorted | Sources/TOONDecoder/TOONDecoder.swift:247 | those positions are listed in increasing order |
| DescentFacts.FirstNonEmpty | Sources/TOONDecoder/TOONDecoder.swift:247-256 | the first listed position is the first non-empty line; there is one position exactly when no later line is non-empty |
| DescentFacts.EmptyDocument | Sources/TOONDecoder/TOONDecoder.swift:249-252 | a document without a non-empty line decodes as the empty object |
| DescentFacts.RootShape | Sources/TOONDecoder/TOONDecoder.swift:245-277 | root detection: a keyless header gives an array; a single line without a separator gives a primitive; anything else gives an object parsed from line 0 |
| ParserImpl.Parser.constructor | Sources/TOONDecoder/TOONDecoder.swift:235-243 | the lines are the text with CR LF normalised, split on line feeds; the cursor starts at 0 |
| ParserImpl.Parser.PeekLine | Sources/TOONDecoder/TOONDecoder.swift:330-333 | the line under the cursor, or none at the end |
| ParserImpl.Parser.ConsumeLine | Sources/TOONDecoder/TOONDecoder.swift:335-340 | the line under the cursor and the cursor one further; none and no move at the end |
| ParserImpl.Parser.SkipEmptyLines | Sources/TOONDecoder/TOONDecoder.swift:342-346 | the cursor moves to the next non-empty line or the end |
| ParserImpl.Parser.Parse | Sources/TOONDecoder/TOONDecoder.swift:245-277 | `parse()` returns exactly the specification's root parse |
| ParserImpl.Parser.ParseArrayAtCurrentLine | Sources/TOONDecoder/TOONDecoder.swift:686-694 | the result and the final cursor are those of `ArrayAtLine` |
| ParserImpl.Parser.ParseHeaderLine | Sources/TOONDecoder/TOONDecoder.swift:689-693 | after the header line is consumed, the result and cursor are those of `ArrayAtLine` on that line |
| ParserImpl.Parser.ParseObject | Sources/TOONDecoder/TOONDecoder.swift:350-403 | the result and the final cursor are those of `ObjectAt` |
| ParserImpl.Parser.ParseObjectEntry | Sources/TOONDecoder/TOONDecoder.swift:366-399 | one pass of the object loop matches `ObjectEntryAt` |
| ParserImpl.Parser.ParseKeyValuePair | Sources/TOONDecoder/TOONDecoder.swift:405-437 | the result and the final cursor are those of `KeyValuePairAt` |
| ParserImpl.Parser.ParseNestedValue | Sources/TOONDecoder/TOONDecoder.swift:489-520 | the result and the final cursor are those of `NestedValueAt` |
| ParserImpl.Parser.ParseArrayContent | Sources/TOONDecoder/TOONDecoder.swift:696-754 | the result and the final cursor are those of `ArrayContentAt`, so inline values are read after the header's own colon |
| ParserImpl.Parser.ParseTabularRows | Sources/TOONDecoder/TOONDecoder.swift:756-800 | the rows and the final cursor are those of `TabularRowsAt` |
| ParserImpl.Parser.ParseTabularPass | Sources/TOONDecoder/TOONDecoder.swift:762-796 | one pass of the row loop advances `TabularRowsAt` by one row, or ends it |
| ParserImpl.Parser.ParseTabularRow | Sources/TOONDecoder/TOONDecoder.swift:772-796 | the row read from the consumed line is `TabularRowAt` |
| ParserImpl.Parser.ParseListItems | Sources/TOONDecoder/TOONDecoder.swift:802-839 | the items and the final cursor are those of `ListItemsAt` |
| ParserImpl.Parser.ParseListItemPass | Sources/TOONDecoder/TOONDecoder.swift:807-835 | one pass of the item loop advances `ListItemsAt` by one item, ends it, or fails with its error |
| ParserImpl.Parser.ParseListItemContent | Sources/TOONDecoder/TOONDecoder.swift:841-912 | the result and the final cursor are those of `ListItemAt` |
| ParserImpl.Parser.ParseListItemFields | Sources/TOONDecoder/TOONDecoder.swift:880-905 | the further fields and the final cursor are those of `ListItemFieldsAt` |
| ParserImpl.Parser.ParseListItemField | Sources/TOONDecoder/TOONDecoder.swift:882-904 | one pass of the field loop matches `ListItemFieldAt` |
| ParserImpl.Parser.ParseFirstField | Sources/TOONDecoder/TOONDecoder.swift:849-878 | the first field of a list item matches `FirstFieldAt` |
| ParserImpl.BuildRow | Sources/TOONDecoder/TOONDecoder.swift:792-795 | the field loop builds exactly the row mapping `RowValues` |
| ParserImpl.DecodeText | Sources/TOONDecoder/TOONDecoder.swift:97-109 | the size check, then the parser, compute exactly `Decode` |
| Emit.Delimiter.Char | Sources/TOONEncoder/TOONEncoder.swift:38-47 | each delimiter option is one of the three delimiters a header can name |
| Emit.WellFormedFirstKeys | Sources/TOONEncoder/TOONEncoder.swift:179-182 | in a well-formed value, the first key of every object has a value, so the force-unwrap of `encodeObjectAsListItem` never traps |
| Emit.EncodePrimitive | Sources/TOONEncoder/TOONEncoder.swift:487-532 | a token is produced exactly for primitives; arrays and objects give none; strings go through the corrected `EncodeStringLiteral` |
| EncodeFacts.QuotedPasses | Sources/TOONDecoder/TOONDecoder.swift:916-948 | the value splitter keeps a quoted, escaped token whole, whatever text it quotes |
| EncodeFacts.PrimitivePasses | Sources/TOONEncoder/TOONEncoder.swift:487-532 | every token the encoder writes for a non-double primitive passes whole through the decoder's splitter |
| EncodeFacts.KeyPasses | Sources/TOONEncoder/TOONEncoder.swift:544-550 | so does every key the encoder writes |
| EncodeFacts.PiecesOfJoin | Sources/TOONDecoder/TOONDecoder.swift:916-948 | splitting tokens joined with the delimiter gives back the tokens, when each one passes whole |
| EncodeFacts.EncodePrimitiveReadsBack | Sources/TOONEncoder/TOONEncoder.swift:487-532 | the token for a non-double primitive is unpadded, and the decoder classifies it as that primitive, whatever `Int64(_:)` and `Double(_:)` would accept |
| EncodeFacts.EncodedValuesShape | Sources/TOONEncoder/TOONEncoder.swift:596-600 | joining keeps one token per value, each passing whole, and the tokens parse back to the values |
| EncodeFacts.JoinedValuesReadBack | Sources/TOONEncoder/TOONEncoder.swift:596-600 | `parseDelimitedValues` reads back exactly the values `joinEncodedValues` joined |
| EncodeFacts.FieldsListRoundTrip | Sources/TOONEncoder/TOONEncoder.swift:586-588 | `parseFieldsList` reads back exactly the field names a header lists |
| EncodeFacts.QuotedKeyCloses | Sources/TOONDecoder/TOONDecoder.swift:617-634 | the decoder finds the closing quote of a quoted key where the encoder put it |
| EncodeFacts.FormatHeaderRoundTrip | Sources/TOONEncoder/TOONEncoder.swift:569-594 | `parseArrayHeader` reads back the key, count, delimiter, field list and length marker of every header `formatHeader` writes, with the rest of the line right after it |
| EncodeFacts.HeaderWidth | Sources/TOONEncoder/TOONEncoder.swift:569-594 | the parsed header ends exactly where the formatted header ends |
| EncodeFacts.LineReadBack | Sources/TOONEncoder/TOONEncoder.swift:602-605 | `trimIndentation` reads back the depth and content of every line `write` produces |
| EncodeFacts.InlineArrayReadBack | Sources/TOONEncoder/TOONEncoder.swift:554-567 | an inline array line reads back as its header, then exactly its values |
| EncodeFacts.HeaderValuesAll | Sources/TOONEncoder/TOONEncoder.swift:476 | `compactMap` over the header takes one cell per header key, in header order, when the row has them all |
| EncodeFacts.TabularRowReadBack | Sources/TOONEncoder/TOONEncoder.swift:476-481 | a row line reads back as the row's cells; the decoder's row object built from them is the row's own mapping |
| EncodeFacts.DetectedHeaderKeys | Sources/TOONEncoder/TOONEncoder.swift:442-471 | the header `detectTabularHeader` returns lists every row's keys exactly, once each, with a primitive under each |
| EncodeFacts.TabularLinesAll | Sources/TOONEncoder/TOONEncoder.swift:473-483 | `writeTabularRows` writes one line per row, the row's cells in header order |
| EncodeFacts.TabularReadBack | Sources/TOONEncoder/TOONEncoder.swift:379-396 | every line of a table the encoder writes reads back as its row |
| LineShapes.KeySeparator | Sources/TOONDecoder/TOONDecoder.swift:439-474 | on a line the encoder starts with a key and a colon, the key-value separator is that colon |
| LineShapes.TokenHasNoSeparator | Sources/TOONDecoder/TOONDecoder.swift:267-271 | a primitive's token on its own has no key-value separator, so a root primitive is not read as an object |
| LineShapes.KeyLineNotHeader | Sources/TOONDecoder/TOONDecoder.swift:407-410 | a key line whose value holds no `[` is not an array header |
| LineShapes.HeaderLineSeparator | Sources/TOONDecoder/TOONDecoder.swift:280-313 | a keyed header line has a key-value separator, so a document that starts with one is read as an object |
| LineShapes.HeaderOneLine | Sources/TOONEncoder/TOONEncoder.swift:569-594 | a header the encoder formats holds no line break |
| LineShapes.InlineOneLine | Sources/TOONEncoder/TOONEncoder.swift:554-567 | an inline array line holds no line break |
| LineShapes.LineOneLine | Sources/TOONEncoder/TOONEncoder.swift:602-605 | `write` keeps a one-line content on one non-empty line |
| Written.LinesOfJoin | Sources/TOONDecoder/TOONDecoder.swift:236-238 | the encoder's lines joined with line feeds split back into exactly those lines |
| Written.ValueLinesClean | Sources/TOONEncoder/TOONEncoder.swift:105-130 | every line the encoder writes for a covered value is one non-empty line of text |
| Written.ListItemLinesClean | Sources/TOONEncoder/TOONEncoder.swift:411-437 | every line of an element of the list layout is one non-empty line of text |
| Written.ItemHead | Sources/TOONEncoder/TOONEncoder.swift:168-196 | the first line of an element of the list layout is `- ` and one line of text: the token, the inline array, or the first key and value of an object whose other entries follow one level deeper |
| Written.HeaderLineReadBack | Sources/TOONDecoder/TOONDecoder.swift:317-328 | a header line reads back at its depth with the header as its content |
| Written.KeyValueHead | Sources/TOONEncoder/TOONEncoder.swift:146-166 | the first line of an entry starts with the encoded key, and has a key-value separator |
| Written.ArrayKeyHead | Sources/TOONEncoder/TOONEncoder.swift:155-156 | the first line of a keyed array is the key followed by the header |
| Written.ObjectHead | Sources/TOONEncoder/TOONEncoder.swift:134-144 | the first line of a non-empty object is the line of its first key |
| RoundTrip.KeyLineCases | Sources/TOONDecoder/TOONDecoder.swift:417-436 | on a `key:` line, an empty value part gives the nested value at depth + 1 under the key; otherwise the parsed primitive of the value part, without moving the cursor; errors pass through |
| RoundTrip.PrimitiveEntryReads | Sources/TOONDecoder/TOONDecoder.swift:405-436 | a `key: token` line the encoder writes reads back as that key and primitive |
| RoundTrip.NestedEntryReads | Sources/TOONDecoder/TOONDecoder.swift:428-431 | a `key:` line reads back as that key with the nested value below it |
| RoundTrip.EmptyNested | Sources/TOONDecoder/TOONDecoder.swift:489-500 | when no deeper line follows, the nested value is the empty object |
| RoundTrip.ObjectNested | Sources/TOONDecoder/TOONDecoder.swift:489-519 | a key line at the expected depth starts a nested object |
| RoundTrip.ListItemArray | Sources/TOONDecoder/TOONDecoder.swift:841-846 | a `- [N]...` item is read as the array its header introduces |
| RoundTrip.ListItemKeyLine | Sources/TOONDecoder/TOONDecoder.swift:848-878 | on a `key: value` item, the first field is the primitive on the line, or the nested value below it when the value part is empty, and the item is what the field loop makes of an object holding that field alone; errors pass through |
| RoundTrip.FieldStep | Sources/TOONDecoder/TOONDecoder.swift:880-904 | on a key line one level below the item, the field loop reads that entry, stores it without path expansion, and goes on from the line after it |
| RoundTrip.InlineLineReads | Sources/TOONDecoder/TOONDecoder.swift:696-726 | an inline array line the encoder writes reads back as its header and exactly its values |
| RoundTrip.InlineItemsReads | Sources/TOONDecoder/TOONDecoder.swift:802-839 | the `- ` lines of an array of inline arrays read back as exactly those arrays, ending where they end |
| RoundTrip.RowsReads | Sources/TOONDecoder/TOONDecoder.swift:756-800 | the rows of a table the encoder writes read back as exactly those row objects, ending where they end |
| RoundTrip.ArrayBlockReads | Sources/TOONDecoder/TOONDecoder.swift:686-754 | every array block the encoder writes (inline, list of inline arrays, table, list of mixed elements) reads back as that array, with the cursor after its last line |
| RoundTrip.CompactBlockReads | Sources/TOONDecoder/TOONDecoder.swift:686-754 | an inline array, an array of inline arrays or a table reads back as that array |
| RoundTrip.ListBlockReads | Sources/TOONEncoder/TOONEncoder.swift:398-438 | the list layout of a mixed array, a header alone and then `- ` items one level deeper, reads back as that array |
| RoundTrip.ListItemsReadsFrom | Sources/TOONDecoder/TOONDecoder.swift:802-839 | `parseListItems` reads the elements the encoder writes from a given one on, after those before it, and stops after the last line |
| RoundTrip.ItemReads | Sources/TOONDecoder/TOONDecoder.swift:841-912 | each element the encoder writes in the list layout (`- token`, `- [N]: values` or an object) reads back as a list item equal to it, with the cursor after its last line |
| RoundTrip.ObjectItemReads | Sources/TOONEncoder/TOONEncoder.swift:168-289 | an object written by `encodeObjectAsListItem` with a primitive first value reads back: the first entry from the `- ` line, the others from the lines one level deeper, keys in order |
| RoundTrip.ListFieldsReads | Sources/TOONDecoder/TOONDecoder.swift:880-905 | the field loop over the entries the encoder writes one level below a list item rebuilds exactly the object, keys in order, and stops after its last line |
| RoundTrip.PrimitiveBlockReads | Sources/TOONEncoder/TOONEncoder.swift:150-153 | a primitive entry the encoder writes reads back as that entry |
| RoundTrip.EmptyObjectBlockReads | Sources/TOONEncoder/TOONEncoder.swift:159-160 | an empty nested object written as `key:` reads back as the empty object |
| RoundTrip.KeyValueReads | Sources/TOONEncoder/TOONEncoder.swift:146-166 | every entry the encoder writes for a covered value reads back as that key and value, with the cursor after its last line |
| RoundTrip.ObjectLinesReads | Sources/TOONDecoder/TOONDecoder.swift:359-400 | the object loop over the entries the encoder writes from a given key on rebuilds exactly the object, keys in order |
| RoundTrip.RootObjectReads | Sources/TOONDecoder/TOONDecoder.swift:245-277 | the lines of a non-empty covered object decode to that object |
| RoundTrip.RootArrayReads | Sources/TOONDecoder/TOONDecoder.swift:245-277 | the lines of a covered root array decode to that array |
| RoundTrip.RootPrimitiveReads | Sources/TOONDecoder/TOONDecoder.swift:245-277 | the line of a root primitive decodes to that primitive |
| RoundTrip.EmptyRootReads | Sources/TOONDecoder/TOONDecoder.swift:249-252 | the empty object encodes as empty text, which decodes to the empty object |
| RoundTrip.DecodeEncode | Sources/TOONEncoder/TOONEncoder.swift:105-109 | decoding the encoder's text without path expansion, within limits the value fits, gives back every covered value (mixed arrays in the list layout included), for every delimiter and length-marker option |
| EncoderImpl.Encoder.constructor | Sources/TOONEncoder/TOONEncoder.swift:7-13 | the defaults: two spaces, comma, no length marker |
| EncoderImpl.Encoder.Encode | Sources/TOONEncoder/TOONEncoder.swift:105-109 | the output lines of the value, joined with line feeds |
| EncoderImpl.Encoder.Write | Sources/TOONEncoder/TOONEncoder.swift:602-605 | appends exactly one line: `indent * depth` spaces, then the content |
| EncoderImpl.Encoder.EncodeValue | Sources/TOONEncoder/TOONEncoder.swift:114-130 | appends exactly `ValueLines` |
| EncoderImpl.Encoder.EncodeObject | Sources/TOONEncoder/TOONEncoder.swift:134-144 | appends one entry per key of the key order that has a value, in that order |
| EncoderImpl.Encoder.EncodeFields | Sources/TOONEncoder/TOONEncoder.swift:140-143 | the loop from a given key onwards appends exactly the remaining entries |
| EncoderImpl.Encoder.EncodeKeyValuePair | Sources/TOONEncoder/TOONEncoder.swift:146-166 | appends exactly `KeyValueLines` |
| EncoderImpl.Encoder.EncodeObjectAsListItem | Sources/TOONEncoder/TOONEncoder.swift:168-289 | appends exactly `ObjectAsListItemLines` |
| EncoderImpl.Encoder.EncodeFirstField | Sources/TOONEncoder/TOONEncoder.swift:179-281 | the first field on the `- ` line appends exactly `FirstFieldLines` |
| EncoderImpl.Encoder.EncodeArray | Sources/TOONEncoder/TOONEncoder.swift:293-346 | appends exactly `ArrayLines`, the first applicable layout |
| EncoderImpl.Encoder.EncodeInlinePrimitiveArray | Sources/TOONEncoder/TOONEncoder.swift:348-356 | appends the single inline line |
| EncoderImpl.Encoder.EncodeArrayOfArraysAsListItems | Sources/TOONEncoder/TOONEncoder.swift:358-377 | appends the header line, then one inline `- ` line per inner array |
| EncoderImpl.Encoder.EncodeArrayOfObjectsAsTabular | Sources/TOONEncoder/TOONEncoder.swift:379-396 | appends the header with the field list, then the table rows |
| EncoderImpl.Encoder.EncodeMixedArrayAsListItems | Sources/TOONEncoder/TOONEncoder.swift:398-438 | appends the header, then the list of elements |
| EncoderImpl.Encoder.EncodeListItems | Sources/TOONEncoder/TOONEncoder.swift:411-437 | the element loop appends exactly `ListItemsLines` |
| EncoderImpl.Encoder.DetectTabularHeader | Sources/TOONEncoder/TOONEncoder.swift:442-450 | returns exactly the specification's tabular header |
| EncoderImpl.Encoder.IsTabularArray | Sources/TOONEncoder/TOONEncoder.swift:452-471 | the early-exit scan answers exactly whether every row fits the header |
| EncoderImpl.Encoder.WriteTabularRows | Sources/TOONEncoder/TOONEncoder.swift:473-483 | appends exactly the table lines of `TabularLines` |

## Left out

- `Numbers.IsFloatLiteral`: a NaN payload is modelled as an optional `0x` and one or more hexadecimal digits, the form both glibc's and Darwin's `strtod` accept. Other payloads one of them accepts are not modelled: glibc takes any letters, digits and `_`, and Darwin allows blanks inside the parentheses. Whether `Double(_:)` returns nil for a value out of range is not modelled either; every spelling of the grammar counts as accepted.
- Doubles are modelled by their literal text only. Floating-point parsing, `formatDouble`, non-finite values and `-0` are not modelled. The read-back lemmas exclude doubles.
- `Date`, `URL` and `Data` values are not modelled, and neither is the `inObject` flag of `encodePrimitive`, which only concerns them.
- The `Codable` containers on both sides are not modelled, apart from the integer width checks (`Numbers.DecodeInteger`). They are the `Encoder` that builds the encoder's value tree and the decoder's keyed, unkeyed and single-value containers.
- UTF-8 decoding of the input bytes is not modelled. The input is text, and its byte size is computed from its code points.
- Regular expressions are written out as predicates. ICU's `$` may also match before a final line feed; that case is not modelled. `\w`, `\d`, `isLetter` and `isNumber` are ASCII-only here.
- Swift strings are sequences of grapheme clusters. The model uses single characters.
- `Descent.ListItemAt`: a list item's first field that is a nested object is read at depth + 1, while the encoder writes it at depth + 2. The model keeps the source's behaviour and proves no read-back for objects in a list whose first value is an object.
- `Emit.ListItemsLines`: like the source, this skips list elements that are arrays holding a container.
- `Emit.ListItemArrayHeader`: like the source, this writes `- key[N]:` with neither length marker nor delimiter.
- `DecodeError.UnexpectedBlankLine`: the decoder cannot raise it after `skipEmptyLines`. The model keeps the error kind but no path produces it.
- `ParserImpl.Parser.ParseListItems`: this drops the delimiter argument of `parseListItems`, which the source never uses.
- `EncoderImpl.Encoder.EncodeObjectAsListItem`: this requires the first key of every object to have a value (`Emit.FirstKeysPresent`), because the source force-unwraps it and traps otherwise.
- `EncodeFacts.FormatHeaderRoundTrip`: the field names must not contain `}`, and the field list must be non-empty. Swift's `firstIndex(of: "}")` would cut a quoted name holding `}`, and an empty list is never written.
- `Header.HeaderKey`: like the source, this takes any `[` on the line as the start of the header. So the value line `k: "x[1]:y"` is read as the array header of the key `k: "x`. The model keeps this behaviour and proves no round trip for values that hold `[`.
- `Descent.ListItemAt`: like the source, an object list item whose first field is a multi-line array (`- k[2]:` followed by rows or items) is read as a nested object under the key `k[2]`. The encoder writes that layout, and the model proves no read-back for it.
- `Descent.ArrayContentAt`: this implements the corrected rule of the second "## Findings" row, reading inline values after the header's own colon. It differs from the source on `tags[2]: "a:b",c`: the source takes the text after the last colon, `b",c`, as one value and throws a count mismatch; the model returns `["a:b", "c"]`. `DescentFacts.InlineColonAsWritten` models the source's rule.
- `ParserImpl.Parser.ParseArrayContent`: this computes `Descent.ArrayContentAt`, so it differs from the source on the same input `tags[2]: "a:b",c`.
- `Paths.ExpandDottedKey`: this implements the corrected walk of the third "## Findings" row. With path expansion on, after `b: 1` the line `a.b.c: 2` throws a path collision in the source; the model inserts `a.b.c`. `Paths.FalseCollisionAsWritten` models the source's walk.
- `Emit.EncodePrimitive`: strings go through the corrected `Quoting.EncodeStringLiteral` of the first, fourth and fifth "## Findings" rows. The source writes the strings `+5`, `.5`, `1.`, `0xe` and `nan(0x1e)` bare; the model quotes them. `Quoting.EncodeStringLiteralAsWritten` models the source's rule.
- `EncoderImpl.Encoder.EncodeValue`: the read-back of its output (`RoundTrip.DecodeEncode`) is proved only for the values of `Written.Supported` and without path expansion. Not covered: doubles; a string under a key that holds `[`; tables whose rows list their keys in another order than the header, or whose field names hold `}`; and, in the list layout of a mixed array, empty objects, objects whose first value is an array, an object or a double, and inner arrays that hold containers.
- `EncoderImpl.Encoder.EncodeObject`: the read-back of its output is proved under the same restrictions as for `EncodeValue`.
- `EncoderImpl.Encoder.EncodeKeyValuePair`: the read-back of its output is proved under the same restrictions as for `EncodeValue`.
- `EncoderImpl.Encoder.EncodeArray`: the read-back is proved for all four layouts, under the restrictions of `EncodeMixedArrayAsListItems` below for the list of mixed elements.
- `EncoderImpl.Encoder.EncodeArrayOfArraysAsListItems`: the read-back is proved only when every inner array holds primitives other than doubles. It is not proved for inner arrays that hold containers, which the source skips.
- `EncoderImpl.Encoder.EncodeMixedArrayAsListItems`: the read-back is proved when every element is a primitive other than a double, an inline array of such primitives, or an object whose first value is such a primitive. It is not proved for an empty object, written as `-`, which the decoder rejects as an invalid format. It is not proved for an object whose first value is an object or an array, which the decoder reads at another depth or under another key (see `Descent.ListItemAt` above). Arrays holding containers are skipped by the encoder.
- `EncoderImpl.Encoder.EncodeObjectAsListItem`: the read-back is proved only for an object whose first value is a primitive other than a double; see `EncodeMixedArrayAsListItems` above.
- `RoundTrip.ListBlockReads`: an object in a list must also meet the key-count limit and the depth limit at the depth of its later entries (`Written.Fits`). The decoder checks neither for the object itself, so this is stricter than the decoder.
- `Primitive.ParsePrimitiveValue`: encoding of list elements passes `inObject: false` to `encodePrimitive`, which matters only for dates, URLs and data, which are not modelled.
- Message texts of the errors are not modelled, only their kinds and integer context.
- The indent size must be positive for the parser: with 0, `trimIndentation` divides by zero and traps.

## Findings

| source | as written | input that shows it | evidently intended | confidence | as-written member | corrected member |
|---|---|---|---|---|---|---|
| Sources/TOONEncoder/TOONEncoder.swift:1409-1416 | `isNumericLike` does not match a leading `+`, so `isSafeUnquoted` lets the string `+5` be written bare | the string `"+5"` is encoded as `+5`, which the decoder reads as the integer 5 | a string the decoder would read as a number is quoted | high, not executed | Quoting.PlusSignAsWritten | Quoting.EncodeStringLiteralReadsBack |
| Sources/TOONDecoder/TOONDecoder.swift:711-713 | the inline values of an array are taken after the last colon of the line | `[1]: "a:b"` decodes as `["b\""]` | the values start after the colon that ends the header | high, not executed | DescentFacts.InlineColonAsWritten | DescentFacts.InlineColonCorrected |
| Sources/TOONDecoder/TOONDecoder.swift:1086-1092 | at an absent intermediate segment the walk records an empty object but keeps looking up the next segment at the same level | with `b: 1` present and path expansion on, `a.b.c: 2` throws a path collision | an absent segment starts a fresh object, so no collision | high, not executed | Paths.FalseCollisionAsWritten | Paths.CollidesIff |
| Sources/TOONEncoder/TOONEncoder.swift:1409-1437 | `isNumericLike` matches only decimal spellings, so `isSafeUnquoted` lets the string `0xe` be written bare, while `Double(_:)` in the decoder (Sources/TOONDecoder/TOONDecoder.swift:989-990) accepts hexadecimal spellings | the string `"0xe"` is encoded as `0xe`, which the decoder reads as the double 14.0 | a string the decoder would read as a number is quoted | high, not executed | Quoting.HexStringAsWritten | Quoting.HexStringQuoted |
| Sources/TOONEncoder/TOONEncoder.swift:1409-1470 | `isSafeUnquoted` treats parentheses as ordinary characters and `isNumericLike` matches only decimal spellings, so the string `nan(0x1e)` is written bare, while `Double(_:)` in the decoder (Sources/TOONDecoder/TOONDecoder.swift:989-990) accepts a NaN with a payload and the token holds an `e` | the string `"nan(0x1e)"` is encoded as `nan(0x1e)`, which the decoder reads as a double (NaN) | a string the decoder would read as a number is quoted | high, not executed | Quoting.NanPayloadAsWritten | Quoting.NanPayloadQuoted |

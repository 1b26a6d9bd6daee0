# A verified model of the `sjson` JSON reader

This project models the JSON reader in `Assets/Scripts/old/special_json.cs`
(namespace `sjson`). The reader turns a text into a tree of `Element`s:
`Null`, `Int`, `Float`, `String`, `Bool`, `List` and `Object`. It is a
recursive-descent parser, `op.parse`, whose routines share one cursor
passed by reference. It differs from standard JSON in a few places:

- strings may use either `"` or `'` as the quote;
- a trailing comma before `}` or `]` is accepted;
- numbers are the longest run of the characters `-0123456789.eE`;
- later duplicate keys overwrite earlier ones.

The project has six modules:

- `JsonValue` (`json_value.dfy`) holds the `Element` hierarchy as one
  datatype, `Value`. The `type` tag of the source is the constructor, and
  `int` is the 32-bit `int32`.
- `JsonGrammar` (`json_grammar.dfy`) is the reference definition. It has
  one pure function per parsing routine. Each function takes the text and
  the cursor, and returns either the value with the cursor position on
  return (`Parsed(val, next)`) or the error the routine raises. The
  messages of `JSON_Exception` are constructors of `Error`, and so are two
  of the .NET exceptions the source lets escape. Reading `str[i]` at the
  end of the input gives `IndexOutOfRange`. `int.Parse` on a value outside
  the `int` range gives `IntOverflow`, because only `FormatException` is
  caught. Two others, the `float.Parse` overflow and the stack overflow
  of deep nesting, are under "Left out".
- `JsonParser` (`json_parser.dfy`) holds the routines of `op` written as
  the source writes them: loops that move a cursor and grow the output.
  Each one is proved equal to its reference function, so every property
  below holds for the routines too.
- `JsonProperties` (`json_properties.dfy`) proves the properties of the
  reader:
  - whitespace skipping;
  - keyword matching;
  - how the first character chooses the kind of value;
  - last-write-wins for duplicate keys;
  - order of list elements;
  - a round trip for strings, escaped in either quote style;
  - a round trip for every `int` written in decimal.
- `JsonTrailing` (`json_trailing.dfy`) proves that `parse` does not read
  the text after the value it returns, apart from one character: the one
  that ends a number run. Text appended to a complete document never
  changes the result, with one exception: the value is a number that runs
  to the end of the document and the appended text starts with a number
  character, so that it continues the run (`1` then `2` reads as `12`,
  while `[]` then `5` still reads as `[]`).
- `JsonExamples` (`json_examples.dfy`) works out what `parse` returns on
  small documents: one per value kind, escapes, duplicate keys, trailing
  commas, trailing text and each error.

In three places the code does something a JSON reader might not be
expected to do, and the model follows the code:

- An unclosed list such as `[1,2` and an unterminated string such as
  `"ab` run off the end of the input. In the code this is the
  index-out-of-range exception, not "Expecting ]" or any other
  `JSON_Exception` (`UnclosedList`, `UnterminatedString`).
- `int.Parse` overflow escapes as `OverflowException`. It is not turned
  into "Invalid number" (`IntOverflowDocument`).
- `1e+5` gives "Invalid number" for the run `1e`, because `+` is not a
  number character (`PlusInExponent`).

## Model

| member | source | states |
|---|---|---|
| JsonGrammar.IsWhiteSpace | Assets/Scripts/old/special_json.cs:201-204 | the four whitespace characters (space, `\r`, `\n`, `\t`) are none of the number characters `-0123456789.eE`, so whitespace never belongs to a number |
| JsonGrammar.WhiteSpaceEnd | Assets/Scripts/old/special_json.cs:201-213 | the position returned lies between the start and the end of the text, and is the end or a non-whitespace character |
| JsonGrammar.WhiteSpaceEndSkipsWhiteSpace | Assets/Scripts/old/special_json.cs:206-213 | everything skipped is space, tab, carriage return or newline |
| JsonGrammar.LiteralAt | Assets/Scripts/old/special_json.cs:216-225 | success means the keyword fits in the rest of the text and is spelled there; it gives the given value and moves the cursor by the keyword's length; failure is "Expecting" the keyword |
| JsonGrammar.NumberRunEnd | Assets/Scripts/old/special_json.cs:227-235 | the number run ends at the end of the text or at a character outside `-0123456789.eE` |
| JsonGrammar.IsFloatText | Assets/Scripts/old/special_json.cs:240-241 | a text `float.Parse` accepts is not empty and ends in a digit or a decimal point, never in an exponent marker or a sign |
| JsonGrammar.ParseInt32 | Assets/Scripts/old/special_json.cs:245 | a text `int.Parse` does not reject as malformed ends in a digit; a negative result comes only from a text that starts with `-`, and a text without a leading `-` gives a result of at least 0 |
| JsonGrammar.NumberAt | Assets/Scripts/old/special_json.cs:227-251 | success moves the cursor to the end of the run and gives an `Int` or a `Float`; it gives a `Float` exactly when the run holds `.`, `e` or `E`; failure is "Invalid number" quoting the run, or an overflow of a run without float markers |
| JsonGrammar.Unescape | Assets/Scripts/old/special_json.cs:266-275 | `n`, `t`, `r`, `f` stand for newline, tab, carriage return, form feed; any other character stands for itself, and only those four letters change |
| JsonGrammar.StringBody | Assets/Scripts/old/special_json.cs:260-286 | on success the cursor ends just past a closing quote of the opening kind; the only way to fail is to run off the end of the text |
| JsonGrammar.StringAt | Assets/Scripts/old/special_json.cs:253-289 | success gives a `String` and leaves the cursor just past a closing quote of the same kind as the opening one; the only failure is running off the end of the text |
| JsonGrammar.ValueAt | Assets/Scripts/old/special_json.cs:173-198 | a value read moves the cursor forward and never past the end; no error raised below `parse` is "Empty file" |
| JsonGrammar.Dispatch | Assets/Scripts/old/special_json.cs:176-197 | the routine chosen by the character at the cursor moves the cursor forward, within the text |
| JsonGrammar.ObjectAt | Assets/Scripts/old/special_json.cs:291-346 | success gives an `Object`, and the cursor ends just past a `}` |
| JsonGrammar.MemberAt | Assets/Scripts/old/special_json.cs:309-326 | reading a key, colon and value moves the cursor forward, within the text |
| JsonGrammar.MembersFrom | Assets/Scripts/old/special_json.cs:298-327 | a turn of the object loop gives an `Object` ending just past a `}` |
| JsonGrammar.MembersAfter | Assets/Scripts/old/special_json.cs:329-345 | after a member, a comma or the close gives an `Object` ending just past a `}` |
| JsonGrammar.ListAt | Assets/Scripts/old/special_json.cs:348-384 | success gives a `List`, and the cursor ends just past a `]` |
| JsonGrammar.ElementsFrom | Assets/Scripts/old/special_json.cs:355-366 | a turn of the list loop gives a `List` ending just past a `]` |
| JsonGrammar.ElementsAfter | Assets/Scripts/old/special_json.cs:368-383 | after an element, a comma or the close gives a `List` ending just past a `]` |
| JsonGrammar.Document | Assets/Scripts/old/special_json.cs:162-171 | `parse` fails with "Empty file" if and only if the text is empty or all whitespace |
| JsonParser.PosAfterWhiteSpace | Assets/Scripts/old/special_json.cs:206-213 | the whitespace-skipping loop returns `WhiteSpaceEnd` |
| JsonParser.ParseLiteral | Assets/Scripts/old/special_json.cs:216-225 | the length check and the character-by-character loop compute `LiteralAt` |
| JsonParser.ParseNumber | Assets/Scripts/old/special_json.cs:227-251 | the loop that collects number characters, then the float/int choice, compute `NumberAt` |
| JsonParser.ParseString | Assets/Scripts/old/special_json.cs:253-289 | the copying loop, with escapes and the end-of-text exception, computes `StringAt` |
| JsonParser.ParseValue | Assets/Scripts/old/special_json.cs:173-198 | the dispatch on the character at the cursor computes `ValueAt` |
| JsonParser.ParseMember | Assets/Scripts/old/special_json.cs:309-326 | reading key, whitespace, colon, whitespace and value computes `MemberAt` |
| JsonParser.ParseObject | Assets/Scripts/old/special_json.cs:291-346 | the object loop, filling a dictionary, computes `ObjectAt` |
| JsonParser.ParseList | Assets/Scripts/old/special_json.cs:348-384 | the list loop, appending elements, computes `ListAt` |
| JsonParser.Parse | Assets/Scripts/old/special_json.cs:162-171 | skipping leading whitespace, the empty-file check and one value compute `Document` |
| JsonProperties.WhiteSpaceEndUnique | Assets/Scripts/old/special_json.cs:201-213 | any position with only whitespace before it and none at it is the one returned |
| JsonProperties.LiteralAtExact | Assets/Scripts/old/special_json.cs:216-225 | a keyword is accepted if and only if it fits in the rest of the text and matches character by character; it then gives the given value and moves the cursor by the keyword's length; otherwise it gives "Expecting" the keyword |
| JsonProperties.ValueKinds | Assets/Scripts/old/special_json.cs:173-192 | a value read is an object, a list, a string, a number, a boolean or null exactly when the character at the cursor is `{`, `[`, a quote, a number start, `t`/`f` or `n`; a boolean is true exactly for `t` |
| JsonProperties.ValueAtInvalidJson | Assets/Scripts/old/special_json.cs:193-197 | any other character at the cursor gives "Invalid JSON" |
| JsonProperties.MembersFromOnBase | Assets/Scripts/old/special_json.cs:298-336 | the object loop started on a filled dictionary gives what it gives from the empty one, laid over that dictionary |
| JsonProperties.MembersAfterOnBase | Assets/Scripts/old/special_json.cs:329-345 | the same for the loop resumed after a member |
| JsonProperties.LastWriteWins | Assets/Scripts/old/special_json.cs:327 | for duplicate keys the finished object keeps the value of the last member with that key |
| JsonProperties.ElementsFromAppends | Assets/Scripts/old/special_json.cs:355-374 | the list loop appends what it reads after the elements read before, in text order |
| JsonProperties.ElementsAfterAppends | Assets/Scripts/old/special_json.cs:366-383 | the same for the loop resumed after an element |
| JsonProperties.StringBodyEscape | Assets/Scripts/old/special_json.cs:260-286 | a text escaped for a quote and followed by that quote is decoded back to the text, and the cursor ends just past the quote |
| JsonProperties.UnknownEscapeVerbatim | Assets/Scripts/old/special_json.cs:264-275 | a backslash followed by any character other than `n`, `t`, `r`, `f` stands for that character, and decoding goes on after it; it succeeds exactly when the rest of the body does |
| JsonProperties.StringAtEscape | Assets/Scripts/old/special_json.cs:253-289 | `parse_string` reads back any text escaped in either quote style, ending just past the closing quote |
| JsonProperties.NumberCharSets | Assets/Scripts/old/special_json.cs:148-149 | `IsNumberFirstChar` holds exactly for the characters of `n_first_chars`, `-0123456789.`, and `IsNumberChar` exactly for those of `n_chars`, `-0123456789.eE`; every first character is also a number character |
| JsonProperties.FloatMarkerAt | Assets/Scripts/old/special_json.cs:240 | a run is read as a float exactly when it contains `.`, `e` or `E`; a run of digits and `-` is not |
| JsonProperties.NumberRunEndSkipsNumberChars | Assets/Scripts/old/special_json.cs:231-235 | every character taken into a number is a number character |
| JsonProperties.NumberRunEndUnique | Assets/Scripts/old/special_json.cs:231-235 | the run taken is the longest one |
| JsonProperties.ParseInt32IntText | Assets/Scripts/old/special_json.cs:245 | `int.Parse` reads back every `int` written in decimal |
| JsonProperties.NumberAtIntText | Assets/Scripts/old/special_json.cs:227-251 | `parse_number` reads an `int` written in decimal back as that `int`, wherever it stands, when no number character follows |
| JsonProperties.DocumentIntText | Assets/Scripts/old/special_json.cs:162-251 | a document holding one `int` in decimal is read back as that `int` |
| JsonTrailing.ValueAtFrame | Assets/Scripts/old/special_json.cs:173-384 | a value read from a text is read the same way from any text that begins with it, unless the value is a number whose run reaches the end of the text and the longer text has a number character there |
| JsonTrailing.DocumentIgnoresTrailingText | Assets/Scripts/old/special_json.cs:162-171 | text after a complete document does not change the result, unless the document ends in a number and the text starts with a number character |
| JsonExamples.KeywordDocuments | Assets/Scripts/old/special_json.cs:187-192 | `null`, `true` and `false` give their values; ` tru` gives "Expecting true" |
| JsonExamples.IntDocuments | Assets/Scripts/old/special_json.cs:243-245 | `123` and `-7` give those `int`s |
| JsonExamples.IntOverflowDocument | Assets/Scripts/old/special_json.cs:245-250 | `2147483648` overflows `int.Parse`; the overflow is not turned into "Invalid number" |
| JsonExamples.FloatDocument | Assets/Scripts/old/special_json.cs:227-241 | a document that is one number run holding `.`, `e` or `E`, in the syntax `float.Parse` accepts, gives that `Float` |
| JsonExamples.FloatDocuments | Assets/Scripts/old/special_json.cs:240-241 | `1.5` and `1e3` give `Float`s |
| JsonExamples.PlusInExponent | Assets/Scripts/old/special_json.cs:149 | `1e+5` gives "Invalid number" for the run `1e` |
| JsonExamples.MinusInsideNumber | Assets/Scripts/old/special_json.cs:231-249 | `1-2` is taken as one run, which `int.Parse` rejects |
| JsonExamples.EscapedNewline | Assets/Scripts/old/special_json.cs:263-267 | the escape `\n` gives a newline |
| JsonExamples.QuoteStyles | Assets/Scripts/old/special_json.cs:183-184 | `'x'` and `"x"` give the same string |
| JsonExamples.OtherQuoteVerbatim | Assets/Scripts/old/special_json.cs:257-260 | inside single quotes a double quote is an ordinary character |
| JsonExamples.UnknownEscapes | Assets/Scripts/old/special_json.cs:263-275 | `'\a'` gives `a`, and `"\'"` gives `'` |
| JsonExamples.UnterminatedString | Assets/Scripts/old/special_json.cs:260 | an unterminated string runs off the end of the text |
| JsonExamples.EmptyObjectAndList | Assets/Scripts/old/special_json.cs:303-307 | `{}` and `[]` give the empty object and the empty list |
| JsonExamples.DuplicateKeys | Assets/Scripts/old/special_json.cs:327 | `{"a":1,"a":2}` maps `a` to 2 |
| JsonExamples.ObjectTrailingComma | Assets/Scripts/old/special_json.cs:300-331 | `{ "a" : 1, }` is accepted, and whitespace around the colon and after the comma is skipped |
| JsonExamples.MissingColon | Assets/Scripts/old/special_json.cs:321-322 | `{"a" 1}` gives "Expecting : between key and value" |
| JsonExamples.KeyNotString | Assets/Scripts/old/special_json.cs:314-317 | `{1:2}` gives "Keys must be strings" |
| JsonExamples.MissingCloseBrace | Assets/Scripts/old/special_json.cs:339-341 | two members without a comma give "Expecting }" |
| JsonExamples.ListTrailingComma | Assets/Scripts/old/special_json.cs:355-373 | `[1,2,]` gives the list of 1 and 2 |
| JsonExamples.UnclosedList | Assets/Scripts/old/special_json.cs:369 | `[1,2` runs off the end of the text instead of giving "Expecting ]" |
| JsonExamples.SpaceBeforeComma | Assets/Scripts/old/special_json.cs:369-379 | whitespace before a comma is not skipped: `[1 ,2]` gives "Expecting ]" |
| JsonExamples.OtherErrors | Assets/Scripts/old/special_json.cs:166-196 | an empty or blank text gives "Empty file"; `x` gives "Invalid JSON" |
| JsonExamples.TrailingText | Assets/Scripts/old/special_json.cs:162-171 | `1 x` gives 1, and `[] ]` and `[]5` give the empty list: the rest is not read; `1` followed by `2` gives 12, because the run goes on |

## Left out

- `op.parse_file` (lines 154-158) reads a file and joins its lines with no separator. File I/O is not modelled; `Parse` takes the joined text.
- NumberAt: a `Float` holds the literal text of the number, not the `float` that `float.Parse` computes. Rounding to single precision is not modelled.
- NumberAt: a float literal outside the single-precision range, such as `1e39`, makes `float.Parse` raise `OverflowException` on the .NET Framework and Mono runtimes, and the source does not catch it. The model gives a `Float` of that text instead.
- NumberAt: `IsFloatText` models the syntax `float.Parse` accepts over the characters a number run can hold, under an invariant culture. The decimal separator of other cultures is not modelled.
- `Element.is_type`, `Element.to_type` and the implicit conversions of each element class (lines 32-35, 59, 72, 85, 98, 111, 124) are type tests and field reads. In the model they are the constructor tests and fields of `Value`.
- The `type` field of `Element` (lines 13-29) is the constructor of `Value`.
- The element objects are built in place in the source: `Object.val` is filled key by key and `List.val` grows one element at a time. `ParseObject` and `ParseList` grow a local `map` and `seq` and wrap them at the end. No one else holds a reference while the parse runs, so no aliasing is lost.
- The text of each `JSON_Exception` message is not modelled: each message is one constructor of `Error`.
- The position the cursor holds when an exception ends a routine is not modelled. `parse` hides it, but `parse_value` is public and takes the cursor by reference, so a caller of `parse_value` that catches the exception can see it.
- Strings are sequences of Unicode scalar values in the model, while a C# `string` is a sequence of UTF-16 code units. A character outside the Basic Multilingual Plane is one position in the model and two in the source, so cursor positions differ on such text; a lone surrogate, which a C# string can hold, cannot be given to the model at all.
- The source recurses once per nesting level (lines 180, 182, 311, 326, 365), so a deeply nested text ends in `StackOverflowException`. The model has no depth bound.
- The controller that runs a child process and hands its output to `parse` is not part of this model, and neither are the scripts outside `special_json.cs`.

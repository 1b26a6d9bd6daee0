/**
  The reference definition of what the reader computes: one pure function
  per parsing routine of `op` in `special_json.cs`. Each takes the input
  text and the cursor position and returns the parsed value together with
  the position the shared cursor has on return, or the error the routine
  raises. The imperative routines in module JsonParser are proved equal to
  these functions; the properties of the reader are proved about them in
  module JsonProperties.
*/
module JsonGrammar {
  import opened JsonValue

  /** Every way the reader can fail. The first eight are the messages of
      `JSON_Exception`; the last two are the .NET exceptions the source
      lets escape: reading `str[i]` at the end of the input, and `int.Parse`
      on a literal outside the `int` range. */
  datatype Error =
    | EmptyFile                        // "Empty file"
    | InvalidJson                      // "Invalid JSON"
    | ExpectingLiteral(keyword: string) // "Expecting " + keyword
    | InvalidNumber(text: string)      // "Invalid number \"...\""
    | KeysMustBeStrings                // "Keys must be strings"
    | ExpectingColon                   // "Expecting : between key and value"
    | ExpectingCloseBrace              // "Expecting }"
    | ExpectingCloseBracket            // "Expecting ]"
    | IndexOutOfRange                  // System.IndexOutOfRangeException
    | IntOverflow(text: string)        // System.OverflowException

  datatype Result<T> = Success(value: T) | Failure(error: Error) {
    predicate IsFailure() { Failure? }

    function PropagateFailure<U>(): Result<U>
      requires Failure?
    {
      Failure(error)
    }

    function Extract(): T
      requires Success?
    {
      value
    }
  }

  /** A parsed value and the cursor position just after it. */
  datatype Parsed = Parsed(val: Value, next: nat)

  // ---------------------------------------------------------------------
  // Character classes

  /** `is_white_space`: whitespace never belongs to a number. */
  predicate IsWhiteSpace(c: char)
    ensures IsWhiteSpace(c) ==> !IsNumberChar(c)
  {
    c == ' ' || c == '\r' || c == '\n' || c == '\t'
  }

  predicate IsDigit(c: char) { '0' <= c <= '9' }

  /** The characters that start a number: `n_first_chars`. */
  predicate IsNumberFirstChar(c: char)
  {
    c == '-' || IsDigit(c) || c == '.'
  }

  /** The characters a number is made of: `n_chars`. There is no `+`. */
  predicate IsNumberChar(c: char)
  {
    IsNumberFirstChar(c) || c == 'e' || c == 'E'
  }

  predicate AllDigits(d: string) {
    forall k :: 0 <= k < |d| ==> IsDigit(d[k])
  }

  // ---------------------------------------------------------------------
  // Whitespace

  /** The position `pos_after_white_space` returns: the first position at
      or after `i` that does not hold whitespace. */
  function WhiteSpaceEnd(s: string, i: nat): (j: nat)
    requires i <= |s|
    ensures i <= j <= |s|
    ensures j == |s| || !IsWhiteSpace(s[j])
    decreases |s| - i
  {
    if i < |s| && IsWhiteSpace(s[i]) then WhiteSpaceEnd(s, i + 1) else i
  }

  /** `pos_after_white_space` skips only whitespace. */
  lemma {:induction false} WhiteSpaceEndSkipsWhiteSpace(s: string, i: nat)
    requires i <= |s|
    ensures forall k :: i <= k < WhiteSpaceEnd(s, i) ==> IsWhiteSpace(s[k])
    decreases |s| - i
  {
    if i < |s| && IsWhiteSpace(s[i]) {
      WhiteSpaceEndSkipsWhiteSpace(s, i + 1);
    }
  }

  // ---------------------------------------------------------------------
  // Keywords

  /** `parse_literal`: the keyword must fit in the rest of the input and
      match it exactly; the result is the given value. */
  function LiteralAt(s: string, i: nat, keyword: string, v: Value): (r: Result<Parsed>)
    requires i <= |s|
    ensures r.Success? ==> i + |keyword| <= |s| && s[i..i + |keyword|] == keyword
    ensures r.Success? ==> r.value == Parsed(v, i + |keyword|)
    ensures r.Failure? ==> r.error == ExpectingLiteral(keyword)
  {
    if |keyword| <= |s| - i && s[i..i + |keyword|] == keyword
    then Success(Parsed(v, i + |keyword|))
    else Failure(ExpectingLiteral(keyword))
  }

  // ---------------------------------------------------------------------
  // Numbers

  /** The end of the longest run of number characters starting at `i`. */
  function NumberRunEnd(s: string, i: nat): (j: nat)
    requires i <= |s|
    ensures i <= j <= |s|
    ensures j == |s| || !IsNumberChar(s[j])
    decreases |s| - i
  {
    if i < |s| && IsNumberChar(s[i]) then NumberRunEnd(s, i + 1) else i
  }

  /** The end of the longest run of decimal digits starting at `i`. */
  function DigitsEnd(t: string, i: nat): (j: nat)
    requires i <= |t|
    ensures i <= j <= |t|
    ensures forall k :: i <= k < j ==> IsDigit(t[k])
    ensures j == |t| || !IsDigit(t[j])
    decreases |t| - i
  {
    if i < |t| && IsDigit(t[i]) then DigitsEnd(t, i + 1) else i
  }

  /** A run that holds `.`, `e` or `E` is read as a float. */
  predicate HasFloatMarker(t: string)
  {
    '.' in t || 'e' in t || 'E' in t
  }

  /** The text `float.Parse` accepts, over the characters of a number run:
      an optional `-`, a mantissa of digits with at most one `.` and at
      least one digit, and an optional exponent: `e` or `E`, an optional
      `-`, and at least one digit. */
  predicate IsFloatText(t: string)
    ensures IsFloatText(t) ==> |t| > 0 && (IsDigit(t[|t| - 1]) || t[|t| - 1] == '.')
  {
    var m := if |t| > 0 && t[0] == '-' then 1 else 0;
    var a := DigitsEnd(t, m);
    var b := if a < |t| && t[a] == '.' then DigitsEnd(t, a + 1) else a;
    var digits := (a - m) + (if b > a then b - a - 1 else 0);
    digits > 0 &&
    (b == |t| ||
     ((t[b] == 'e' || t[b] == 'E') &&
      var c := if b + 1 < |t| && t[b + 1] == '-' then b + 2 else b + 1;
      c < |t| && DigitsEnd(t, c) == |t|))
  }

  function DigitValue(c: char): nat
    requires IsDigit(c)
  {
    (c as int - '0' as int) as nat
  }

  /** The value of a string of decimal digits. */
  function DecimalValue(d: string): nat
    requires AllDigits(d)
  {
    if d == [] then 0 else DecimalValue(d[..|d| - 1]) * 10 + DigitValue(d[|d| - 1])
  }

  /** What `int.Parse` does with a run without float markers. */
  datatype IntParse = IntValue(n: int32) | IntFormatError | IntOverflowError

  /** `int.Parse`: an optional `-` followed by at least one digit, whose
      value must lie in the `int` range. */
  function ParseInt32(t: string): (r: IntParse)
    ensures !r.IntFormatError? ==> |t| > 0 && IsDigit(t[|t| - 1])
    ensures r.IntValue? && r.n < 0 ==> t[0] == '-'
    ensures r.IntValue? && t[0] != '-' ==> r.n >= 0
  {
    var negative := |t| > 0 && t[0] == '-';
    var d := if negative then t[1..] else t;
    if |d| == 0 || !AllDigits(d) then IntFormatError
    else
      var magnitude: int := DecimalValue(d);
      var n := if negative then -magnitude else magnitude;
      if -0x8000_0000 <= n < 0x8000_0000 then IntValue(n as int32) else IntOverflowError
  }

  /** `parse_number`: take the longest run of number characters, then read
      it as a float or as an int. */
  function NumberAt(s: string, i: nat): (r: Result<Parsed>)
    requires i <= |s|
    ensures var t := s[i..NumberRunEnd(s, i)];
            && (r.Success? ==>
                  && r.value.next == NumberRunEnd(s, i)
                  && (r.value.val.Int? || r.value.val.Float?)
                  && (r.value.val.Float? <==> HasFloatMarker(t)))
            && (r.Failure? ==>
                  r.error == InvalidNumber(t) || (r.error == IntOverflow(t) && !HasFloatMarker(t)))
  {
    var j := NumberRunEnd(s, i);
    var t := s[i..j];
    if HasFloatMarker(t) then
      if IsFloatText(t) then Success(Parsed(Float(t), j)) else Failure(InvalidNumber(t))
    else
      match ParseInt32(t)
      case IntValue(n) => Success(Parsed(Int(n), j))
      case IntFormatError => Failure(InvalidNumber(t))
      case IntOverflowError => Failure(IntOverflow(t))
  }

  // ---------------------------------------------------------------------
  // Strings

  /** The character an escape sequence `\c` stands for: `n`, `t`, `r` and
      `f` stand for control characters, anything else for itself. */
  function Unescape(c: char): (r: char)
    ensures c == 'n' ==> r == '\n'
    ensures c == 't' ==> r == '\t'
    ensures c == 'r' ==> r == '\r'
    ensures c == 'f' ==> r == '\U{000C}'
    ensures r == c <==> !(c == 'n' || c == 't' || c == 'r' || c == 'f')
    ensures r != c ==> r < ' '
  {
    if c == 'n' then '\n'
    else if c == 't' then '\t'
    else if c == 'r' then '\r'
    else if c == 'f' then '\U{000C}'   // form feed
    else c
  }

  /** The decoded text of a string body starting at `j`, up to the first
      unescaped `quote`, and the position just past that quote. */
  function StringBody(s: string, j: nat, quote: char): (r: Result<(string, nat)>)
    requires j <= |s|
    ensures r.Success? ==> j < r.value.1 <= |s| && s[r.value.1 - 1] == quote
    ensures r.Failure? ==> r.error == IndexOutOfRange
    decreases |s| - j
  {
    if j == |s| then Failure(IndexOutOfRange)
    else if s[j] == quote then Success(("", j + 1))
    else if s[j] == '\\' then
      if j + 1 == |s| then Failure(IndexOutOfRange)
      else
        var rest :- StringBody(s, j + 2, quote);
        Success(([Unescape(s[j + 1])] + rest.0, rest.1))
    else
      var rest :- StringBody(s, j + 1, quote);
      Success(([s[j]] + rest.0, rest.1))
  }

  /** `parse_string`: the character at `i` is the opening quote. */
  function StringAt(s: string, i: nat): (r: Result<Parsed>)
    requires i < |s|
    ensures r.Success? ==> r.value.val.String? && i + 1 < r.value.next <= |s|
    ensures r.Success? ==> s[r.value.next - 1] == s[i]
    ensures r.Failure? ==> r.error == IndexOutOfRange
  {
    var (text, next) :- StringBody(s, i + 1, s[i]);
    Success(Parsed(String(text), next))
  }

  // ---------------------------------------------------------------------
  // Values, objects and lists

  /** `parse_value`: the character at the cursor must exist. */
  function ValueAt(s: string, i: nat): (r: Result<Parsed>)
    requires i <= |s|
    ensures r.Success? ==> i < r.value.next <= |s|
    ensures r.Failure? ==> r.error != EmptyFile
    decreases |s| - i, 3
  {
    if i == |s| then Failure(IndexOutOfRange) else Dispatch(s, i)
  }

  /** `parse_value`: the routine to run is chosen by the character at the
      cursor alone. */
  function Dispatch(s: string, i: nat): (r: Result<Parsed>)
    requires i < |s|
    ensures r.Success? ==> i < r.value.next <= |s|
    ensures r.Failure? ==> r.error != EmptyFile
    decreases |s| - i, 2
  {
    var c := s[i];
    if c == '{' then ObjectAt(s, i)
    else if c == '[' then ListAt(s, i)
    else if c == '"' || c == '\'' then StringAt(s, i)
    else if IsNumberFirstChar(c) then NumberAt(s, i)
    else if c == 't' then LiteralAt(s, i, "true", Bool(true))
    else if c == 'f' then LiteralAt(s, i, "false", Bool(false))
    else if c == 'n' then LiteralAt(s, i, "null", Null)
    else Failure(InvalidJson)
  }

  /** `parse_object`: skip the brace and the whitespace after it, then
      read members into an empty dictionary. */
  function ObjectAt(s: string, i: nat): (r: Result<Parsed>)
    requires i < |s|
    ensures r.Success? ==> i < r.value.next <= |s| && r.value.val.Object?
    ensures r.Success? ==> s[r.value.next - 1] == '}'
    ensures r.Failure? ==> r.error != EmptyFile
    decreases |s| - i, 1
  {
    MembersFrom(s, WhiteSpaceEnd(s, i + 1), map[])
  }

  /** A key, its value, and the position just after the value. */
  datatype Member = Member(key: string, val: Value, next: nat)

  /** The middle of one turn of the loop of `parse_object`: a key that
      must be a string, whitespace, a colon, whitespace, and a value. */
  function MemberAt(s: string, j: nat): (r: Result<Member>)
    requires j <= |s|
    ensures r.Success? ==> j < r.value.next <= |s|
    ensures r.Failure? ==> r.error != EmptyFile
    decreases |s| - j, 4
  {
    var key :- ValueAt(s, j);
    if !key.val.String? then Failure(KeysMustBeStrings)
    else
      var colon := WhiteSpaceEnd(s, key.next);
      if colon == |s| then Failure(IndexOutOfRange)
      else if s[colon] != ':' then Failure(ExpectingColon)
      else
        var item :- ValueAt(s, WhiteSpaceEnd(s, colon + 1));
        Success(Member(key.val.str, item.val, item.next))
  }

  /** One turn of the loop of `parse_object` at position `j`, with the
      members read so far in `fields`, and every turn after it. A later
      member overwrites an earlier one with the same key. */
  function MembersFrom(s: string, j: nat, fields: map<string, Value>): (r: Result<Parsed>)
    requires j <= |s|
    ensures r.Success? ==> j < r.value.next <= |s| && r.value.val.Object?
    ensures r.Success? ==> s[r.value.next - 1] == '}'
    ensures r.Failure? ==> r.error != EmptyFile
    decreases |s| - j, 5
  {
    if j == |s| then Failure(IndexOutOfRange)
    else if s[j] == '}' then Success(Parsed(Object(fields), j + 1))
    else
      var member :- MemberAt(s, j);
      MembersAfter(s, member.next, fields[member.key := member.val])
  }

  /** The end of a turn of the loop of `parse_object`, at the position `k`
      just after a member's value: a comma (with no whitespace before it)
      starts the next turn; otherwise the object must close. */
  function MembersAfter(s: string, k: nat, fields: map<string, Value>): (r: Result<Parsed>)
    requires k <= |s|
    ensures r.Success? ==> k < r.value.next <= |s| && r.value.val.Object?
    ensures r.Success? ==> s[r.value.next - 1] == '}'
    ensures r.Failure? ==> r.error != EmptyFile
    decreases |s| - k, 5
  {
    if k == |s| then Failure(IndexOutOfRange)
    else if s[k] == ',' then MembersFrom(s, WhiteSpaceEnd(s, k + 1), fields)
    else
      var close := WhiteSpaceEnd(s, k);
      if close == |s| then Failure(IndexOutOfRange)
      else if s[close] != '}' then Failure(ExpectingCloseBrace)
      else Success(Parsed(Object(fields), close + 1))
  }

  /** `parse_list`: skip the bracket and the whitespace after it, then read
      elements into an empty list. */
  function ListAt(s: string, i: nat): (r: Result<Parsed>)
    requires i < |s|
    ensures r.Success? ==> i < r.value.next <= |s| && r.value.val.List?
    ensures r.Success? ==> s[r.value.next - 1] == ']'
    ensures r.Failure? ==> r.error != EmptyFile
    decreases |s| - i, 1
  {
    ElementsFrom(s, WhiteSpaceEnd(s, i + 1), [])
  }

  /** One turn of the loop of `parse_list` at position `j`, with the
      elements read so far in `items`, and every turn after it. */
  function ElementsFrom(s: string, j: nat, items: seq<Value>): (r: Result<Parsed>)
    requires j <= |s|
    ensures r.Success? ==> j < r.value.next <= |s| && r.value.val.List?
    ensures r.Success? ==> s[r.value.next - 1] == ']'
    ensures r.Failure? ==> r.error != EmptyFile
    decreases |s| - j, 4
  {
    if j == |s| then Failure(IndexOutOfRange)
    else if s[j] == ']' then Success(Parsed(List(items), j + 1))
    else
      var item :- ValueAt(s, j);
      ElementsAfter(s, item.next, items + [item.val])
  }

  /** The end of a turn of the loop of `parse_list`, at the position `k`
      just after an element: a comma (with no whitespace before it) starts
      the next turn; otherwise the list must close. */
  function ElementsAfter(s: string, k: nat, items: seq<Value>): (r: Result<Parsed>)
    requires k <= |s|
    ensures r.Success? ==> k < r.value.next <= |s| && r.value.val.List?
    ensures r.Success? ==> s[r.value.next - 1] == ']'
    ensures r.Failure? ==> r.error != EmptyFile
    decreases |s| - k, 4
  {
    if k == |s| then Failure(IndexOutOfRange)
    else if s[k] == ',' then ElementsFrom(s, WhiteSpaceEnd(s, k + 1), items)
    else
      var close := WhiteSpaceEnd(s, k);
      if close == |s| then Failure(IndexOutOfRange)
      else if s[close] != ']' then Failure(ExpectingCloseBracket)
      else Success(Parsed(List(items), close + 1))
  }

  /** `parse`: skip leading whitespace, fail on an empty document, and
      return the first value; whatever follows it is not looked at. */
  function Document(s: string): (r: Result<Value>)
    ensures r == Failure(EmptyFile) <==> forall k :: 0 <= k < |s| ==> IsWhiteSpace(s[k])
  {
    var i := WhiteSpaceEnd(s, 0);
    WhiteSpaceEndSkipsWhiteSpace(s, 0);
    if i == |s| then Failure(EmptyFile)
    else
      var p :- ValueAt(s, i);
      Success(p.val)
  }
}

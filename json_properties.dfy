/**
  Properties of the reader, proved about the reference functions of module
  JsonGrammar (and so, through the postconditions of module JsonParser,
  about the imperative routines too).
*/
module JsonProperties {
  import opened JsonValue
  import opened JsonGrammar

  // ---------------------------------------------------------------------
  // Whitespace

  /** The position `pos_after_white_space` returns is the only one that
      has only whitespace before it (from `i`) and no whitespace at it. */
  lemma {:induction false} WhiteSpaceEndUnique(s: string, i: nat, j: nat)
    requires i <= j <= |s|
    requires forall k :: i <= k < j ==> IsWhiteSpace(s[k])
    requires j == |s| || !IsWhiteSpace(s[j])
    ensures WhiteSpaceEnd(s, i) == j
    decreases j - i
  {
    if i < j {
      WhiteSpaceEndUnique(s, i + 1, j);
    }
  }

  // ---------------------------------------------------------------------
  // Keywords and dispatch

  /** `parse_literal` succeeds exactly when the keyword fits in the rest of
      the input and matches it character by character; it then returns the
      given value and moves the cursor by the keyword's length. */
  lemma LiteralAtExact(s: string, i: nat, keyword: string, v: Value)
    requires i <= |s|
    ensures LiteralAt(s, i, keyword, v).Success? <==>
            i + |keyword| <= |s| && forall k :: 0 <= k < |keyword| ==> s[i + k] == keyword[k]
    ensures LiteralAt(s, i, keyword, v).Success? ==>
            LiteralAt(s, i, keyword, v).value == Parsed(v, i + |keyword|)
    ensures LiteralAt(s, i, keyword, v).Failure? ==>
            LiteralAt(s, i, keyword, v).error == ExpectingLiteral(keyword)
  {
    if i + |keyword| <= |s| {
      if forall k :: 0 <= k < |keyword| ==> s[i + k] == keyword[k] {
        assert s[i..i + |keyword|] == keyword;
      } else {
        var k :| 0 <= k < |keyword| && s[i + k] != keyword[k];
        assert s[i..i + |keyword|][k] != keyword[k];
      }
    }
  }

  /** `parse_value` chooses what to read by the character at the cursor
      alone, and what it returns is of the kind that character announces;
      any other character is "Invalid JSON". */
  lemma ValueKinds(s: string, i: nat)
    requires i < |s|
    ensures var r := ValueAt(s, i);
            r.Success? ==>
              && (r.value.val.Object? <==> s[i] == '{')
              && (r.value.val.List? <==> s[i] == '[')
              && (r.value.val.String? <==> s[i] == '"' || s[i] == '\'')
              && (r.value.val.Int? || r.value.val.Float? <==> IsNumberFirstChar(s[i]))
              && (r.value.val.Bool? <==> s[i] == 't' || s[i] == 'f')
              && (r.value.val.Bool? ==> r.value.val.b == (s[i] == 't'))
              && (r.value.val.Null? <==> s[i] == 'n')
  {
  }

  lemma ValueAtInvalidJson(s: string, i: nat)
    requires i < |s|
    requires s[i] != '{' && s[i] != '[' && s[i] != '"' && s[i] != '\''
    requires !IsNumberFirstChar(s[i]) && s[i] != 't' && s[i] != 'f' && s[i] != 'n'
    ensures ValueAt(s, i) == Failure(InvalidJson)
  {
  }

  // ---------------------------------------------------------------------
  // Objects and lists

  /** A result of the object loop, with `base` as the dictionary it
      started from instead of the empty one. */
  function OnBase(base: map<string, Value>, r: Result<Parsed>): Result<Parsed> {
    if r.Success? && r.value.val.Object?
    then Success(Parsed(Object(base + r.value.val.fields), r.value.next))
    else r
  }

  lemma UpdateThenMerge(fields: map<string, Value>, k: string, v: Value, later: map<string, Value>)
    ensures fields[k := v] + later == fields + (map[k := v] + later)
  {
  }

  /** The object loop starting from `fields` gives the dictionary it gives
      from the empty one, laid over `fields`: every member read later
      overwrites what was there before. */
  lemma {:induction false} MembersFromOnBase(s: string, j: nat, fields: map<string, Value>)
    requires j <= |s|
    ensures MembersFrom(s, j, fields) == OnBase(fields, MembersFrom(s, j, map[]))
    decreases |s| - j, 1
  {
    if j == |s| {
    } else if s[j] == '}' {
      assert fields + map[] == fields;
    } else {
      var m := MemberAt(s, j);
      if m.Success? {
        var k, v, next := m.value.key, m.value.val, m.value.next;
        MembersAfterOnBase(s, next, fields[k := v]);
        MembersAfterOnBase(s, next, map[k := v]);
        var rest := MembersAfter(s, next, map[]);
        if rest.Success? && rest.value.val.Object? {
          UpdateThenMerge(fields, k, v, rest.value.val.fields);
        }
      }
    }
  }

  lemma {:induction false} MembersAfterOnBase(s: string, k: nat, fields: map<string, Value>)
    requires k <= |s|
    ensures MembersAfter(s, k, fields) == OnBase(fields, MembersAfter(s, k, map[]))
    decreases |s| - k, 0
  {
    if k < |s| {
      if s[k] == ',' {
        MembersFromOnBase(s, WhiteSpaceEnd(s, k + 1), fields);
      } else {
        assert fields + map[] == fields;
      }
    }
  }

  /** Duplicate keys: when the loop of `parse_object` reads the member
      `key: val`, the finished object maps `key` to the value of the last
      member with that key that comes after it, or to `val` if none does. */
  lemma LastWriteWins(s: string, j: nat, fields: map<string, Value>, m: Member)
    requires j < |s| && s[j] != '}'
    requires MemberAt(s, j) == Success(m)
    requires MembersFrom(s, j, fields).Success?
    ensures MembersAfter(s, m.next, map[]).Success?
    ensures var later := MembersAfter(s, m.next, map[]).value.val.fields;
            var result := MembersFrom(s, j, fields).value.val.fields;
            m.key in result &&
            result[m.key] == if m.key in later then later[m.key] else m.val
  {
    MembersAfterOnBase(s, m.next, fields[m.key := m.val]);
  }

  /** A result of the list loop, with `base` as the elements read before. */
  function AfterItems(base: seq<Value>, r: Result<Parsed>): Result<Parsed> {
    if r.Success? && r.value.val.List?
    then Success(Parsed(List(base + r.value.val.items), r.value.next))
    else r
  }

  /** The list loop starting from `items` appends what it reads, in source
      order, after `items`. */
  lemma {:induction false} ElementsFromAppends(s: string, j: nat, items: seq<Value>)
    requires j <= |s|
    ensures ElementsFrom(s, j, items) == AfterItems(items, ElementsFrom(s, j, []))
    decreases |s| - j, 1
  {
    if j == |s| {
    } else if s[j] == ']' {
      assert items + [] == items;
    } else {
      var item := ValueAt(s, j);
      if item.Success? {
        var v, next := item.value.val, item.value.next;
        ElementsAfterAppends(s, next, items + [v]);
        ElementsAfterAppends(s, next, [] + [v]);
        var rest := ElementsAfter(s, next, []);
        if rest.Success? && rest.value.val.List? {
          assert (items + [v]) + rest.value.val.items == items + (([] + [v]) + rest.value.val.items);
        }
      }
    }
  }

  lemma {:induction false} ElementsAfterAppends(s: string, k: nat, items: seq<Value>)
    requires k <= |s|
    ensures ElementsAfter(s, k, items) == AfterItems(items, ElementsAfter(s, k, []))
    decreases |s| - k, 0
  {
    if k < |s| {
      if s[k] == ',' {
        ElementsFromAppends(s, WhiteSpaceEnd(s, k + 1), items);
      } else {
        assert items + [] == items;
      }
    }
  }

  // ---------------------------------------------------------------------
  // Strings

  /** How a character is written inside a string delimited by `quote` so
      that `parse_string` reads it back. */
  function EscapeChar(c: char, quote: char): string {
    if c == quote || c == '\\' then ['\\', c]
    else if c == '\n' then "\\n"
    else if c == '\t' then "\\t"
    else if c == '\r' then "\\r"
    else if c == '\U{000C}' then "\\f"
    else [c]
  }

  function Escape(t: string, quote: char): string {
    if t == [] then [] else EscapeChar(t[0], quote) + Escape(t[1..], quote)
  }

  /** `e` is spelled out in `s` from position `j` on. */
  predicate Occurs(s: string, j: nat, e: string)
    decreases e
  {
    j + |e| <= |s| && (e == [] || (s[j] == e[0] && Occurs(s, j + 1, e[1..])))
  }

  lemma {:induction false} OccursSlice(s: string, j: nat, e: string)
    requires j + |e| <= |s| && s[j..j + |e|] == e
    ensures Occurs(s, j, e)
    decreases e
  {
    if e != [] {
      assert s[j] == s[j..j + |e|][0];
      assert s[j + 1..j + 1 + |e[1..]|] == e[1..];
      OccursSlice(s, j + 1, e[1..]);
    }
  }

  /** `s` holds, from position `j` on, the escaped characters of `t` one
      after the other, then `quote`. */
  predicate Encoded(s: string, j: nat, t: string, quote: char)
    decreases t
  {
    if t == [] then j < |s| && s[j] == quote
    else Occurs(s, j, EscapeChar(t[0], quote)) && Encoded(s, j + |EscapeChar(t[0], quote)|, t[1..], quote)
  }

  lemma EscapeLength(t: string, quote: char)
    requires t != []
    ensures |Escape(t, quote)| == |EscapeChar(t[0], quote)| + |Escape(t[1..], quote)|
  {
  }

  /** Decoding one escaped character, with the rest of the body decoded
      to `rest`. */
  lemma EscapeCharDecodes(s: string, j: nat, c: char, rest: string, quote: char, next: nat)
    requires quote == '"' || quote == '\''
    requires Occurs(s, j, EscapeChar(c, quote))
    requires j + |EscapeChar(c, quote)| <= |s|
    requires StringBody(s, j + |EscapeChar(c, quote)|, quote) == Success((rest, next))
    ensures StringBody(s, j, quote) == Success(([c] + rest, next))
  {
    var head := EscapeChar(c, quote);
    if |head| == 2 {
      assert Occurs(s, j + 1, head[1..]);
      assert s[j] == '\\' != quote && j + 1 < |s| && Unescape(s[j + 1]) == c;
    } else {
      assert s[j] == c != quote && c != '\\';
    }
  }

  lemma StringBodyCons(s: string, j: nat, t: string, quote: char, next: nat)
    requires quote == '"' || quote == '\''
    requires t != [] && Occurs(s, j, EscapeChar(t[0], quote))
    requires j + |EscapeChar(t[0], quote)| <= |s|
    requires StringBody(s, j + |EscapeChar(t[0], quote)|, quote) == Success((t[1..], next))
    ensures StringBody(s, j, quote) == Success((t, next))
  {
    EscapeCharDecodes(s, j, t[0], t[1..], quote, next);
    assert [t[0]] + t[1..] == t;
  }

  /** Decoding a string body inverts `Escape`, and stops just past the
      closing quote. */
  lemma {:induction false} StringBodyEscape(s: string, j: nat, t: string, quote: char)
    requires quote == '"' || quote == '\''
    requires Encoded(s, j, t, quote)
    ensures StringBody(s, j, quote) == Success((t, j + |Escape(t, quote)| + 1))
    decreases t
  {
    if t == [] {
      assert s[j] == quote;
    } else {
      StringBodyEscape(s, j + |EscapeChar(t[0], quote)|, t[1..], quote);
      StringBodyStep(s, j, t, quote);
    }
  }

  /** The inductive step of `StringBodyEscape`: the first character, then
      the rest decoded. */
  lemma StringBodyStep(s: string, j: nat, t: string, quote: char)
    requires quote == '"' || quote == '\''
    requires t != [] && Encoded(s, j, t, quote)
    requires var h := |EscapeChar(t[0], quote)|;
             j + h <= |s| &&
             StringBody(s, j + h, quote) == Success((t[1..], j + h + |Escape(t[1..], quote)| + 1))
    ensures StringBody(s, j, quote) == Success((t, j + |Escape(t, quote)| + 1))
  {
    var h, next := |EscapeChar(t[0], quote)|, j + |Escape(t, quote)| + 1;
    EscapeLength(t, quote);
    assert j + h + |Escape(t[1..], quote)| + 1 == next;
    assert Occurs(s, j, EscapeChar(t[0], quote));
    StringBodyCons(s, j, t, quote, next);
  }

  lemma SliceSplit(s: string, j: nat, a: string, b: string)
    requires j + |a| + |b| <= |s| && s[j..j + |a| + |b|] == a + b
    ensures s[j..j + |a|] == a && s[j + |a|..j + |a| + |b|] == b
  {
    assert s[j..j + |a|] == s[j..j + |a| + |b|][..|a|];
    assert s[j + |a|..j + |a| + |b|] == s[j..j + |a| + |b|][|a|..];
  }

  lemma SliceHeadTail(s: string, j: nat, head: string, rest: string)
    requires j + |head| + |rest| <= |s| && s[j..j + |head| + |rest|] == head + rest
    ensures Occurs(s, j, head) && s[j + |head|..j + |head| + |rest|] == rest
  {
    SliceSplit(s, j, head, rest);
    OccursSlice(s, j, head);
  }

  lemma EscapeCons(t: string, quote: char)
    requires t != []
    ensures Escape(t, quote) + [quote] == EscapeChar(t[0], quote) + (Escape(t[1..], quote) + [quote])
  {
  }

  lemma EncodedSliceHead(s: string, j: nat, t: string, quote: char)
    requires t != []
    requires j + |Escape(t, quote)| + 1 <= |s|
    requires s[j..j + |Escape(t, quote)| + 1] == Escape(t, quote) + [quote]
    ensures var h := |EscapeChar(t[0], quote)|;
            && Occurs(s, j, EscapeChar(t[0], quote))
            && j + h + |Escape(t[1..], quote)| + 1 <= |s|
            && s[j + h..j + h + |Escape(t[1..], quote)| + 1] == Escape(t[1..], quote) + [quote]
  {
    EscapeCons(t, quote);
    SliceHeadTail(s, j, EscapeChar(t[0], quote), Escape(t[1..], quote) + [quote]);
  }

  /** The text `Escape(t, quote) + [quote]` spelled out in `s` is `t`
      encoded. */
  lemma {:induction false} EncodedSlice(s: string, j: nat, t: string, quote: char)
    requires j + |Escape(t, quote)| + 1 <= |s|
    requires s[j..j + |Escape(t, quote)| + 1] == Escape(t, quote) + [quote]
    ensures Encoded(s, j, t, quote)
    decreases t
  {
    if t == [] {
      assert s[j] == s[j..j + 1][0];
    } else {
      EncodedSliceHead(s, j, t, quote);
      EncodedSlice(s, j + |EscapeChar(t[0], quote)|, t[1..], quote);
    }
  }

  /** An escape other than `\n`, `\t`, `\r` and `\f` stands for the
      character after the backslash, whatever it is: `parse_string` copies
      it and goes on after it. */
  lemma UnknownEscapeVerbatim(s: string, j: nat, quote: char)
    requires quote == '"' || quote == '\''
    requires j + 1 < |s| && s[j] == '\\'
    requires s[j + 1] != 'n' && s[j + 1] != 't' && s[j + 1] != 'r' && s[j + 1] != 'f'
    ensures StringBody(s, j, quote).Success? <==> StringBody(s, j + 2, quote).Success?
    ensures StringBody(s, j + 2, quote).Success? ==>
            var rest := StringBody(s, j + 2, quote).value;
            StringBody(s, j, quote).value == ([s[j + 1]] + rest.0, rest.1)
  {
    assert Unescape(s[j + 1]) == s[j + 1];
  }

  lemma StringAtBody(s: string, i: nat, text: string, next: nat)
    requires i < |s| && StringBody(s, i + 1, s[i]) == Success((text, next))
    ensures StringAt(s, i) == Success(Parsed(String(text), next))
  {
  }

  /** `parse_string` reads back any text written with either quote style:
      escaped, and followed by the closing quote. */
  lemma StringAtEscape(s: string, i: nat, t: string)
    requires i < |s| && (s[i] == '"' || s[i] == '\'')
    requires i + |Escape(t, s[i])| + 2 <= |s|
    requires s[i + 1..i + |Escape(t, s[i])| + 2] == Escape(t, s[i]) + [s[i]]
    ensures StringAt(s, i) == Success(Parsed(String(t), i + |Escape(t, s[i])| + 2))
  {
    EncodedSlice(s, i + 1, t, s[i]);
    StringAtEncoded(s, i, t);
  }

  lemma StringAtEncoded(s: string, i: nat, t: string)
    requires i < |s| && (s[i] == '"' || s[i] == '\'')
    requires Encoded(s, i + 1, t, s[i])
    ensures StringAt(s, i) == Success(Parsed(String(t), i + |Escape(t, s[i])| + 2))
  {
    StringBodyEscape(s, i + 1, t, s[i]);
    StringAtBody(s, i, t, i + |Escape(t, s[i])| + 2);
  }

  // ---------------------------------------------------------------------
  // Numbers

  /** `n_first_chars` and `n_chars` are the sets the source spells out, and
      every character that starts a number also continues one. */
  lemma NumberCharSets(c: char)
    ensures IsNumberFirstChar(c) <==> c in "-0123456789."
    ensures IsNumberChar(c) <==> c in "-0123456789.eE"
    ensures IsNumberFirstChar(c) ==> IsNumberChar(c)
  {
  }

  /** A run is read as a float exactly when some character of it is `.`,
      `e` or `E`; a run of digits and minus signs is read as an `int`. */
  lemma FloatMarkerAt(t: string)
    ensures HasFloatMarker(t) <==> exists k :: 0 <= k < |t| && (t[k] == '.' || t[k] == 'e' || t[k] == 'E')
    ensures (forall k :: 0 <= k < |t| ==> t[k] == '-' || IsDigit(t[k])) ==> !HasFloatMarker(t)
  {
  }

  /** `parse_number` consumes number characters only, ... */
  lemma {:induction false} NumberRunEndSkipsNumberChars(s: string, i: nat)
    requires i <= |s|
    ensures forall k :: i <= k < NumberRunEnd(s, i) ==> IsNumberChar(s[k])
    decreases |s| - i
  {
    if i < |s| && IsNumberChar(s[i]) {
      NumberRunEndSkipsNumberChars(s, i + 1);
    }
  }

  /** ... and all of them: the run it reads is the longest one. */
  lemma {:induction false} NumberRunEndUnique(s: string, i: nat, j: nat)
    requires i <= j <= |s|
    requires forall k :: i <= k < j ==> IsNumberChar(s[k])
    requires j == |s| || !IsNumberChar(s[j])
    ensures NumberRunEnd(s, i) == j
    decreases j - i
  {
    if i < j {
      NumberRunEndUnique(s, i + 1, j);
    }
  }

  function DigitChar(d: nat): char
    requires d < 10
  {
    ('0' as int + d) as char
  }

  /** The decimal digits of `n`. */
  function NatText(n: nat): string
    decreases n
  {
    if n < 10 then [DigitChar(n)] else NatText(n / 10) + [DigitChar(n % 10)]
  }

  /** How an `int` is written: an optional `-` and its decimal digits. */
  function IntText(n: int32): string {
    if n < 0 then "-" + NatText(-(n as int)) else NatText(n as int)
  }

  lemma {:induction false} NatTextDigits(n: nat)
    ensures |NatText(n)| > 0 && AllDigits(NatText(n)) && DecimalValue(NatText(n)) == n
    decreases n
  {
    if n >= 10 {
      NatTextDigits(n / 10);
      var t := NatText(n);
      assert t[..|t| - 1] == NatText(n / 10);
    }
  }

  /** `int.Parse` reads back every `int` written in decimal. */
  lemma ParseInt32IntText(n: int32)
    ensures ParseInt32(IntText(n)) == IntValue(n)
  {
    if n < 0 {
      NatTextDigits(-(n as int));
      assert IntText(n)[1..] == NatText(-(n as int));
    } else {
      NatTextDigits(n as int);
    }
  }

  /** Every character of `IntText(n)` is `-` or a digit. */
  lemma IntTextChars(n: int32)
    ensures |IntText(n)| > 0 && !HasFloatMarker(IntText(n))
    ensures forall k :: 0 <= k < |IntText(n)| ==> IntText(n)[k] == '-' || IsDigit(IntText(n)[k])
  {
    var s := IntText(n);
    var m: nat := if n < 0 then -(n as int) else n as int;
    NatTextDigits(m);
    var d := NatText(m);
    if n < 0 {
      forall k | 0 <= k < |s| ensures s[k] == '-' || IsDigit(s[k]) {
        if k > 0 { assert s[k] == d[k - 1]; }
      }
    }
    assert forall k :: 0 <= k < |s| ==> s[k] != '.' && s[k] != 'e' && s[k] != 'E';
  }

  /** A run of number characters spelled out in `s` from `i` on. */
  lemma NumberRunAt(s: string, i: nat, t: string)
    requires i + |t| <= |s| && s[i..i + |t|] == t
    requires forall k :: 0 <= k < |t| ==> t[k] == '-' || IsDigit(t[k])
    requires i + |t| == |s| || !IsNumberChar(s[i + |t|])
    ensures NumberRunEnd(s, i) == i + |t| && s[i..NumberRunEnd(s, i)] == t
  {
    forall k | i <= k < i + |t| ensures IsNumberChar(s[k]) {
      assert s[k] == t[k - i];
    }
    NumberRunEndUnique(s, i, i + |t|);
  }

  /** A run without float markers that `int.Parse` accepts is an `int`. */
  lemma IntRunAt(s: string, i: nat, t: string, n: int32)
    requires i + |t| <= |s| && NumberRunEnd(s, i) == i + |t| && s[i..i + |t|] == t
    requires !HasFloatMarker(t) && ParseInt32(t) == IntValue(n)
    ensures NumberAt(s, i) == Success(Parsed(Int(n), i + |t|))
  {
    assert s[i..NumberRunEnd(s, i)] == t;
  }

  /** `parse_number` reads an `int` written in decimal back as that `int`,
      wherever it stands, provided no number character follows it. */
  lemma NumberAtIntText(s: string, i: nat, n: int32)
    requires i + |IntText(n)| <= |s| && s[i..i + |IntText(n)|] == IntText(n)
    requires i + |IntText(n)| == |s| || !IsNumberChar(s[i + |IntText(n)|])
    ensures NumberAt(s, i) == Success(Parsed(Int(n), i + |IntText(n)|))
  {
    var t := IntText(n);
    IntTextChars(n);
    NumberRunAt(s, i, t);
    ParseInt32IntText(n);
    IntRunAt(s, i, t, n);
  }

  /** A document holding one `int` written in decimal is read back as that
      `int`. */
  lemma DocumentIntText(n: int32)
    ensures Document(IntText(n)) == Success(Int(n))
  {
    var s := IntText(n);
    IntTextChars(n);
    assert !IsWhiteSpace(s[0]);
    WhiteSpaceEndUnique(s, 0, 0);
    assert s[0..|s|] == s;
    NumberAtIntText(s, 0, n);
    assert Dispatch(s, 0) == NumberAt(s, 0);
  }
}

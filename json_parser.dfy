/**
  The parsing routines of `op` in `special_json.cs`, written as the source
  writes them: loops that advance a cursor and grow an output. The cursor
  the source passes by reference (`ref int i`) is an input position here,
  and the position it has on return is the `next` field of the result.
  Each routine is proved to compute the reference function of module
  JsonGrammar that bears the corresponding name.
*/
module JsonParser {
  import opened JsonValue
  import opened JsonGrammar

  /** `pos_after_white_space` */
  method PosAfterWhiteSpace(s: string, i: nat) returns (j: nat)
    requires i <= |s|
    ensures j == WhiteSpaceEnd(s, i)
  {
    j := i;
    while j < |s| && IsWhiteSpace(s[j])
      invariant i <= j <= |s|
      invariant WhiteSpaceEnd(s, j) == WhiteSpaceEnd(s, i)
    {
      j := j + 1;
    }
  }

  /** `parse_literal` */
  method ParseLiteral(s: string, i: nat, keyword: string, v: Value) returns (r: Result<Parsed>)
    requires i <= |s|
    ensures r == LiteralAt(s, i, keyword, v)
  {
    if |keyword| > |s| - i {
      return Failure(ExpectingLiteral(keyword));
    }
    var pos := i;
    for k := 0 to |keyword|
      invariant pos == i + k
      invariant s[i..pos] == keyword[..k]
    {
      if keyword[k] != s[pos] {
        assert s[i..i + |keyword|][k] != keyword[k];
        return Failure(ExpectingLiteral(keyword));
      }
      assert s[i..pos + 1] == s[i..pos] + [s[pos]];
      assert keyword[..k + 1] == keyword[..k] + [keyword[k]];
      pos := pos + 1;
    }
    return Success(Parsed(v, pos));
  }

  /** `parse_number` */
  method ParseNumber(s: string, i: nat) returns (r: Result<Parsed>)
    requires i <= |s|
    ensures r == NumberAt(s, i)
  {
    var output := "";
    var pos := i;
    while pos < |s| && IsNumberChar(s[pos])
      invariant i <= pos <= |s|
      invariant output == s[i..pos]
      invariant NumberRunEnd(s, pos) == NumberRunEnd(s, i)
    {
      output := output + [s[pos]];
      pos := pos + 1;
    }
    if '.' in output || 'e' in output || 'E' in output {
      if IsFloatText(output) {
        r := Success(Parsed(Float(output), pos));
      } else {
        r := Failure(InvalidNumber(output));
      }
    } else {
      match ParseInt32(output)
      case IntValue(n) => r := Success(Parsed(Int(n), pos));
      case IntFormatError => r := Failure(InvalidNumber(output));
      case IntOverflowError => r := Failure(IntOverflow(output));
    }
  }

  /** The result of decoding a string body, with `text` decoded before it. */
  ghost function PrefixedBy(text: string, r: Result<(string, nat)>): Result<(string, nat)> {
    match r
    case Success((rest, next)) => Success((text + rest, next))
    case Failure(e) => Failure(e)
  }

  lemma PrefixedByEmpty(r: Result<(string, nat)>)
    ensures PrefixedBy("", r) == r
  {
    if r.Success? {
      assert "" + r.value.0 == r.value.0;
    }
  }

  lemma PrefixedByAppend(a: string, b: string, r: Result<(string, nat)>)
    ensures PrefixedBy(a, PrefixedBy(b, r)) == PrefixedBy(a + b, r)
  {
    if r.Success? {
      assert a + (b + r.value.0) == (a + b) + r.value.0;
    }
  }

  /** `parse_string` */
  method ParseString(s: string, i: nat) returns (r: Result<Parsed>)
    requires i < |s|
    ensures r == StringAt(s, i)
  {
    var output := "";
    var quote := s[i];
    var pos := i + 1;
    PrefixedByEmpty(StringBody(s, pos, quote));
    while pos == |s| || s[pos] != quote
      invariant i < pos <= |s|
      invariant StringBody(s, i + 1, quote) == PrefixedBy(output, StringBody(s, pos, quote))
      decreases |s| - pos
    {
      if pos == |s| {
        return Failure(IndexOutOfRange);
      }
      if s[pos] == '\\' {
        pos := pos + 1;
        if pos == |s| {
          return Failure(IndexOutOfRange);
        }
        PrefixedByAppend(output, [Unescape(s[pos])], StringBody(s, pos + 1, quote));
        output := output + [Unescape(s[pos])];
      } else {
        PrefixedByAppend(output, [s[pos]], StringBody(s, pos + 1, quote));
        output := output + [s[pos]];
      }
      pos := pos + 1;
    }
    assert output + "" == output;
    pos := pos + 1;
    return Success(Parsed(String(output), pos));
  }

  /** `parse_value` */
  method ParseValue(s: string, i: nat) returns (r: Result<Parsed>)
    requires i <= |s|
    ensures r == ValueAt(s, i)
    decreases |s| - i, 3
  {
    if i == |s| {
      return Failure(IndexOutOfRange);
    }
    var c := s[i];
    if c == '{' {
      r := ParseObject(s, i);
    } else if c == '[' {
      r := ParseList(s, i);
    } else if c == '"' || c == '\'' {
      r := ParseString(s, i);
    } else if IsNumberFirstChar(c) {
      r := ParseNumber(s, i);
    } else if c == 't' {
      r := ParseLiteral(s, i, "true", Bool(true));
    } else if c == 'f' {
      r := ParseLiteral(s, i, "false", Bool(false));
    } else if c == 'n' {
      r := ParseLiteral(s, i, "null", Null);
    } else {
      r := Failure(InvalidJson);
    }
  }

  /** The part of a turn of the loop of `parse_object` that reads a key,
      the colon and the value. */
  method ParseMember(s: string, j: nat) returns (r: Result<Member>)
    requires j <= |s|
    ensures r == MemberAt(s, j)
    decreases |s| - j, 4
  {
    var key := ParseValue(s, j);
    if key.Failure? {
      return Failure(key.error);
    }
    if !key.value.val.String? {
      return Failure(KeysMustBeStrings);
    }
    var colon := PosAfterWhiteSpace(s, key.value.next);
    if colon == |s| {
      return Failure(IndexOutOfRange);
    }
    if s[colon] != ':' {
      return Failure(ExpectingColon);
    }
    var start := PosAfterWhiteSpace(s, colon + 1);
    var item := ParseValue(s, start);
    if item.Failure? {
      return Failure(item.error);
    }
    return Success(Member(key.value.val.str, item.value.val, item.value.next));
  }

  /** `parse_object` */
  method ParseObject(s: string, i: nat) returns (r: Result<Parsed>)
    requires i < |s|
    ensures r == ObjectAt(s, i)
    decreases |s| - i, 1
  {
    var pos := PosAfterWhiteSpace(s, i + 1);
    var fields: map<string, Value> := map[];
    while true
      invariant i < pos <= |s|
      invariant MembersFrom(s, pos, fields) == ObjectAt(s, i)
      decreases |s| - pos
    {
      if pos == |s| {
        return Failure(IndexOutOfRange);
      }
      if s[pos] == '}' {
        return Success(Parsed(Object(fields), pos + 1));
      }
      var member := ParseMember(s, pos);
      if member.Failure? {
        return Failure(member.error);
      }
      fields := fields[member.value.key := member.value.val];
      pos := member.value.next;
      if pos == |s| {
        return Failure(IndexOutOfRange);
      }
      if s[pos] == ',' {
        pos := PosAfterWhiteSpace(s, pos + 1);
      } else {
        break;
      }
    }
    pos := PosAfterWhiteSpace(s, pos);
    if pos == |s| {
      return Failure(IndexOutOfRange);
    }
    if s[pos] != '}' {
      return Failure(ExpectingCloseBrace);
    }
    return Success(Parsed(Object(fields), pos + 1));
  }

  /** `parse_list` */
  method ParseList(s: string, i: nat) returns (r: Result<Parsed>)
    requires i < |s|
    ensures r == ListAt(s, i)
    decreases |s| - i, 1
  {
    var pos := PosAfterWhiteSpace(s, i + 1);
    var items: seq<Value> := [];
    while true
      invariant i < pos <= |s|
      invariant ElementsFrom(s, pos, items) == ListAt(s, i)
      decreases |s| - pos
    {
      if pos == |s| {
        return Failure(IndexOutOfRange);
      }
      if s[pos] == ']' {
        return Success(Parsed(List(items), pos + 1));
      }
      var item := ParseValue(s, pos);
      if item.Failure? {
        return Failure(item.error);
      }
      assert ElementsFrom(s, pos, items) == ElementsAfter(s, item.value.next, items + [item.value.val]);
      items := items + [item.value.val];
      pos := item.value.next;
      if pos == |s| {
        return Failure(IndexOutOfRange);
      }
      if s[pos] == ',' {
        pos := PosAfterWhiteSpace(s, pos + 1);
      } else {
        break;
      }
    }
    pos := PosAfterWhiteSpace(s, pos);
    if pos == |s| {
      return Failure(IndexOutOfRange);
    }
    if s[pos] != ']' {
      return Failure(ExpectingCloseBracket);
    }
    return Success(Parsed(List(items), pos + 1));
  }

  /** `parse` */
  method Parse(s: string) returns (r: Result<Value>)
    ensures r == Document(s)
  {
    var i := PosAfterWhiteSpace(s, 0);
    if i == |s| {
      return Failure(EmptyFile);
    }
    var p := ParseValue(s, i);
    if p.Failure? {
      return Failure(p.error);
    }
    return Success(p.value.val);
  }
}

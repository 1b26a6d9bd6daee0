/**
  What `parse` returns on small documents: one per value kind, the escapes,
  duplicate keys, trailing commas, trailing text, and one per error. The
  longer documents are given as a parameter fixed by the precondition, and
  the proof walks through the reader step by step.
*/
module JsonExamples {
  import opened JsonValue
  import opened JsonGrammar
  import opened JsonProperties
  import opened JsonTrailing

  // ---------------------------------------------------------------------
  // Steps of the reader on a concrete text

  lemma DocumentOf(s: string, v: Value, next: nat)
    requires |s| > 0 && !IsWhiteSpace(s[0]) && ValueAt(s, 0) == Success(Parsed(v, next))
    ensures Document(s) == Success(v)
  {
  }

  lemma StringValueAt(s: string, i: nat, t: string)
    requires i < |s| && (s[i] == '"' || s[i] == '\'')
    requires i + |Escape(t, s[i])| + 2 <= |s|
    requires s[i + 1..i + |Escape(t, s[i])| + 2] == Escape(t, s[i]) + [s[i]]
    ensures ValueAt(s, i) == Success(Parsed(String(t), i + |Escape(t, s[i])| + 2))
  {
    StringAtEscape(s, i, t);
  }

  lemma IntValueAt(s: string, i: nat, n: int32)
    requires i + |IntText(n)| <= |s| && s[i..i + |IntText(n)|] == IntText(n)
    requires i + |IntText(n)| == |s| || !IsNumberChar(s[i + |IntText(n)|])
    ensures ValueAt(s, i) == Success(Parsed(Int(n), i + |IntText(n)|))
  {
    IntTextChars(n);
    assert s[i] == IntText(n)[0];
    NumberAtIntText(s, i, n);
  }

  lemma ObjectValueAt(s: string, i: nat)
    requires i + 1 < |s| && s[i] == '{' && !IsWhiteSpace(s[i + 1])
    ensures ValueAt(s, i) == MembersFrom(s, i + 1, map[])
  {
    assert ValueAt(s, i) == Dispatch(s, i) == ObjectAt(s, i);
  }

  lemma ListValueAt(s: string, i: nat)
    requires i + 1 < |s| && s[i] == '[' && !IsWhiteSpace(s[i + 1])
    ensures ValueAt(s, i) == ElementsFrom(s, i + 1, [])
  {
    assert ValueAt(s, i) == Dispatch(s, i) == ListAt(s, i);
  }

  lemma MemberAtSteps(s: string, j: nat, key: string, keyEnd: nat, colon: nat, start: nat, v: Value, next: nat)
    requires j <= |s| && ValueAt(s, j) == Success(Parsed(String(key), keyEnd))
    requires WhiteSpaceEnd(s, keyEnd) == colon && colon < |s| && s[colon] == ':'
    requires WhiteSpaceEnd(s, colon + 1) == start && ValueAt(s, start) == Success(Parsed(v, next))
    ensures MemberAt(s, j) == Success(Member(key, v, next))
  {
    var k := ValueAt(s, j).value;
    assert k.val.String? && k.val.str == key && k.next == keyEnd;
    var item := ValueAt(s, start).value;
    assert item.val == v && item.next == next;
  }

  // ---------------------------------------------------------------------
  // Keywords and numbers

  lemma KeywordDocuments()
    ensures Document("null") == Success(Null)
    ensures Document("true") == Success(Bool(true))
    ensures Document("false") == Success(Bool(false))
    ensures Document(" tru") == Failure(ExpectingLiteral("true"))
  {
  }

  lemma IntDocuments()
    ensures Document("123") == Success(Int(123))
    ensures Document("-7") == Success(Int(-7))
  {
    assert IntText(123) == "123";
    DocumentIntText(123);
    assert IntText(-7) == "-7";
    DocumentIntText(-7);
  }

  lemma IntMaxPlusOneText()
    ensures NatText(2147483648) == "2147483648"
  {
    assert NatText(2) == "2";
    assert NatText(21) == "21";
    assert NatText(214) == "214";
    assert NatText(2147) == "2147";
    assert NatText(21474) == "21474";
    assert NatText(214748) == "214748";
    assert NatText(2147483) == "2147483";
    assert NatText(21474836) == "21474836";
    assert NatText(214748364) == "214748364";
    assert NatText(2147483648) == "2147483648";
  }

  lemma IntMaxPlusOneOverflows(s: string)
    requires s == "2147483648"
    ensures ParseInt32(s) == IntOverflowError
    ensures forall k :: 0 <= k < |s| ==> IsDigit(s[k])
  {
    IntMaxPlusOneText();
    NatTextDigits(2147483648);
  }

  /** `2147483648` is one more than the largest `int`. */
  lemma IntOverflowDocument(s: string)
    requires s == "2147483648"
    ensures Document(s) == Failure(IntOverflow(s))
  {
    IntMaxPlusOneOverflows(s);
    NumberRunEndUnique(s, 0, |s|);
    assert s[0..|s|] == s;
    assert !HasFloatMarker(s);
    assert WhiteSpaceEnd(s, 0) == 0;
    assert ValueAt(s, 0) == Dispatch(s, 0) == NumberAt(s, 0);
  }

  /** A document made of one run of number characters that holds a float
      marker and has the syntax `float.Parse` accepts is that `Float`. */
  lemma FloatDocument(s: string)
    requires |s| > 0 && IsNumberFirstChar(s[0])
    requires forall k :: 0 <= k < |s| ==> IsNumberChar(s[k])
    requires HasFloatMarker(s) && IsFloatText(s)
    ensures Document(s) == Success(Float(s))
  {
    NumberRunEndUnique(s, 0, |s|);
    assert s[0..|s|] == s;
    assert WhiteSpaceEnd(s, 0) == 0;
    assert ValueAt(s, 0) == Dispatch(s, 0) == NumberAt(s, 0);
  }

  /** A decimal point or an exponent makes a `Float`. */
  lemma FloatDocuments(p: string, e: string)
    requires p == "1.5" && e == "1e3"
    ensures Document(p) == Success(Float(p))
    ensures Document(e) == Success(Float(e))
  {
    assert DigitsEnd(p, 0) == 1 && DigitsEnd(p, 2) == 3;
    FloatDocument(p);
    assert DigitsEnd(e, 0) == 1 && DigitsEnd(e, 2) == 3;
    FloatDocument(e);
  }

  /** There is no `+` among the number characters: the run is `1e`, an
      exponent without digits. */
  lemma PlusInExponent()
    ensures Document("1e+5") == Failure(InvalidNumber("1e"))
  {
  }

  /** A `-` inside the run is taken in, and `int.Parse` rejects it. */
  lemma MinusInsideNumber()
    ensures Document("1-2") == Failure(InvalidNumber("1-2"))
  {
  }

  // ---------------------------------------------------------------------
  // Strings

  lemma EscapedNewline(s: string)
    requires s == "\"a\\nb\""
    ensures Document(s) == Success(String("a\nb"))
  {
    assert Escape("a\nb", '"') == "a\\nb";
    assert s[1..6] == Escape("a\nb", '"') + ['"'];
    StringValueAt(s, 0, "a\nb");
  }

  /** Both quote styles give the same string. */
  lemma QuoteStyles(s: string, d: string)
    requires s == "'x'" && d == "\"x\""
    ensures Document(s) == Document(d) == Success(String("x"))
  {
    assert Escape("x", '\'') == "x" && Escape("x", '"') == "x";
    assert s[1..3] == "x'" && d[1..3] == "x\"";
    StringValueAt(s, 0, "x");
    StringValueAt(d, 0, "x");
  }

  lemma SingleQuotedVerbatim(t: string)
    requires t == "a\"b"
    ensures Escape(t, '\'') == t
  {
    assert Escape(t[2..], '\'') == t[2..];
    assert Escape(t[1..], '\'') == t[1..];
  }

  /** Inside single quotes a double quote is an ordinary character. */
  lemma OtherQuoteVerbatim(s: string)
    requires s == "'a\"b'"
    ensures Document(s) == Success(String("a\"b"))
  {
    var t := "a\"b";
    SingleQuotedVerbatim(t);
    assert s[0] == '\'' && s[1..5] == t + ['\''];
    StringValueAt(s, 0, t);
  }

  /** An unknown escape, or the other kind of quote escaped, stands for
      the character itself. */
  lemma UnknownEscapes(a: string, b: string)
    requires a == "'\\a'" && b == "\"\\'\""
    ensures Document(a) == Success(String("a"))
    ensures Document(b) == Success(String("'"))
  {
    assert StringBody(a, 3, '\'') == Success(("", 4));
    UnknownEscapeVerbatim(a, 1, '\'');
    assert [a[2]] + "" == "a";
    StringAtBody(a, 0, "a", 4);
    DocumentOf(a, String("a"), 4);
    assert StringBody(b, 3, '"') == Success(("", 4));
    UnknownEscapeVerbatim(b, 1, '"');
    assert [b[2]] + "" == "'";
    StringAtBody(b, 0, "'", 4);
    DocumentOf(b, String("'"), 4);
  }

  lemma UnterminatedString()
    ensures Document("\"ab") == Failure(IndexOutOfRange)
  {
  }

  // ---------------------------------------------------------------------
  // Objects

  lemma EmptyObjectAndList()
    ensures Document("{}") == Success(Object(map[]))
    ensures Document("[]") == Success(List([]))
  {
  }

  /** The later of two members with the same key wins. */
  lemma DuplicateKeys(s: string)
    requires s == "{\"a\":1,\"a\":2}"
    ensures Document(s) == Success(Object(map["a" := Int(2)]))
  {
    DuplicateKeysMembers(s);
    ObjectValueAt(s, 0);
    DocumentOf(s, Object(map["a" := Int(2)]), 13);
  }

  lemma DuplicateKeysMembers(s: string)
    requires s == "{\"a\":1,\"a\":2}"
    ensures MembersFrom(s, 1, map[]) == Success(Parsed(Object(map["a" := Int(2)]), 13))
  {
    assert s[..6] == "{\"a\":1";
    FirstMember(s);
    DuplicateKeysSecond(s);
    assert map["a" := Int(1)]["a" := Int(2)] == map["a" := Int(2)];
    assert MembersFrom(s, 1, map[]) == MembersFrom(s, 7, map["a" := Int(1)]);
    assert MembersFrom(s, 7, map["a" := Int(1)]) == MembersAfter(s, 12, map["a" := Int(2)]);
    assert MembersAfter(s, 12, map["a" := Int(2)]) == Success(Parsed(Object(map["a" := Int(2)]), 13));
  }

  /** The member `"a":1` right after the brace. */
  lemma FirstMember(s: string)
    requires |s| >= 7 && s[..6] == "{\"a\":1" && !IsNumberChar(s[6])
    ensures MemberAt(s, 1) == Success(Member("a", Int(1), 6))
  {
    assert s[2..4] == "a\"";
    StringValueAt(s, 1, "a");
    assert IntText(1) == "1" && s[5..6] == "1";
    IntValueAt(s, 5, 1);
    MemberAtSteps(s, 1, "a", 4, 4, 5, Int(1), 6);
  }

  lemma DuplicateKeysSecond(s: string)
    requires s == "{\"a\":1,\"a\":2}"
    ensures MemberAt(s, 7) == Success(Member("a", Int(2), 12))
  {
    assert s[8..10] == "a\"";
    StringValueAt(s, 7, "a");
    assert IntText(2) == "2" && s[11..12] == "2";
    IntValueAt(s, 11, 2);
    MemberAtSteps(s, 7, "a", 10, 10, 11, Int(2), 12);
  }

  /** A comma before the closing brace is accepted, and whitespace is
      skipped after the brace, around the colon and after the comma. */
  lemma ObjectTrailingComma(s: string)
    requires s == "{ \"a\" : 1, }"
    ensures Document(s) == Success(Object(map["a" := Int(1)]))
  {
    assert s[3..5] == "a\"";
    StringValueAt(s, 2, "a");
    assert IntText(1) == "1" && s[8..9] == "1";
    IntValueAt(s, 8, 1);
    MemberAtSteps(s, 2, "a", 5, 6, 8, Int(1), 9);
    assert WhiteSpaceEnd(s, 10) == 11;
    assert MembersAfter(s, 9, map["a" := Int(1)]) == MembersFrom(s, 11, map["a" := Int(1)]);
    assert MembersFrom(s, 11, map["a" := Int(1)]) == Success(Parsed(Object(map["a" := Int(1)]), 12));
    assert WhiteSpaceEnd(s, 1) == 2;
    assert ValueAt(s, 0) == Dispatch(s, 0) == ObjectAt(s, 0) == MembersFrom(s, 2, map[]);
    DocumentOf(s, Object(map["a" := Int(1)]), 12);
  }

  lemma MissingColon(s: string)
    requires s == "{\"a\" 1}"
    ensures Document(s) == Failure(ExpectingColon)
  {
    assert s[2..4] == "a\"";
    StringValueAt(s, 1, "a");
    assert WhiteSpaceEnd(s, 4) == 5;
    assert MemberAt(s, 1) == Failure(ExpectingColon);
    ObjectValueAt(s, 0);
  }

  lemma KeyNotString(s: string)
    requires s == "{1:2}"
    ensures Document(s) == Failure(KeysMustBeStrings)
  {
    assert IntText(1) == "1" && s[1..2] == "1";
    IntValueAt(s, 1, 1);
    assert MemberAt(s, 1) == Failure(KeysMustBeStrings);
    ObjectValueAt(s, 0);
  }

  /** Two members without a comma between them. */
  lemma MissingCloseBrace(s: string)
    requires s == "{\"a\":1 \"b\":2}"
    ensures Document(s) == Failure(ExpectingCloseBrace)
  {
    assert s[..6] == "{\"a\":1";
    FirstMember(s);
    assert WhiteSpaceEnd(s, 6) == 7;
    assert MembersAfter(s, 6, map["a" := Int(1)]) == Failure(ExpectingCloseBrace);
    ObjectValueAt(s, 0);
  }

  // ---------------------------------------------------------------------
  // Lists

  /** A comma before the closing bracket is accepted. */
  lemma ListTrailingComma(s: string)
    requires s == "[1,2,]"
    ensures Document(s) == Success(List([Int(1), Int(2)]))
  {
    assert IntText(1) == "1" && s[1..2] == "1";
    IntValueAt(s, 1, 1);
    assert IntText(2) == "2" && s[3..4] == "2";
    IntValueAt(s, 3, 2);
    assert [Int(1)] + [Int(2)] == [Int(1), Int(2)];
    assert ElementsFrom(s, 5, [Int(1), Int(2)]) == Success(Parsed(List([Int(1), Int(2)]), 6));
    assert ElementsFrom(s, 3, [Int(1)]) == ElementsAfter(s, 4, [Int(1), Int(2)]);
    assert ElementsAfter(s, 4, [Int(1), Int(2)]) == ElementsFrom(s, 5, [Int(1), Int(2)]);
    assert [] + [Int(1)] == [Int(1)];
    assert ElementsFrom(s, 1, []) == ElementsAfter(s, 2, [Int(1)]) == ElementsFrom(s, 3, [Int(1)]);
    ListValueAt(s, 0);
    DocumentOf(s, List([Int(1), Int(2)]), 6);
  }

  /** Running off the end of an unclosed list is the index error, not
      "Expecting ]". */
  lemma UnclosedList(s: string)
    requires s == "[1,2"
    ensures Document(s) == Failure(IndexOutOfRange)
  {
    assert IntText(1) == "1" && s[1..2] == "1";
    IntValueAt(s, 1, 1);
    assert IntText(2) == "2" && s[3..4] == "2";
    IntValueAt(s, 3, 2);
    assert ElementsFrom(s, 3, [Int(1)]) == ElementsAfter(s, 4, [Int(1), Int(2)]) == Failure(IndexOutOfRange);
    assert [] + [Int(1)] == [Int(1)];
    assert ElementsFrom(s, 1, []) == ElementsAfter(s, 2, [Int(1)]) == ElementsFrom(s, 3, [Int(1)]);
    ListValueAt(s, 0);
  }

  /** Whitespace before a comma is not skipped. */
  lemma SpaceBeforeComma(s: string)
    requires s == "[1 ,2]"
    ensures Document(s) == Failure(ExpectingCloseBracket)
  {
    assert IntText(1) == "1" && s[1..2] == "1";
    IntValueAt(s, 1, 1);
    assert WhiteSpaceEnd(s, 2) == 3;
    assert ElementsAfter(s, 2, [Int(1)]) == Failure(ExpectingCloseBracket);
    ListValueAt(s, 0);
  }

  // ---------------------------------------------------------------------
  // Whole documents

  lemma OtherErrors()
    ensures Document("") == Failure(EmptyFile)
    ensures Document(" \t\r\n") == Failure(EmptyFile)
    ensures Document("x") == Failure(InvalidJson)
  {
  }

  /** Text after the first value is not read, even when it starts with a
      number character, unless it continues a number that ends the text. */
  lemma TrailingText()
    ensures Document("1 x") == Success(Int(1))
    ensures Document("[] ]") == Success(List([]))
    ensures Document("[]5") == Success(List([]))
    ensures Document("1" + "2") == Success(Int(12))
  {
    assert IntText(1) == "1";
    DocumentIntText(1);
    DocumentIgnoresTrailingText("1", " x");
    assert "1" + " x" == "1 x";
    DocumentIgnoresTrailingText("[]", " ]");
    assert "[]" + " ]" == "[] ]";
    assert !EndsInNumber("[]");
    DocumentIgnoresTrailingText("[]", "5");
    assert "[]" + "5" == "[]5";
    assert IntText(12) == "12" == "1" + "2";
    DocumentIntText(12);
  }
}

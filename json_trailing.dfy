/**
  `parse` reads one value and looks at most one character past it: text
  appended after a complete document does not change the result, unless
  the value is a number whose run reaches the end of the document and the
  appended text continues that run (a number is the only value whose end
  is found by looking at the character after it).
*/
module JsonTrailing {
  import opened JsonValue
  import opened JsonGrammar

  /** `s2` starts with `s`. */
  predicate Extends(s: string, s2: string) {
    |s| <= |s2| && forall k :: 0 <= k < |s| ==> s2[k] == s[k]
  }

  /** In `s2`, the character at position `|s|` does not continue a run
      that ends at `end`: the run stops before the end of `s`, or `s2`
      holds no number character at `|s|`. */
  predicate RunClosed(s: string, s2: string, end: nat) {
    end < |s| || |s2| <= |s| || !IsNumberChar(s2[|s|])
  }

  /** `p`, read from `s`, is not a number, or is a number whose run `s2`
      does not continue. */
  predicate Settled(s: string, s2: string, p: Parsed) {
    !(p.val.Int? || p.val.Float?) || RunClosed(s, s2, p.next)
  }

  lemma {:induction false} WhiteSpaceEndFrame(s: string, s2: string, i: nat)
    requires Extends(s, s2) && i <= |s| && WhiteSpaceEnd(s, i) < |s|
    ensures WhiteSpaceEnd(s2, i) == WhiteSpaceEnd(s, i)
    decreases |s| - i
  {
    if IsWhiteSpace(s[i]) {
      WhiteSpaceEndFrame(s, s2, i + 1);
    }
  }

  lemma {:induction false} NumberRunEndFrame(s: string, s2: string, i: nat)
    requires Extends(s, s2) && i <= |s| && RunClosed(s, s2, NumberRunEnd(s, i))
    ensures NumberRunEnd(s2, i) == NumberRunEnd(s, i)
    decreases |s| - i
  {
    if i < |s| && IsNumberChar(s[i]) {
      NumberRunEndFrame(s, s2, i + 1);
    }
  }

  lemma NumberAtFrame(s: string, s2: string, i: nat)
    requires Extends(s, s2) && i <= |s| && RunClosed(s, s2, NumberRunEnd(s, i))
    ensures NumberAt(s2, i) == NumberAt(s, i)
  {
    NumberRunEndFrame(s, s2, i);
    var j := NumberRunEnd(s, i);
    assert s2[i..j] == s[i..j];
  }

  lemma LiteralAtFrame(s: string, s2: string, i: nat, keyword: string, v: Value)
    requires Extends(s, s2) && i <= |s| && LiteralAt(s, i, keyword, v).Success?
    ensures LiteralAt(s2, i, keyword, v) == LiteralAt(s, i, keyword, v)
  {
    assert s2[i..i + |keyword|] == s[i..i + |keyword|];
  }

  lemma {:induction false} StringBodyFrame(s: string, s2: string, j: nat, quote: char)
    requires Extends(s, s2) && j <= |s| && StringBody(s, j, quote).Success?
    ensures StringBody(s2, j, quote) == StringBody(s, j, quote)
    decreases |s| - j
  {
    if s[j] == quote {
    } else if s[j] == '\\' {
      StringBodyFrame(s, s2, j + 2, quote);
    } else {
      StringBodyFrame(s, s2, j + 1, quote);
    }
  }

  /** A value read from `s` is read the same way from any text that starts
      with `s`, unless it is a number whose run that text continues. */
  lemma {:induction false} ValueAtFrame(s: string, s2: string, i: nat)
    requires Extends(s, s2) && i <= |s| && ValueAt(s, i).Success?
    requires Settled(s, s2, ValueAt(s, i).value)
    ensures ValueAt(s2, i) == ValueAt(s, i)
    decreases |s| - i, 3
  {
    DispatchFrame(s, s2, i);
  }

  lemma {:induction false} DispatchFrame(s: string, s2: string, i: nat)
    requires Extends(s, s2) && i < |s| && Dispatch(s, i).Success?
    requires Settled(s, s2, Dispatch(s, i).value)
    ensures Dispatch(s2, i) == Dispatch(s, i)
    decreases |s| - i, 2
  {
    var c := s[i];
    if c == '{' {
      ObjectAtFrame(s, s2, i);
    } else if c == '[' {
      ListAtFrame(s, s2, i);
    } else if c == '"' || c == '\'' {
      StringBodyFrame(s, s2, i + 1, c);
    } else if IsNumberFirstChar(c) {
      NumberAtFrame(s, s2, i);
    } else if c == 't' {
      LiteralAtFrame(s, s2, i, "true", Bool(true));
    } else if c == 'f' {
      LiteralAtFrame(s, s2, i, "false", Bool(false));
    } else if c == 'n' {
      LiteralAtFrame(s, s2, i, "null", Null);
    }
  }

  lemma {:induction false} ObjectAtFrame(s: string, s2: string, i: nat)
    requires Extends(s, s2) && i < |s| && ObjectAt(s, i).Success?
    ensures ObjectAt(s2, i) == ObjectAt(s, i)
    decreases |s| - i, 1
  {
    WhiteSpaceEndFrame(s, s2, i + 1);
    MembersFromFrame(s, s2, WhiteSpaceEnd(s, i + 1), map[]);
  }

  lemma {:induction false} MemberAtFrame(s: string, s2: string, j: nat)
    requires Extends(s, s2) && j <= |s| && MemberAt(s, j).Success?
    requires MemberAt(s, j).value.next < |s|
    ensures MemberAt(s2, j) == MemberAt(s, j)
    decreases |s| - j, 4
  {
    ValueAtFrame(s, s2, j);
    var key := ValueAt(s, j).value;
    WhiteSpaceEndFrame(s, s2, key.next);
    var colon := WhiteSpaceEnd(s, key.next);
    WhiteSpaceEndFrame(s, s2, colon + 1);
    ValueAtFrame(s, s2, WhiteSpaceEnd(s, colon + 1));
  }

  lemma {:induction false} MembersFromFrame(s: string, s2: string, j: nat, fields: map<string, Value>)
    requires Extends(s, s2) && j <= |s| && MembersFrom(s, j, fields).Success?
    ensures MembersFrom(s2, j, fields) == MembersFrom(s, j, fields)
    decreases |s| - j, 5
  {
    if s[j] != '}' {
      assert MemberAt(s, j).value.next < |s|;
      MemberAtFrame(s, s2, j);
      var m := MemberAt(s, j).value;
      MembersAfterFrame(s, s2, m.next, fields[m.key := m.val]);
    }
  }

  lemma {:induction false} MembersAfterFrame(s: string, s2: string, k: nat, fields: map<string, Value>)
    requires Extends(s, s2) && k <= |s| && MembersAfter(s, k, fields).Success?
    ensures MembersAfter(s2, k, fields) == MembersAfter(s, k, fields)
    decreases |s| - k, 5
  {
    if s[k] == ',' {
      WhiteSpaceEndFrame(s, s2, k + 1);
      MembersFromFrame(s, s2, WhiteSpaceEnd(s, k + 1), fields);
    } else {
      WhiteSpaceEndFrame(s, s2, k);
    }
  }

  lemma {:induction false} ListAtFrame(s: string, s2: string, i: nat)
    requires Extends(s, s2) && i < |s| && ListAt(s, i).Success?
    ensures ListAt(s2, i) == ListAt(s, i)
    decreases |s| - i, 1
  {
    WhiteSpaceEndFrame(s, s2, i + 1);
    ElementsFromFrame(s, s2, WhiteSpaceEnd(s, i + 1), []);
  }

  lemma {:induction false} ElementsFromFrame(s: string, s2: string, j: nat, items: seq<Value>)
    requires Extends(s, s2) && j <= |s| && ElementsFrom(s, j, items).Success?
    ensures ElementsFrom(s2, j, items) == ElementsFrom(s, j, items)
    decreases |s| - j, 4
  {
    if s[j] != ']' {
      assert ValueAt(s, j).value.next < |s|;
      ValueAtFrame(s, s2, j);
      var item := ValueAt(s, j).value;
      ElementsAfterFrame(s, s2, item.next, items + [item.val]);
    }
  }

  lemma {:induction false} ElementsAfterFrame(s: string, s2: string, k: nat, items: seq<Value>)
    requires Extends(s, s2) && k <= |s| && ElementsAfter(s, k, items).Success?
    ensures ElementsAfter(s2, k, items) == ElementsAfter(s, k, items)
    decreases |s| - k, 4
  {
    if s[k] == ',' {
      WhiteSpaceEndFrame(s, s2, k + 1);
      ElementsFromFrame(s, s2, WhiteSpaceEnd(s, k + 1), items);
    } else {
      WhiteSpaceEndFrame(s, s2, k);
    }
  }

  /** The value `parse` reads from `s` is a number whose run reaches the
      end of `s`. */
  predicate EndsInNumber(s: string) {
    var i := WhiteSpaceEnd(s, 0);
    i < |s| && ValueAt(s, i).Success? && ValueAt(s, i).value.next == |s| &&
    (ValueAt(s, i).value.val.Int? || ValueAt(s, i).value.val.Float?)
  }

  /** Whatever follows a complete document is ignored, unless it continues
      a number that ends the document. */
  lemma DocumentIgnoresTrailingText(s: string, t: string)
    requires Document(s).Success?
    requires t == [] || !IsNumberChar(t[0]) || !EndsInNumber(s)
    ensures Document(s + t) == Document(s)
  {
    var s2 := s + t;
    assert Extends(s, s2);
    var i := WhiteSpaceEnd(s, 0);
    WhiteSpaceEndFrame(s, s2, 0);
    assert t != [] ==> s2[|s|] == t[0];
    ValueAtFrame(s, s2, i);
  }
}

/** Parsing and writing JSON values undo each other, and what comes after a value doesn't affect how it's parsed. */
module JsonTheory {
  import opened Json
  import opened Text
  import opened Wrappers

  // ---- The text after a token doesn't affect it.

  lemma {:induction false} SkipBlankExtends(s: string, t: string)
    ensures SkipBlank(s) != "" ==> SkipBlank(s + t) == SkipBlank(s) + t
    ensures SkipBlank(s) == "" ==> SkipBlank(s + t) == SkipBlank(t)
  {
    if s == "" {
      assert s + t == t;
    } else if IsBlank(s[0]) {
      SkipBlankExtends(s[1..], t);
      assert (s + t)[1..] == s[1..] + t;
    }
  }

  lemma {:induction false} CountDigitsExtends(s: string, t: string)
    requires CountDigits(s) < |s| || t == "" || !IsDigit(t[0])
    ensures CountDigits(s + t) == CountDigits(s)
  {
    if s == "" {
      assert s + t == t;
    } else if IsDigit(s[0]) {
      CountDigitsExtends(s[1..], t);
      assert (s + t)[1..] == s[1..] + t;
    }
  }

  /** The text can't be a continuation of a number. */
  predicate Ends(t: string) {
    t == "" || (!IsDigit(t[0]) && t[0] !in ".eE")
  }

  lemma IntegerExtends(s: string, t: string)
    requires IntegerLength(s).Some? && (IntegerLength(s).value < |s| || Ends(t))
    ensures IntegerLength(s + t) == IntegerLength(s)
  {
    if s != "" && s[0] != '0' {
      CountDigitsExtends(s, t);
    }
  }

  lemma FractionExtends(s: string, t: string)
    requires FractionLength(s).Some? && (FractionLength(s).value < |s| || Ends(t))
    ensures FractionLength(s + t) == FractionLength(s)
  {
    if s == "" {
      assert s + t == t;
    } else if s[0] == '.' {
      CountDigitsExtends(s[1..], t);
      assert (s + t)[1..] == s[1..] + t;
    }
  }

  lemma ExponentExtends(s: string, t: string)
    requires ExponentLength(s).Some? && (ExponentLength(s).value < |s| || Ends(t))
    ensures ExponentLength(s + t) == ExponentLength(s)
  {
    if s == "" {
      assert s + t == t;
    } else if s[0] in "eE" {
      var sign := if |s| > 1 && s[1] in "+-" then 1 else 0;
      CountDigitsExtends(s[1 + sign..], t);
      assert (s + t)[1 + sign..] == s[1 + sign..] + t;
    }
  }

  lemma UnsignedExtends(s: string, t: string)
    requires UnsignedLength(s).Some? && (UnsignedLength(s).value < |s| || Ends(t))
    ensures UnsignedLength(s + t) == UnsignedLength(s)
  {
    hide IntegerLength, FractionLength, ExponentLength;
    var i := IntegerLength(s).value;
    IntegerExtends(s, t);
    assert (s + t)[i..] == s[i..] + t;
    var f := FractionLength(s[i..]).value;
    FractionExtends(s[i..], t);
    assert (s + t)[i + f..] == s[i + f..] + t;
    ExponentExtends(s[i + f..], t);
  }

  lemma NumberExtends(s: string, t: string)
    requires NumberLength(s).Some? && (NumberLength(s).value < |s| || Ends(t))
    ensures NumberLength(s + t) == NumberLength(s)
  {
    hide UnsignedLength;
    if s[0] == '-' {
      UnsignedExtends(s[1..], t);
      assert (s + t)[1..] == s[1..] + t;
    } else {
      UnsignedExtends(s, t);
    }
  }

  lemma CodeUnitsAgree(a: string, b: string)
    requires |a| >= 6 && |b| >= 6 && a[..6] == b[..6]
    ensures CodeUnit(a) == CodeUnit(b)
  {
    hide HexValue;
    assert forall i :: 0 <= i < 6 ==> a[i] == a[..6][i] && b[i] == b[..6][i];
  }

  /** A character depends only on the text that it's written with. */
  lemma ScanCharAgrees(a: string, b: string)
    requires a != "" && ScanChar(a).Some?
    requires var n := ScanChar(a).value.1; n <= |b| && a[..n] == b[..n]
    ensures ScanChar(b) == ScanChar(a)
  {
    hide CodeUnit, SimpleEscape;
    var n := ScanChar(a).value.1;
    assert forall i :: 0 <= i < n ==> a[i] == a[..n][i] && b[i] == b[..n][i];
    if n >= 6 {
      assert a[..6] == a[..n][..6] && b[..6] == b[..n][..6];
      CodeUnitsAgree(a, b);
    }
    if n == 12 {
      assert a[6..][..6] == a[..n][6..] && b[6..][..6] == b[..n][6..];
      CodeUnitsAgree(a[6..], b[6..]);
    }
  }

  lemma ScanCharExtends(s: string, t: string)
    requires s != "" && ScanChar(s).Some?
    ensures ScanChar(s + t) == ScanChar(s)
  {
    hide ScanChar;
    var n := ScanChar(s).value.1;
    assert (s + t)[..n] == s[..n];
    ScanCharAgrees(s, s + t);
  }

  lemma {:induction false} StringExtends(s: string, t: string)
    requires StringLength(s).Some?
    ensures StringLength(s + t) == StringLength(s)
    decreases |s|
  {
    hide ScanChar;
    if s[0] != '"' {
      ScanCharExtends(s, t);
      var k := ScanChar(s).value.1;
      StringExtends(s[k..], t);
      assert (s + t)[k..] == s[k..] + t;
    }
  }

  // ---- The text before the end of a token is enough for it.

  lemma {:induction false} CountDigitsOfPrefix(s: string, m: nat)
    requires CountDigits(s) <= m <= |s|
    ensures CountDigits(s[..m]) == CountDigits(s)
  {
    if s != "" && IsDigit(s[0]) {
      CountDigitsOfPrefix(s[1..], m - 1);
      assert s[..m][1..] == s[1..][..m - 1];
    }
  }

  lemma IntegerOfPrefix(s: string, m: nat)
    requires IntegerLength(s).Some? && IntegerLength(s).value <= m <= |s|
    ensures IntegerLength(s[..m]) == IntegerLength(s)
  {
    if s[0] != '0' {
      CountDigitsOfPrefix(s, m);
    }
  }

  lemma FractionOfPrefix(s: string, m: nat)
    requires FractionLength(s).Some? && FractionLength(s).value <= m <= |s|
    ensures FractionLength(s[..m]) == FractionLength(s)
  {
    if FractionLength(s).value > 0 {
      CountDigitsOfPrefix(s[1..], m - 1);
      assert s[..m][1..] == s[1..][..m - 1];
    }
  }

  lemma ExponentOfPrefix(s: string, m: nat)
    requires ExponentLength(s).Some? && ExponentLength(s).value <= m <= |s|
    ensures ExponentLength(s[..m]) == ExponentLength(s)
  {
    if ExponentLength(s).value > 0 {
      var sign := if |s| > 1 && s[1] in "+-" then 1 else 0;
      CountDigitsOfPrefix(s[1 + sign..], m - 1 - sign);
      assert s[..m][1 + sign..] == s[1 + sign..][..m - 1 - sign];
    }
  }

  lemma UnsignedOfPrefix(s: string)
    requires UnsignedLength(s).Some?
    ensures UnsignedLength(s[..UnsignedLength(s).value]) == UnsignedLength(s)
  {
    hide IntegerLength, FractionLength, ExponentLength;
    var n := UnsignedLength(s).value;
    var i := IntegerLength(s).value;
    var f := FractionLength(s[i..]).value;
    IntegerOfPrefix(s, n);
    FractionOfPrefix(s[i..], n - i);
    ExponentOfPrefix(s[i + f..], n - i - f);
    assert s[..n][i..] == s[i..][..n - i] && s[..n][i + f..] == s[i + f..][..n - i - f];
  }

  lemma NumberOfPrefix(s: string)
    requires NumberLength(s).Some?
    ensures NumberLength(s[..NumberLength(s).value]) == NumberLength(s)
  {
    var n := NumberLength(s).value;
    if s[0] == '-' {
      UnsignedOfPrefix(s[1..]);
      assert s[..n][1..] == s[1..][..n - 1];
    } else {
      UnsignedOfPrefix(s);
    }
  }

  lemma ScanCharOfPrefix(s: string, m: nat)
    requires s != "" && ScanChar(s).Some? && ScanChar(s).value.1 <= m <= |s|
    ensures ScanChar(s[..m]) == ScanChar(s)
  {
    hide ScanChar;
    var n := ScanChar(s).value.1;
    assert s[..m][..n] == s[..n];
    ScanCharAgrees(s, s[..m]);
  }

  lemma {:induction false} StringOfPrefix(s: string)
    requires StringLength(s).Some?
    ensures StringLength(s[..StringLength(s).value + 1]) == StringLength(s)
    decreases |s|
  {
    hide ScanChar;
    if s[0] != '"' {
      var n, k := StringLength(s).value, ScanChar(s).value.1;
      ScanCharOfPrefix(s, n + 1);
      StringOfPrefix(s[k..]);
      assert s[..n + 1][k..] == s[k..][..n + 1 - k];
    }
  }

  lemma StringBody(s: string)
    requires StringLength(s).Some?
    ensures IsStringBody(s[..StringLength(s).value])
  {
    var n := StringLength(s).value;
    StringOfPrefix(s);
    assert s[..n] + "\"" == s[..n + 1];
  }

  // ---- The text after a value doesn't affect it, unless it's a number which goes on.

  lemma ValueExtends(s: string, t: string)
    requires ParseValue(s).Some? && (ParseValue(s).value.rest != "" || !ParseValue(s).value.value.Number?)
    ensures ParseValue(s + t) == Some(Parsed(ParseValue(s).value.value, ParseValue(s).value.rest + t))
    decreases |s|, 1
  {
    hide NumberLength, StringLength, SkipBlank;
    var p := ParseValue(s).value;
    assert (s + t)[1..] == s[1..] + t;
    if s[0] == '"' {
      StringExtends(s[1..], t);
      var n := StringLength(s[1..]).value;
      assert (s + t)[1..n + 1] == s[1..n + 1] && (s + t)[n + 2..] == s[n + 2..] + t;
    } else if s[0] == '[' {
      SkipBlankExtends(s[1..], t);
      var s' := SkipBlank(s[1..]);
      if s'[0] == ']' {
        assert (s' + t)[1..] == s'[1..] + t;
      } else {
        ItemsExtend(s', t);
      }
    } else if s[0] == '{' {
      SkipBlankExtends(s[1..], t);
      var s' := SkipBlank(s[1..]);
      if s'[0] == '}' {
        assert (s' + t)[1..] == s'[1..] + t;
      } else {
        MembersExtend(s', t, {});
      }
    } else if s[0] in "ntf" {
      LiteralExtends(s, t);
    } else {
      NumberExtends(s, t);
      var n := NumberLength(s).value;
      assert (s + t)[..n] == s[..n] && (s + t)[n..] == s[n..] + t;
    }
  }

  lemma LiteralExtends(s: string, t: string)
    requires s != "" && s[0] in "ntf" && ParseValue(s).Some?
    ensures ParseValue(s + t) == Some(Parsed(ParseValue(s).value.value, ParseValue(s).value.rest + t))
  {
    var n := |s| - |ParseValue(s).value.rest|;
    assert (s + t)[n..] == s[n..] + t;
  }

  lemma ItemsExtend(s: string, t: string)
    requires ParseItems(s).Some?
    ensures ParseItems(s + t) == Some(Parsed(ParseItems(s).value.value, ParseItems(s).value.rest + t))
    decreases |s|, 2
  {
    hide SkipBlank, ParseValue;
    var v := ParseValue(s).value;
    var rest := SkipBlank(v.rest);
    NotBlank(v.rest);
    ValueExtends(s, t);
    SkipBlankExtends(v.rest, t);
    assert (rest + t)[1..] == rest[1..] + t;
    if rest[0] == ',' {
      NotEmpty(rest[1..]);
      SkipBlankExtends(rest[1..], t);
      ItemsExtend(SkipBlank(rest[1..]), t);
    }
  }

  lemma NotBlank(s: string)
    ensures SkipBlank(s) != "" ==> s != ""
  {}

  /** There's something to parse. */
  lemma NotEmpty(s: string)
    ensures ParseItems(SkipBlank(s)).Some? ==> SkipBlank(s) != ""
    ensures forall names :: ParseMembers(SkipBlank(s), names).Some? ==> SkipBlank(s) != ""
  {}

  lemma MembersExtend(s: string, t: string, names: set<seq<nat>>)
    requires ParseMembers(s, names).Some?
    ensures ParseMembers(s + t, names) == Some(Parsed(ParseMembers(s, names).value.value, ParseMembers(s, names).value.rest + t))
    decreases |s|, 2
  {
    hide SkipBlank, ParseValue, ParseItems, StringLength, Meaning;
    var n := StringLength(s[1..]).value;
    assert (s + t)[1..] == s[1..] + t;
    StringExtends(s[1..], t);
    assert (s + t)[1..n + 1] == s[1..n + 1] && (s + t)[n + 2..] == s[n + 2..] + t;
    SkipBlankExtends(s[n + 2..], t);
    var colon := SkipBlank(s[n + 2..]);
    assert (colon + t)[1..] == colon[1..] + t;
    SkipBlankExtends(colon[1..], t);
    ParsedIsNotEmpty(SkipBlank(colon[1..]));
    var v := ParseValue(SkipBlank(colon[1..])).value;
    NotBlank(v.rest);
    ValueExtends(SkipBlank(colon[1..]), t);
    var rest := SkipBlank(v.rest);
    SkipBlankExtends(v.rest, t);
    assert (rest + t)[1..] == rest[1..] + t;
    if rest[0] == ',' {
      NotEmpty(rest[1..]);
      SkipBlankExtends(rest[1..], t);
      MembersExtend(SkipBlank(rest[1..]), t, names + {Meaning(s[1..n + 1])});
    }
  }

  lemma ParsedIsNotEmpty(s: string)
    ensures ParseValue(s).Some? ==> s != ""
  {}

  // ---- Parsing takes values from the beginning of the text.

  predicate IsSuffix(r: string, s: string) {
    |r| <= |s| && s[|s| - |r|..] == r
  }

  lemma SuffixOfSuffix(a: string, b: string, c: string)
    requires IsSuffix(a, b) && IsSuffix(b, c)
    ensures IsSuffix(a, c)
  {
    assert c[|c| - |a|..] == c[|c| - |b|..][|b| - |a|..];
  }

  /** Skipping a few characters, and then blanks. */
  lemma {:induction false} SkippedIsSuffix(s: string, n: nat)
    requires n <= |s|
    ensures IsSuffix(s[n..], s) && IsSuffix(SkipBlank(s[n..]), s)
    decreases |s| - n
  {
    if n < |s| && IsBlank(s[n]) {
      SkippedIsSuffix(s, n + 1);
      assert s[n..][1..] == s[n + 1..];
    }
  }

  lemma ArrayFrom(s: string)
    requires s != "" && s[0] == '['
    ensures var s' := SkipBlank(s[1..]);
      ParseValue(s) ==
        if s' != "" && s'[0] == ']' then Some(Parsed(Array(NoItems), s'[1..]))
        else
          var p := ParseItems(s');
          if p == None then None else Some(Parsed(Array(p.value.value), p.value.rest))
  {
    hide SkipBlank, ParseItems, ParseMembers, StringLength, NumberLength, ParseLiteral;
  }

  lemma ObjectFrom(s: string)
    requires s != "" && s[0] == '{'
    ensures var s' := SkipBlank(s[1..]);
      ParseValue(s) ==
        if s' != "" && s'[0] == '}' then Some(Parsed(Object(NoMembers), s'[1..]))
        else
          var p := ParseMembers(s', {});
          if p == None then None else Some(Parsed(Object(p.value.value), p.value.rest))
  {
    hide SkipBlank, ParseItems, ParseMembers, StringLength, NumberLength, ParseLiteral;
  }

  lemma ScalarIsSuffix(s: string)
    requires ParseValue(s).Some? && s != "" && s[0] != '[' && s[0] != '{'
    ensures IsSuffix(ParseValue(s).value.rest, s)
  {
    hide SkipBlank, ParseItems, ParseMembers, StringLength, NumberLength;
    var rest := ParseValue(s).value.rest;
    assert rest == s[|s| - |rest|..];
  }

  lemma {:induction false} ParsedIsSuffix(s: string)
    requires ParseValue(s).Some?
    ensures IsSuffix(ParseValue(s).value.rest, s)
    decreases |s|, 1
  {
    ParsedIsNotEmpty(s);
    hide SkipBlank, IsSuffix, ParseValue, ParseItems, ParseMembers;
    if s[0] == '[' || s[0] == '{' {
      SkippedIsSuffix(s, 1);
      var s' := SkipBlank(s[1..]);
      if s[0] == '[' {
        ArrayFrom(s);
      } else {
        ObjectFrom(s);
      }
      if s' != "" && s'[0] == (if s[0] == '[' then ']' else '}') {
        SkippedIsSuffix(s', 1);
      } else if s[0] == '[' {
        ItemsAreSuffix(s');
      } else {
        MembersAreSuffix(s', {});
      }
      SuffixOfSuffix(ParseValue(s).value.rest, s', s);
    } else {
      ScalarIsSuffix(s);
    }
  }

  lemma {:induction false} ItemsAreSuffix(s: string)
    requires ParseItems(s).Some?
    ensures IsSuffix(ParseItems(s).value.rest, s)
    decreases |s|, 2
  {
    hide SkipBlank, ParseValue, IsSuffix;
    ParsedIsSuffix(s);
    AfterValueIsSuffix(ParseValue(s).value.rest, s);
    var rest := SkipBlank(ParseValue(s).value.rest);
    if rest[0] == ',' {
      var next := SkipBlank(rest[1..]);
      ItemsAreSuffix(next);
      SuffixOfSuffix(ParseItems(next).value.rest, next, s);
    }
  }

  /** Whatever comes after a value, and after the delimiter that follows it. */
  lemma AfterValueIsSuffix(r: string, s: string)
    requires IsSuffix(r, s)
    ensures var rest := SkipBlank(r);
      rest != "" ==> IsSuffix(rest[1..], s) && IsSuffix(SkipBlank(rest[1..]), s)
  {
    var rest := SkipBlank(r);
    SkippedIsSuffix(r, 0);
    assert r[0..] == r;
    SuffixOfSuffix(rest, r, s);
    if rest != "" {
      SkippedIsSuffix(rest, 1);
      SuffixOfSuffix(rest[1..], rest, s);
      SuffixOfSuffix(SkipBlank(rest[1..]), rest, s);
    }
  }

  /** The parts of an object's members: the name, its value, and what comes next. */
  lemma MembersFrom(s: string, names: set<seq<nat>>)
    requires ParseMembers(s, names).Some?
    ensures s != "" && StringLength(s[1..]).Some?
    ensures var n := StringLength(s[1..]).value;
      && n + 2 <= |s|
      && var colon := SkipBlank(s[n + 2..]);
         && colon != ""
         && var v := ParseValue(SkipBlank(colon[1..]));
            && v.Some?
            && var rest := SkipBlank(v.value.rest);
               && rest != ""
               && var p := ParseMembers(s, names).value;
                  if rest[0] == ',' then
                    var more := ParseMembers(SkipBlank(rest[1..]), names + {Meaning(s[1..n + 1])});
                    more.Some? && p.rest == more.value.rest
                  else p.rest == rest[1..]
  {
    hide SkipBlank, ParseValue, StringLength, Meaning;
  }

  lemma {:induction false} MembersAreSuffix(s: string, names: set<seq<nat>>)
    requires ParseMembers(s, names).Some?
    ensures IsSuffix(ParseMembers(s, names).value.rest, s)
    decreases |s|, 2
  {
    hide SkipBlank, ParseValue, ParseMembers, IsSuffix, StringLength, Meaning;
    MembersFrom(s, names);
    var n := StringLength(s[1..]).value;
    SkippedIsSuffix(s, n + 2);
    var colon := SkipBlank(s[n + 2..]);
    SkippedIsSuffix(colon, 1);
    var value := SkipBlank(colon[1..]);
    SuffixOfSuffix(value, colon, s);
    ParsedIsSuffix(value);
    var after := ParseValue(value).value.rest;
    SuffixOfSuffix(after, value, s);
    AfterValueIsSuffix(after, s);
    var rest := SkipBlank(after);
    if rest[0] == ',' {
      var next, more := SkipBlank(rest[1..]), names + {Meaning(s[1..n + 1])};
      MembersAreSuffix(next, more);
      SuffixOfSuffix(ParseMembers(next, more).value.rest, next, s);
    }
  }
}

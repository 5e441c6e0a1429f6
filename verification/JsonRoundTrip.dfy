/** Writing a value in the compact form, and parsing it again. */
module JsonRoundTrip {
  import opened Json
  import opened JsonTheory
  import opened Text
  import opened Wrappers

  /** The beginning of a value can't be mistaken for anything else. */
  lemma PrintHead(v: Value)
    requires IsValid(v)
    ensures Print(v) != "" && !IsBlank(Print(v)[0]) && Print(v)[0] !in ",:]}"
    ensures v.Number? ==> Print(v)[0] !in "ntf\"[{"
  {
    if v.Number? {
      assert v.token[0] == '-' || IsDigit(v.token[0]);
    }
  }

  lemma SkipNothing(s: string)
    requires s != "" && !IsBlank(s[0])
    ensures SkipBlank(s) == s
  {}

  lemma StringParses(raw: string, rest: string)
    requires IsStringBody(raw)
    ensures StringLength(raw + "\"" + rest) == Some(|raw|)
  {
    StringExtends(raw + "\"", rest);
  }

  lemma NumberParses(v: Value, rest: string)
    requires v.Number? && IsValid(v) && Ends(rest)
    ensures ParseValue(v.token + rest) == Some(Parsed(v, rest))
  {
    hide NumberLength;
    var token := v.token;
    PrintHead(v);
    NumberExtends(token, rest);
    assert (token + rest)[..|token|] == token && (token + rest)[|token|..] == rest;
  }

  lemma StringFrom(s: string, n: nat)
    requires s != "" && s[0] == '"' && StringLength(s[1..]) == Some(n)
    ensures ParseValue(s) == Some(Parsed(String(s[1..n + 1]), s[n + 2..]))
  {
    hide SkipBlank, ParseItems, ParseMembers, StringLength, NumberLength, ParseLiteral;
  }

  lemma QuotedParts(raw: string, rest: string)
    ensures var s := "\"" + raw + "\"" + rest;
      && |s| == |raw| + |rest| + 2 && s[0] == '"' && s[1..] == raw + "\"" + rest
      && s[1..|raw| + 1] == raw && s[|raw| + 2..] == rest
  {}

  lemma StringValueParses(raw: string, rest: string)
    requires IsStringBody(raw)
    ensures ParseValue("\"" + raw + "\"" + rest) == Some(Parsed(String(raw), rest))
  {
    hide StringLength, ParseValue, IsStringBody;
    StringParses(raw, rest);
    QuotedParts(raw, rest);
    StringFrom("\"" + raw + "\"" + rest, |raw|);
  }

  lemma LiteralParses(v: Value, rest: string)
    requires v.Null? || v.True? || v.False?
    ensures ParseValue(Print(v) + rest) == Some(Parsed(v, rest))
  {
    assert (Print(v) + rest)[|Print(v)|..] == rest;
  }

  /** An array or an object, given how its contents are parsed. */
  lemma BracketParses(open: char, body: string, rest: string)
    requires open in "[{" && body != "" && !IsBlank(body[0])
    ensures var s := [open] + body + rest;
      s[0] == open && SkipBlank(s[1..]) == body + rest
  {
    assert ([open] + body + rest)[1..] == body + rest;
  }

  /** A valid value, in the compact form, is parsed back to itself. */
  lemma {:induction false} PrintParses(v: Value, rest: string)
    requires IsValid(v) && (v.Number? ==> Ends(rest))
    ensures ParseValue(Print(v) + rest) == Some(Parsed(v, rest))
    decreases v, 0
  {
    match v
    case Number(_) => NumberParses(v, rest);
    case String(raw) => StringValueParses(raw, rest);
    case Array(items) => ArrayParses(items, rest);
    case Object(members) => ObjectParses(members, rest);
    case _ => LiteralParses(v, rest);
  }

  lemma {:induction false} ArrayParses(items: Items, rest: string)
    requires AreValidItems(items)
    ensures ParseValue(Print(Array(items)) + rest) == Some(Parsed(Array(items), rest))
    decreases items, 1
  {
    PrintIs(Array(items));
    ItemsHead(items, rest);
    hide SkipBlank, ParseValue, ParseItems, Print, PrintItems;
    BracketParses('[', PrintItems(items), rest);
    ArrayFrom("[" + PrintItems(items) + rest);
    if items.NoItems? {
      assert ("]" + rest)[1..] == rest;
    } else {
      ItemsParse(items, rest);
    }
  }

  lemma {:induction false} ObjectParses(members: Members, rest: string)
    requires AreValidMembers(members, {})
    ensures ParseValue(Print(Object(members)) + rest) == Some(Parsed(Object(members), rest))
    decreases members, 1
  {
    PrintIs(Object(members));
    MembersHead(members);
    hide SkipBlank, ParseValue, ParseMembers, Print, PrintMembers;
    BracketParses('{', PrintMembers(members), rest);
    ObjectFrom("{" + PrintMembers(members) + rest);
    if members.NoMembers? {
      assert ("}" + rest)[1..] == rest;
    } else {
      MembersParse(members, rest, {});
    }
  }

  lemma PrintIs(v: Value)
    ensures v.Array? ==> Print(v) == "[" + PrintItems(v.items)
    ensures v.Object? ==> Print(v) == "{" + PrintMembers(v.members)
  {}

  lemma MembersHead(members: Members)
    ensures var s := PrintMembers(members); s != "" && s[0] == if members.Member? then '"' else '}'
    ensures members.NoMembers? ==> PrintMembers(members) == "}"
  {}

  lemma ItemsHead(items: Items, rest: string)
    requires AreValidItems(items)
    ensures var s := PrintItems(items); s != "" && !IsBlank(s[0]) && (items.Item? <==> s[0] != ']')
    ensures items.NoItems? ==> PrintItems(items) == "]"
  {
    if items.Item? {
      PrintHead(items.value);
    }
  }

  /** What follows a value in an array or an object. */
  lemma AfterValue(v: Value, next: char, rest: string)
    requires IsValid(v) && next in ",]}"
    ensures ParseValue(Print(v) + ([next] + rest)) == Some(Parsed(v, [next] + rest))
    ensures SkipBlank([next] + rest) == [next] + rest && ([next] + rest)[1..] == rest
    decreases v, 1
  {
    PrintParses(v, [next] + rest);
  }

  lemma {:induction false} ItemsParse(items: Items, rest: string)
    requires items.Item? && AreValidItems(items)
    ensures ParseItems(PrintItems(items) + rest) == Some(Parsed(items, rest))
    decreases items, 0
  {
    hide SkipBlank, ParseValue, Print;
    if items.rest.NoItems? {
      AfterValue(items.value, ']', rest);
      assert PrintItems(items) + rest == Print(items.value) + ("]" + rest);
    } else {
      var more := PrintItems(items.rest) + rest;
      AfterValue(items.value, ',', more);
      assert PrintItems(items) + rest == Print(items.value) + ("," + more);
      ItemsHead(items.rest, rest);
      SkipNothing(more);
      ItemsParse(items.rest, rest);
    }
  }

  lemma {:induction false} MembersParse(members: Members, rest: string, names: set<seq<nat>>)
    requires members.Member? && AreValidMembers(members, names)
    ensures ParseMembers(PrintMembers(members) + rest, names) == Some(Parsed(members, rest))
    decreases members, 0
  {
    hide SkipBlank, ParseValue, Print, StringLength, Meaning, PrintMember, PrintMembers;
    var name, v := members.name, members.value;
    if members.rest.NoMembers? {
      LastMemberParses(name, v, rest, names);
    } else {
      var more := PrintMembers(members.rest) + rest;
      AfterValue(v, ',', more);
      MemberParses(name, v, "," + more);
      PrintMembersFirst(members, rest);
      SkipNothing(more);
      MembersParse(members.rest, rest, names + {Meaning(name)});
    }
  }

  lemma PrintMembersFirst(members: Members, rest: string)
    requires members.Member? && members.rest.Member?
    ensures PrintMembers(members) + rest
         == PrintMember(members.name, members.value) + ("," + (PrintMembers(members.rest) + rest))
    ensures PrintMembers(members.rest) != "" && PrintMembers(members.rest)[0] == '"'
  {
    hide Print;
  }

  lemma LastMemberParses(name: string, v: Value, rest: string, names: set<seq<nat>>)
    requires IsStringBody(name) && Meaning(name) !in names && IsValid(v)
    ensures ParseMembers(PrintMembers(Member(name, v, NoMembers)) + rest, names)
         == Some(Parsed(Member(name, v, NoMembers), rest))
    decreases v, 2
  {
    hide SkipBlank, ParseValue, Print, StringLength, Meaning;
    AfterValue(v, '}', rest);
    MemberParses(name, v, "}" + rest);
    assert PrintMembers(Member(name, v, NoMembers)) + rest == PrintMember(name, v) + ("}" + rest);
    hide PrintMember;
  }

  function PrintMember(name: string, v: Value): string {
    "\"" + name + "\":" + Print(v)
  }

  /** One member, given how its value is parsed. */
  lemma MemberParses(name: string, v: Value, tail: string)
    requires IsStringBody(name) && IsValid(v)
    ensures var s := PrintMember(name, v) + tail;
      && s != "" && s[0] == '"' && StringLength(s[1..]) == Some(|name|) && s[1..|name| + 1] == name
      && var colon := SkipBlank(s[|name| + 2..]);
      && colon != "" && colon[0] == ':' && SkipBlank(colon[1..]) == Print(v) + tail
  {
    hide SkipBlank, Print, StringLength;
    var s := PrintMember(name, v) + tail;
    var after := ":" + Print(v) + tail;
    assert s[1..] == name + "\"" + after;
    StringParses(name, after);
    assert s[1..|name| + 1] == name && s[|name| + 2..] == after;
    ColonParses(v, tail);
  }

  lemma ColonParses(v: Value, tail: string)
    requires IsValid(v)
    ensures var s := ":" + Print(v) + tail;
      SkipBlank(s) == s && s[1..] == Print(v) + tail && SkipBlank(s[1..]) == Print(v) + tail
  {
    PrintHead(v);
    var s := ":" + Print(v) + tail;
    assert s[1..] == Print(v) + tail;
    SkipNothing(Print(v) + tail);
  }

  // ---- What was parsed is valid, and isn't longer in the compact form.

  lemma NothingInside()
    ensures AreValidItems(NoItems) && PrintItems(NoItems) == "]"
    ensures AreValidMembers(NoMembers, {}) && PrintMembers(NoMembers) == "}"
  {}

  /** All the parts of a parsed value are well-formed. In particular, the names in each object are unique. */
  lemma {:induction false} ParsedIsValid(s: string)
    requires ParseValue(s).Some?
    ensures IsValid(ParseValue(s).value.value)
    ensures |Print(ParseValue(s).value.value)| + |ParseValue(s).value.rest| <= |s|
    decreases |s|, 1
  {
    NothingInside();
    hide NumberLength, StringLength, SkipBlank, PrintItems, PrintMembers, AreValidItems, AreValidMembers, IsStringBody;
    if s[0] == '"' {
      var n := StringLength(s[1..]).value;
      StringBody(s[1..]);
      assert s[1..][..n] == s[1..n + 1];
    } else if s[0] == '[' {
      var s' := SkipBlank(s[1..]);
      if s'[0] != ']' {
        ParsedItemsAreValid(s');
      }
    } else if s[0] == '{' {
      var s' := SkipBlank(s[1..]);
      if s'[0] != '}' {
        ParsedMembersAreValid(s', {});
      }
    } else if s[0] !in "ntf" {
      NumberOfPrefix(s);
    }
  }

  lemma {:induction false} ParsedItemsAreValid(s: string)
    requires ParseItems(s).Some?
    ensures ParseItems(s).value.value.Item? && AreValidItems(ParseItems(s).value.value)
    ensures |PrintItems(ParseItems(s).value.value)| + |ParseItems(s).value.rest| <= |s|
    decreases |s|, 2
  {
    hide SkipBlank, ParseValue, Print;
    ParsedIsValid(s);
    var rest := SkipBlank(ParseValue(s).value.rest);
    if rest[0] == ',' {
      ParsedItemsAreValid(SkipBlank(rest[1..]));
    }
  }

  lemma {:induction false} ParsedMembersAreValid(s: string, names: set<seq<nat>>)
    requires ParseMembers(s, names).Some?
    ensures ParseMembers(s, names).value.value.Member? && AreValidMembers(ParseMembers(s, names).value.value, names)
    ensures |PrintMembers(ParseMembers(s, names).value.value)| + |ParseMembers(s, names).value.rest| <= |s|
    decreases |s|, 2
  {
    hide SkipBlank, ParseValue, Print, StringLength, Meaning;
    var n := StringLength(s[1..]).value;
    var name := s[1..n + 1];
    StringBody(s[1..]);
    assert s[1..][..n] == name;
    var colon := SkipBlank(s[n + 2..]);
    ParsedIsValid(SkipBlank(colon[1..]));
    var rest := SkipBlank(ParseValue(SkipBlank(colon[1..])).value.rest);
    if rest[0] == ',' {
      ParsedMembersAreValid(SkipBlank(rest[1..]), names + {Meaning(name)});
    }
  }
}

/** The grammar of JSON values, with white space between their parts: exactly these texts are parsed, and to these
    values. It's independent of the parser. */
module JsonGrammar {
  import opened Json
  import opened JsonRoundTrip
  import opened JsonTheory
  import opened JsonTokens
  import opened Text
  import opened Wrappers

  // ---- Documents (sections 2 to 5 of RFC 8259).

  /** A value as it's written, with all its white space. Scalars have none. */
  datatype Doc =
    | Scalar(value: Value)
    | EmptyArray(blank: string)
    | FullArray(items: DocItems)
    | EmptyObject(blank: string)
    | FullObject(members: DocMembers)

  datatype DocItems = DocItems(before: string, doc: Doc, after: string, rest: Option<DocItems>)

  /** The white space is before and after the name, and before and after the value. */
  datatype DocMembers =
    DocMembers(before: string, name: string, afterName: string, beforeDoc: string, doc: Doc, after: string,
               rest: Option<DocMembers>)

  /** Spaces, tabs, and line breaks. */
  predicate AreBlanks(s: string) {
    forall c :: c in s ==> c in [' ', '\t', '\n', '\r']
  }

  /** The names in an object are unique: none of them has one of the given meanings. */
  ghost predicate IsDoc(d: Doc) {
    match d
    case Scalar(Number(token)) => exists p: NumberParts :: p.IsWellFormed() && p.Text() == token
    case Scalar(String(raw)) => exists cs :: AreWellFormed(cs) && TextOf(cs) == raw
    case Scalar(v) => v.Null? || v.True? || v.False?
    case EmptyArray(blank) => AreBlanks(blank)
    case FullArray(items) => AreDocItems(items)
    case EmptyObject(blank) => AreBlanks(blank)
    case FullObject(members) => AreDocMembers(members, {})
  }

  ghost predicate AreDocItems(items: DocItems) {
    && AreBlanks(items.before) && IsDoc(items.doc) && AreBlanks(items.after)
    && (items.rest.Some? ==> AreDocItems(items.rest.value))
  }

  ghost predicate AreDocMembers(m: DocMembers, names: set<seq<nat>>) {
    && AreBlanks(m.before) && AreBlanks(m.afterName) && AreBlanks(m.beforeDoc) && AreBlanks(m.after)
    && (exists cs :: AreWellFormed(cs) && TextOf(cs) == m.name)
    && Meaning(m.name) !in names && IsDoc(m.doc)
    && (m.rest.Some? ==> AreDocMembers(m.rest.value, names + {Meaning(m.name)}))
  }

  function Write(d: Doc): string {
    match d
    case Scalar(Null) => "null"
    case Scalar(True) => "true"
    case Scalar(False) => "false"
    case Scalar(Number(token)) => token
    case Scalar(String(raw)) => "\"" + raw + "\""
    case Scalar(_) => ""
    case EmptyArray(blank) => "[" + blank + "]"
    case FullArray(items) => "[" + WriteItems(items)
    case EmptyObject(blank) => "{" + blank + "}"
    case FullObject(members) => "{" + WriteMembers(members)
  }

  function WriteItems(items: DocItems): string {
    items.before + Write(items.doc) + items.after
    + match items.rest
      case None => "]"
      case Some(rest) => "," + WriteItems(rest)
  }

  function WriteMembers(m: DocMembers): string {
    m.before + ("\"" + m.name + "\"" + (m.afterName + ":" + (m.beforeDoc + (Write(m.doc) + (m.after
    + match m.rest
      case None => "}"
      case Some(rest) => "," + WriteMembers(rest))))))
  }

  function ValueOf(d: Doc): Value {
    match d
    case Scalar(v) => v
    case EmptyArray(_) => Array(NoItems)
    case FullArray(items) => Array(ItemsOf(items))
    case EmptyObject(_) => Object(NoMembers)
    case FullObject(members) => Object(MembersOf(members))
  }

  function ItemsOf(items: DocItems): Items {
    Item(ValueOf(items.doc), match items.rest case None => NoItems case Some(rest) => ItemsOf(rest))
  }

  function MembersOf(m: DocMembers): Members {
    Member(m.name, ValueOf(m.doc), match m.rest case None => NoMembers case Some(rest) => MembersOf(rest))
  }

  // ---- White space.

  lemma {:induction false} SkipBlanks(b: string, s: string)
    requires AreBlanks(b)
    ensures SkipBlank(b + s) == SkipBlank(s)
  {
    if b == "" {
      assert b + s == s;
    } else {
      SkipBlanks(b[1..], s);
      assert (b + s)[1..] == b[1..] + s;
    }
  }

  lemma {:induction false} SkippedBlanks(s: string) returns (b: string)
    ensures AreBlanks(b) && s == b + SkipBlank(s)
  {
    if s != "" && IsBlank(s[0]) {
      var more := SkippedBlanks(s[1..]);
      b := [s[0]] + more;
      assert s == [s[0]] + s[1..];
    } else {
      b := "";
    }
  }

  // ---- Every document is parsed to its value.

  lemma DocHead(d: Doc)
    requires IsDoc(d)
    ensures var s := Write(d); s != "" && !IsBlank(s[0]) && s[0] !in ",:]}"
  {
    if d.Scalar? && d.value.Number? {
      NumberIffWellFormed(d.value.token);
      assert d.value.token[0] == '-' || IsDigit(d.value.token[0]);
    }
    hide WriteItems, WriteMembers;
  }

  /** The text after a value, in an array or an object, up to the next delimiter. */
  lemma AfterDoc(after: string, next: char, rest: string)
    requires AreBlanks(after) && next in ",]}"
    ensures var s := after + [next] + rest;
      && Ends(s) && SkipBlank(s) == [next] + rest && ([next] + rest)[1..] == rest
  {
    var s := after + [next] + rest;
    assert s == after + ([next] + rest) && s[0] == if after == "" then next else after[0];
    SkipBlanks(after, [next] + rest);
    SkipNothing([next] + rest);
    hide SkipBlank;
    assert after != "" ==> after[0] in after;
  }

  lemma ScalarParses(d: Doc, rest: string)
    requires IsDoc(d) && d.Scalar? && (d.value.Number? ==> Ends(rest))
    ensures ParseValue(Write(d) + rest) == Some(Parsed(d.value, rest))
  {
    hide ParseValue;
    if d.value.Number? {
      NumberIffWellFormed(d.value.token);
      hide NumberLength;
      NumberParses(d.value, rest);
    } else if d.value.String? {
      StringIffWellFormed(d.value.raw);
      StringValueParses(d.value.raw, rest);
    } else {
      LiteralParses(d.value, rest);
    }
  }

  /** Each document is parsed to its value, whatever comes after it, unless it may continue a number. */
  lemma {:induction false} DocParses(d: Doc, rest: string)
    requires IsDoc(d) && (d.Scalar? && d.value.Number? ==> Ends(rest))
    ensures ParseValue(Write(d) + rest) == Some(Parsed(ValueOf(d), rest))
    decreases d, 0
  {
    hide ParseValue, SkipBlank, ParseItems, ParseMembers, WriteItems, WriteMembers;
    match d
    case Scalar(_) => ScalarParses(d, rest);
    case EmptyArray(_) => EmptyParses(d, rest);
    case EmptyObject(_) => EmptyParses(d, rest);
    case FullArray(items) =>
      DocItemsParse(items, rest);
      BracketIs('[', WriteItems(items), rest);
      ArrayFrom(Write(d) + rest);
    case FullObject(members) =>
      DocMembersParse(members, rest, {});
      BracketIs('{', WriteMembers(members), rest);
      ObjectFrom(Write(d) + rest);
  }

  lemma BracketIs(open: char, body: string, rest: string)
    ensures var s := [open] + body + rest; s[0] == open && s[1..] == body + rest
  {}

  lemma EmptyParses(d: Doc, rest: string)
    requires IsDoc(d) && (d.EmptyArray? || d.EmptyObject?)
    ensures ParseValue(Write(d) + rest) == Some(Parsed(ValueOf(d), rest))
  {
    hide ParseValue, SkipBlank, ParseItems, ParseMembers;
    var s := Write(d) + rest;
    if d.EmptyArray? {
      assert s[1..] == d.blank + "]" + rest;
      AfterDoc(d.blank, ']', rest);
      ArrayFrom(s);
    } else {
      assert s[1..] == d.blank + "}" + rest;
      AfterDoc(d.blank, '}', rest);
      ObjectFrom(s);
    }
  }

  function Next(items: DocItems): char {
    if items.rest == None then ']' else ','
  }

  /** What comes after the delimiter that follows an item. */
  function More(items: DocItems, rest: string): string {
    if items.rest == None then rest else WriteItems(items.rest.value) + rest
  }

  lemma WriteFirst(items: DocItems, rest: string)
    ensures WriteItems(items) + rest
         == items.before + (Write(items.doc) + (items.after + [Next(items)] + More(items, rest)))
  {
    hide Write;
  }

  lemma {:induction false} DocItemsParse(items: DocItems, rest: string)
    requires AreDocItems(items)
    ensures var s := SkipBlank(WriteItems(items) + rest);
      s != "" && s[0] != ']' && ParseItems(s) == Some(Parsed(ItemsOf(items), rest))
    decreases items, 0
  {
    hide SkipBlank, ParseValue, Write, WriteItems;
    var more := More(items, rest);
    var tail := items.after + [Next(items)] + more;
    WriteFirst(items, rest);
    SkipBlanks(items.before, Write(items.doc) + tail);
    DocHead(items.doc);
    SkipNothing(Write(items.doc) + tail);
    AfterDoc(items.after, Next(items), more);
    DocParses(items.doc, tail);
    if items.rest.Some? {
      DocItemsParse(items.rest.value, rest);
    }
  }

  function NextMember(m: DocMembers): char {
    if m.rest == None then '}' else ','
  }

  function MoreMembers(m: DocMembers, rest: string): string {
    if m.rest == None then rest else WriteMembers(m.rest.value) + rest
  }

  lemma Regroup(a: string, b: string, c: string)
    ensures a + b + c == a + (b + c)
  {}

  lemma WriteFirstMember(m: DocMembers, rest: string)
    ensures WriteMembers(m) + rest
         == m.before + ("\"" + m.name + "\"" + (m.afterName + ":" + (m.beforeDoc
              + (Write(m.doc) + (m.after + [NextMember(m)] + MoreMembers(m, rest))))))
  {
    hide Write;
    var end := match m.rest case None => "}" case Some(next) => "," + WriteMembers(next);
    assert end + rest == [NextMember(m)] + MoreMembers(m, rest);
    RegroupSix(m.before, "\"" + m.name + "\"", m.afterName + ":", m.beforeDoc, Write(m.doc), m.after, end, rest);
    Regroup(m.after, [NextMember(m)], MoreMembers(m, rest));
  }

  lemma RegroupSix(a: string, b: string, c: string, d: string, e: string, f: string, end: string, rest: string)
    ensures a + (b + (c + (d + (e + (f + end))))) + rest == a + (b + (c + (d + (e + (f + (end + rest))))))
  {
    Regroup(a, b + (c + (d + (e + (f + end)))), rest);
    Regroup(b, c + (d + (e + (f + end))), rest);
    Regroup(c, d + (e + (f + end)), rest);
    Regroup(d, e + (f + end), rest);
    Regroup(e, f + end, rest);
    Regroup(f, end, rest);
  }

  /** A name, and the text after the colon that follows it. */
  lemma NameParses(name: string, afterName: string, value: string)
    requires IsStringBody(name) && AreBlanks(afterName)
    ensures var s := "\"" + name + "\"" + (afterName + ":" + value);
      && s != "" && s[0] == '"' && StringLength(s[1..]) == Some(|name|) && s[1..|name| + 1] == name
      && var colon := SkipBlank(s[|name| + 2..]); colon != "" && colon[0] == ':' && colon[1..] == value
  {
    hide StringLength, SkipBlank;
    QuotedParts(name, afterName + ":" + value);
    StringParses(name, afterName + ":" + value);
    assert afterName + ":" + value == afterName + (":" + value);
    SkipBlanks(afterName, ":" + value);
    SkipNothing(":" + value);
  }

  /** A member that's the last one, given how its parts are parsed. */
  lemma LastMember(s: string, names: set<seq<nat>>, n: nat, v: Value, tail: string)
    requires s != "" && s[0] == '"' && StringLength(s[1..]) == Some(n) && Meaning(s[1..n + 1]) !in names
    requires var colon := SkipBlank(s[n + 2..]);
      && colon != "" && colon[0] == ':' && ParseValue(SkipBlank(colon[1..])) == Some(Parsed(v, tail))
    requires var next := SkipBlank(tail); next != "" && next[0] == '}'
    ensures ParseMembers(s, names) == Some(Parsed(Member(s[1..n + 1], v, NoMembers), SkipBlank(tail)[1..]))
  {
    hide SkipBlank, ParseValue, StringLength, Meaning;
  }

  /** A member that's followed by others. */
  lemma AnotherMember(s: string, names: set<seq<nat>>, n: nat, v: Value, tail: string, more: Parsed<Members>)
    requires s != "" && s[0] == '"' && StringLength(s[1..]) == Some(n) && Meaning(s[1..n + 1]) !in names
    requires var colon := SkipBlank(s[n + 2..]);
      && colon != "" && colon[0] == ':' && ParseValue(SkipBlank(colon[1..])) == Some(Parsed(v, tail))
    requires var next := SkipBlank(tail);
      && next != "" && next[0] == ','
      && ParseMembers(SkipBlank(next[1..]), names + {Meaning(s[1..n + 1])}) == Some(more)
    ensures ParseMembers(s, names) == Some(Parsed(Member(s[1..n + 1], v, more.value), more.rest))
  {
    hide SkipBlank, ParseValue, StringLength, Meaning, IsBlank;
  }

  /** What comes after the first member. */
  function TailOf(m: DocMembers, rest: string): string {
    m.after + [NextMember(m)] + MoreMembers(m, rest)
  }

  /** The text from the first name on. */
  function FromName(m: DocMembers, rest: string): string {
    "\"" + m.name + "\"" + (m.afterName + ":" + (m.beforeDoc + (Write(m.doc) + TailOf(m, rest))))
  }

  lemma MemberParts(m: DocMembers, rest: string, names: set<seq<nat>>)
    requires AreDocMembers(m, names)
    ensures var s := FromName(m, rest);
      && SkipBlank(WriteMembers(m) + rest) == s
      && s != "" && s[0] == '"' && StringLength(s[1..]) == Some(|m.name|) && s[1..|m.name| + 1] == m.name
      && var colon := SkipBlank(s[|m.name| + 2..]);
         colon != "" && colon[0] == ':' && SkipBlank(colon[1..]) == Write(m.doc) + TailOf(m, rest)
    ensures Ends(TailOf(m, rest)) && SkipBlank(TailOf(m, rest)) == [NextMember(m)] + MoreMembers(m, rest)
  {
    hide SkipBlank, Write, WriteMembers, StringLength, Meaning, IsStringBody, AreWellFormed, TextOf;
    var tail := TailOf(m, rest);
    WriteFirstMember(m, rest);
    SkipBlanks(m.before, FromName(m, rest));
    SkipNothing(FromName(m, rest));
    StringIffWellFormed(m.name);
    NameParses(m.name, m.afterName, m.beforeDoc + (Write(m.doc) + tail));
    SkipBlanks(m.beforeDoc, Write(m.doc) + tail);
    DocHead(m.doc);
    SkipNothing(Write(m.doc) + tail);
    AfterDoc(m.after, NextMember(m), MoreMembers(m, rest));
  }

  lemma AfterDelimiter(next: char, more: string)
    ensures ([next] + more)[0] == next && ([next] + more)[1..] == more
  {}

  lemma {:induction false} DocMembersParse(m: DocMembers, rest: string, names: set<seq<nat>>)
    requires AreDocMembers(m, names)
    ensures var s := SkipBlank(WriteMembers(m) + rest);
      s != "" && s[0] != '}' && ParseMembers(s, names) == Some(Parsed(MembersOf(m), rest))
    decreases m, 0
  {
    hide SkipBlank, ParseValue, ParseMembers, Write, WriteMembers, StringLength, Meaning, FromName, TailOf;
    hide IsDoc, AreBlanks, AreWellFormed, TextOf;
    var s, tail := FromName(m, rest), TailOf(m, rest);
    MemberParts(m, rest, names);
    DocParses(m.doc, tail);
    AfterDelimiter(NextMember(m), MoreMembers(m, rest));
    if m.rest.Some? {
      DocMembersParse(m.rest.value, rest, names + {Meaning(m.name)});
      AnotherMember(s, names, |m.name|, ValueOf(m.doc), tail, Parsed(MembersOf(m.rest.value), rest));
    } else {
      LastMember(s, names, |m.name|, ValueOf(m.doc), tail);
    }
  }

  // ---- Whatever is parsed is a document.

  lemma ScalarIsDoc(s: string) returns (d: Doc)
    requires s != "" && s[0] !in "[{" && ParseValue(s).Some?
    ensures d.Scalar? && IsDoc(d) && d.value == ParseValue(s).value.value && s == Write(d) + ParseValue(s).value.rest
  {
    d := Scalar(ParseValue(s).value.value);
    if s[0] == '"' {
      StringIsDoc(s);
    } else if s[0] in "ntf" {
      LiteralIsDoc(s);
    } else {
      NumberIsDoc(s);
    }
    hide ParseValue, IsDoc, Write;
  }

  lemma StringValue(s: string)
    requires s != "" && s[0] == '"' && ParseValue(s).Some?
    ensures StringLength(s[1..]).Some?
  {
    hide ParseItems, ParseMembers, SkipBlank, StringLength, NumberLength, ParseLiteral;
  }

  lemma StringIsDoc(s: string)
    requires s != "" && s[0] == '"' && ParseValue(s).Some?
    ensures var p := ParseValue(s).value;
      p.value.String? && IsDoc(Scalar(p.value)) && s == Write(Scalar(p.value)) + p.rest
  {
    hide ParseValue, StringLength, AreWellFormed, TextOf;
    StringValue(s);
    var n := StringLength(s[1..]).value;
    NameIsDoc(s, n);
    StringFrom(s, n);
    assert s == "\"" + s[1..n + 1] + "\"" + s[n + 2..];
  }

  lemma LiteralIsDoc(s: string)
    requires s != "" && s[0] in "ntf" && ParseValue(s).Some?
    ensures var p := ParseValue(s).value;
      (p.value.Null? || p.value.True? || p.value.False?) && s == Write(Scalar(p.value)) + p.rest
  {
    hide ParseItems, ParseMembers, SkipBlank, StringLength, NumberLength;
  }

  lemma NumberFrom(s: string)
    requires s != "" && s[0] !in "[{\"ntf" && ParseValue(s).Some?
    ensures var p := ParseValue(s).value;
      && NumberLength(s).Some?
      && p.value == Number(s[..NumberLength(s).value]) && p.rest == s[NumberLength(s).value..]
  {
    hide ParseItems, ParseMembers, SkipBlank, StringLength, NumberLength, ParseLiteral;
  }

  lemma NumberIsDoc(s: string)
    requires s != "" && s[0] !in "[{\"ntf" && ParseValue(s).Some?
    ensures var p := ParseValue(s).value;
      p.value.Number? && IsDoc(Scalar(p.value)) && s == Write(Scalar(p.value)) + p.rest
  {
    hide ParseValue, NumberLength;
    NumberFrom(s);
    NumberOfPrefix(s);
    NumberIffWellFormed(s[..NumberLength(s).value]);
  }

  /** A parsed text begins with a document of the parsed value. */
  lemma {:induction false} ParsedIsDoc(s: string) returns (d: Doc)
    requires ParseValue(s).Some?
    ensures IsDoc(d) && ValueOf(d) == ParseValue(s).value.value && s == Write(d) + ParseValue(s).value.rest
    decreases |s|, 1
  {
    ParsedIsNotEmpty(s);
    hide ParseValue, ParseItems, ParseMembers, SkipBlank, AreDocItems, AreDocMembers;
    if s[0] !in "[{" {
      d := ScalarIsDoc(s);
    } else if s[0] == '[' {
      d := ArrayIsDoc(s);
    } else {
      d := ObjectIsDoc(s);
    }
  }

  lemma {:induction false} ArrayIsDoc(s: string) returns (d: Doc)
    requires s != "" && s[0] == '[' && ParseValue(s).Some?
    ensures IsDoc(d) && ValueOf(d) == ParseValue(s).value.value && s == Write(d) + ParseValue(s).value.rest
    decreases |s|, 0
  {
    hide ParseValue, ParseItems, SkipBlank, AreDocItems;
    var b := SkippedBlanks(s[1..]);
    var body := SkipBlank(s[1..]);
    ArrayFrom(s);
    if body != "" && body[0] == ']' {
      d := EmptyArray(b);
      assert s == "[" + b + "]" + body[1..];
    } else {
      var items := ItemsAreDoc(b, body);
      d := FullArray(items);
      assert s == "[" + (b + body);
      Regroup("[", WriteItems(items), ParseItems(body).value.rest);
      hide WriteItems;
    }
  }

  lemma {:induction false} ObjectIsDoc(s: string) returns (d: Doc)
    requires s != "" && s[0] == '{' && ParseValue(s).Some?
    ensures IsDoc(d) && ValueOf(d) == ParseValue(s).value.value && s == Write(d) + ParseValue(s).value.rest
    decreases |s|, 0
  {
    hide ParseValue, ParseMembers, SkipBlank, AreDocMembers;
    var b := SkippedBlanks(s[1..]);
    var body := SkipBlank(s[1..]);
    ObjectFrom(s);
    if body != "" && body[0] == '}' {
      d := EmptyObject(b);
      assert s == "{" + b + "}" + body[1..];
    } else {
      var members := MembersAreDoc(b, body, {});
      d := FullObject(members);
      assert s == "{" + (b + body);
      Regroup("{", WriteMembers(members), ParseMembers(body, {}).value.rest);
      hide WriteMembers;
    }
  }

  lemma {:induction false} ItemsAreDoc(b: string, s: string) returns (items: DocItems)
    requires AreBlanks(b) && ParseItems(s).Some?
    ensures AreDocItems(items) && ItemsOf(items) == ParseItems(s).value.value
    ensures b + s == WriteItems(items) + ParseItems(s).value.rest
    decreases |s|, 2
  {
    hide ParseValue, SkipBlank, Write, WriteItems;
    var d := ParsedIsDoc(s);
    var tail := ParseValue(s).value.rest;
    var after := SkippedBlanks(tail);
    var next := SkipBlank(tail);
    var rest := ParseItems(s).value.rest;
    if next[0] == ']' {
      items := DocItems(b, d, after, None);
    } else {
      var before := SkippedBlanks(next[1..]);
      var more := ItemsAreDoc(before, SkipBlank(next[1..]));
      items := DocItems(b, d, after, Some(more));
    }
    assert next == [Next(items)] + More(items, rest);
    WriteFirst(items, rest);
    Regroup(after, [Next(items)], More(items, rest));
  }

  lemma MembersValue(s: string, names: set<seq<nat>>)
    requires ParseMembers(s, names).Some?
    ensures s != "" && s[0] == '"' && StringLength(s[1..]).Some?
    ensures var n := StringLength(s[1..]).value;
      var name := s[1..n + 1];
      var colon := SkipBlank(s[n + 2..]);
      && Meaning(name) !in names && colon != "" && colon[0] == ':'
      && var v := ParseValue(SkipBlank(colon[1..]));
         && v.Some?
         && var next := SkipBlank(v.value.rest);
            && next != "" && next[0] in ",}"
            && ParseMembers(s, names) ==
                 if next[0] == '}' then Some(Parsed(Member(name, v.value.value, NoMembers), next[1..]))
                 else
                   var more := ParseMembers(SkipBlank(next[1..]), names + {Meaning(name)});
                   if more == None then None
                   else Some(Parsed(Member(name, v.value.value, more.value.value), more.value.rest))
  {
    hide SkipBlank, ParseValue, StringLength, Meaning;
  }

  /** The text of the first member, and of what comes after it. */
  lemma Reassembled(s: string, n: nat, afterName: string, beforeDoc: string, doc: string, after: string, next: string)
    requires n + 2 <= |s| && s[0] == '"' && s[n + 1] == '"'
    requires s[n + 2..] == afterName + (":" + (beforeDoc + (doc + (after + next))))
    ensures s == "\"" + s[1..n + 1] + "\"" + (afterName + (":" + (beforeDoc + (doc + (after + next)))))
  {
    assert s == "\"" + s[1..n + 1] + "\"" + s[n + 2..];
  }

  lemma {:induction false} MembersAreDoc(b: string, s: string, names: set<seq<nat>>) returns (m: DocMembers)
    requires AreBlanks(b) && ParseMembers(s, names).Some?
    ensures AreDocMembers(m, names) && MembersOf(m) == ParseMembers(s, names).value.value
    ensures b + s == WriteMembers(m) + ParseMembers(s, names).value.rest
    decreases |s|, 2
  {
    hide ParseValue, ParseMembers, SkipBlank, Write, WriteMembers, StringLength, Meaning, IsStringBody, IsDoc;
    hide AreBlanks, AreWellFormed, TextOf;
    MembersValue(s, names);
    var n := StringLength(s[1..]).value;
    var name := s[1..n + 1];
    NameIsDoc(s, n);
    var afterName := SkippedBlanks(s[n + 2..]);
    var colon := SkipBlank(s[n + 2..]);
    var beforeDoc := SkippedBlanks(colon[1..]);
    var value := SkipBlank(colon[1..]);
    var d := ParsedIsDoc(value);
    var tail := ParseValue(value).value.rest;
    var after := SkippedBlanks(tail);
    var next := SkipBlank(tail);
    var rest := ParseMembers(s, names).value.rest;
    assert colon == ":" + colon[1..];
    Reassembled(s, n, afterName, beforeDoc, Write(d), after, next);
    if next[0] == '}' {
      m := DocMembers(b, name, afterName, beforeDoc, d, after, None);
    } else {
      var before := SkippedBlanks(next[1..]);
      var more := MembersAreDoc(before, SkipBlank(next[1..]), names + {Meaning(name)});
      m := DocMembers(b, name, afterName, beforeDoc, d, after, Some(more));
    }
    MembersText(m, rest, s, next);
  }

  lemma MembersText(m: DocMembers, rest: string, s: string, next: string)
    requires s == "\"" + m.name + "\"" + (m.afterName + (":" + (m.beforeDoc + (Write(m.doc) + (m.after + next)))))
    requires next == [NextMember(m)] + MoreMembers(m, rest)
    ensures m.before + s == WriteMembers(m) + rest
  {
    hide Write, WriteMembers;
    WriteFirstMember(m, rest);
    Regroup(m.after, [NextMember(m)], MoreMembers(m, rest));
    Regroup(m.afterName, ":", m.beforeDoc + (Write(m.doc) + (m.after + next)));
  }

  lemma NameIsDoc(s: string, n: nat)
    requires s != "" && StringLength(s[1..]) == Some(n)
    ensures n + 2 <= |s| && s[n + 1] == '"'
    ensures exists cs :: AreWellFormed(cs) && TextOf(cs) == s[1..n + 1]
  {
    hide StringLength;
    StringBody(s[1..]);
    assert s[1..][..n] == s[1..n + 1];
    StringIffWellFormed(s[1..n + 1]);
  }

  /** A text is parsed to a value, up to some point, if and only if the text up to that point is a document of that
      value, where a number isn't continued after it. */
  lemma ParsedIffDoc(s: string, v: Value, rest: string)
    requires v.Number? ==> Ends(rest)
    ensures ParseValue(s) == Some(Parsed(v, rest)) <==> exists d :: IsDoc(d) && ValueOf(d) == v && s == Write(d) + rest
  {
    hide ParseValue, IsDoc, Write;
    if ParseValue(s) == Some(Parsed(v, rest)) {
      var d := ParsedIsDoc(s);
    }
    forall d | IsDoc(d) && ValueOf(d) == v && s == Write(d) + rest
      ensures ParseValue(s) == Some(Parsed(v, rest))
    {
      DocParses(d, rest);
    }
  }
}

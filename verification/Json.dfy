/** JSON values, as in RFC 8259: parsing them, and writing them in the compact form. Numbers and strings are kept
    exactly as they're written. As in the I-JSON profile (RFC 7493), the names in an object must be unique, and escape
    sequences can't denote unpaired surrogates. */
module Json {
  import opened Text
  import opened Wrappers

  datatype Value =
    | Null | True | False
    | Number(token: string)
    | String(raw: string)
    | Array(items: Items)
    | Object(members: Members)

  datatype Items = NoItems | Item(value: Value, rest: Items)

  datatype Members = NoMembers | Member(name: string, value: Value, rest: Members)

  datatype Parsed<T> = Parsed(value: T, rest: string)

  // ---- Whitespace, numbers, and strings (sections 2, 6, and 7 of RFC 8259).

  predicate IsBlank(c: char) {
    c in " \t\n\r"
  }

  function SkipBlank(s: string): (rest: string)
    ensures |rest| <= |s| && (rest != "" ==> !IsBlank(rest[0]))
  {
    if s != "" && IsBlank(s[0]) then SkipBlank(s[1..]) else s
  }

  function CountDigits(s: string): (n: nat)
    ensures n <= |s|
  {
    if s != "" && IsDigit(s[0]) then 1 + CountDigits(s[1..]) else 0
  }

  /** The length of the mandatory digits after an optional prefix, or nothing if there are none. */
  function SomeDigits(s: string): Option<nat> {
    if CountDigits(s) == 0 then None else Some(CountDigits(s))
  }

  function IntegerLength(s: string): Option<nat> {
    if s != "" && s[0] == '0' then Some(1) else SomeDigits(s)
  }

  function FractionLength(s: string): Option<nat> {
    if s == "" || s[0] != '.' then Some(0)
    else
      var n :- SomeDigits(s[1..]);
      Some(n + 1)
  }

  function ExponentLength(s: string): Option<nat> {
    if s == "" || s[0] !in "eE" then Some(0)
    else
      var sign := if |s| > 1 && s[1] in "+-" then 1 else 0;
      var n :- SomeDigits(s[1 + sign..]);
      Some(n + 1 + sign)
  }

  function UnsignedLength(s: string): (r: Option<nat>)
    ensures r.Some? ==> 0 < r.value <= |s|
  {
    var i :- IntegerLength(s);
    var f :- FractionLength(s[i..]);
    var e :- ExponentLength(s[i + f..]);
    Some(i + f + e)
  }

  /** How many characters the number takes, if the text begins with one. */
  function NumberLength(s: string): (r: Option<nat>)
    ensures r.Some? ==> 0 < r.value <= |s|
  {
    if s != "" && s[0] == '-' then
      var n :- UnsignedLength(s[1..]);
      Some(n + 1)
    else UnsignedLength(s)
  }

  function HexValue(c: char): Option<nat> {
    if '0' <= c <= '9' then Some(c as nat - '0' as nat)
    else if 'a' <= c <= 'f' then Some(c as nat - 'a' as nat + 10)
    else if 'A' <= c <= 'F' then Some(c as nat - 'A' as nat + 10)
    else None
  }

  /** The code unit of an escape sequence with four hexadecimal digits. */
  function CodeUnit(s: string): (r: Option<nat>)
    ensures r.Some? ==> |s| >= 6
  {
    if |s| < 6 || s[0] != '\\' || s[1] != 'u' then None
    else
      var a :- HexValue(s[2]);
      var b :- HexValue(s[3]);
      var c :- HexValue(s[4]);
      var d :- HexValue(s[5]);
      Some(a * 4096 + b * 256 + c * 16 + d)
  }

  function SimpleEscape(c: char): Option<nat> {
    match c
    case '"' => Some('"' as nat)
    case '\\' => Some('\\' as nat)
    case '/' => Some('/' as nat)
    case 'b' => Some(8)
    case 'f' => Some(12)
    case 'n' => Some(10)
    case 'r' => Some(13)
    case 't' => Some(9)
    case _ => None
  }

  /** The first character of a string's contents: its code point, and how many characters it's written with. */
  function ScanChar(s: string): (r: Option<(nat, nat)>)
    requires s != ""
    ensures r.Some? ==> 0 < r.value.1 <= |s| && r.value.1 <= 12
  {
    if s[0] != '\\' then
      if s[0] < ' ' then None else Some((s[0] as nat, 1))
    else if |s| > 1 && s[1] == 'u' then
      var high :- CodeUnit(s);
      if 0xDC00 <= high < 0xE000 then None
      else if 0xD800 <= high < 0xDC00 then
        var low :- CodeUnit(s[6..]);
        if 0xDC00 <= low < 0xE000 then Some((0x10000 + (high - 0xD800) * 0x400 + low - 0xDC00, 12)) else None
      else Some((high, 6))
    else if |s| > 1 then
      var code :- SimpleEscape(s[1]);
      Some((code, 2))
    else None
  }

  /** The length of a string's contents, up to the quote that ends it. */
  function StringLength(s: string): (r: Option<nat>)
    ensures r.Some? ==> r.value < |s| && s[r.value] == '"'
  {
    if s == "" then None
    else if s[0] == '"' then Some(0)
    else
      var c :- ScanChar(s);
      var n :- StringLength(s[c.1..]);
      Some(n + c.1)
  }

  /** The meaning of a string's contents, as code points. */
  function Meaning(raw: string): seq<nat> {
    if raw == "" then []
    else
      var c := ScanChar(raw);
      if c.None? then [] else [c.value.0] + Meaning(raw[c.value.1..])
  }

  // ---- Values (sections 3, 4, and 5 of RFC 8259).

  function ParseLiteral(s: string, literal: string, value: Value): Option<Parsed<Value>> {
    if literal <= s then Some(Parsed(value, s[|literal|..])) else None
  }

  /** The value at the very beginning of the text, and whatever comes after it. */
  function ParseValue(s: string): (r: Option<Parsed<Value>>)
    ensures r.Some? ==> |r.value.rest| < |s|
    decreases |s|, 1
  {
    if s == "" then None
    else match s[0]
      case 'n' => ParseLiteral(s, "null", Null)
      case 't' => ParseLiteral(s, "true", True)
      case 'f' => ParseLiteral(s, "false", False)
      case '"' =>
        var n :- StringLength(s[1..]);
        Some(Parsed(String(s[1..n + 1]), s[n + 2..]))
      case '[' =>
        var s' := SkipBlank(s[1..]);
        if s' != "" && s'[0] == ']' then Some(Parsed(Array(NoItems), s'[1..]))
        else
          var p :- ParseItems(s');
          Some(Parsed(Array(p.value), p.rest))
      case '{' =>
        var s' := SkipBlank(s[1..]);
        if s' != "" && s'[0] == '}' then Some(Parsed(Object(NoMembers), s'[1..]))
        else
          var p :- ParseMembers(s', {});
          Some(Parsed(Object(p.value), p.rest))
      case _ =>
        var n :- NumberLength(s);
        Some(Parsed(Number(s[..n]), s[n..]))
  }

  /** The items of an array, up to the bracket that ends it. */
  function ParseItems(s: string): (r: Option<Parsed<Items>>)
    ensures r.Some? ==> |r.value.rest| < |s|
    decreases |s|, 2
  {
    var v :- ParseValue(s);
    var rest := SkipBlank(v.rest);
    if rest == "" then None
    else if rest[0] == ']' then Some(Parsed(Item(v.value, NoItems), rest[1..]))
    else if rest[0] != ',' then None
    else
      var more :- ParseItems(SkipBlank(rest[1..]));
      Some(Parsed(Item(v.value, more.value), more.rest))
  }

  /** The members of an object, up to the brace that ends it. None of them may have one of the given names. */
  function ParseMembers(s: string, names: set<seq<nat>>): (r: Option<Parsed<Members>>)
    ensures r.Some? ==> |r.value.rest| < |s|
    decreases |s|, 2
  {
    if s == "" || s[0] != '"' then None
    else
      var n :- StringLength(s[1..]);
      var name := s[1..n + 1];
      var colon := SkipBlank(s[n + 2..]);
      if Meaning(name) in names || colon == "" || colon[0] != ':' then None
      else
        var v :- ParseValue(SkipBlank(colon[1..]));
        var rest := SkipBlank(v.rest);
        if rest == "" then None
        else if rest[0] == '}' then Some(Parsed(Member(name, v.value, NoMembers), rest[1..]))
        else if rest[0] != ',' then None
        else
          var more :- ParseMembers(SkipBlank(rest[1..]), names + {Meaning(name)});
          Some(Parsed(Member(name, v.value, more.value), more.rest))
  }

  function Print(v: Value): string {
    match v
    case Null => "null"
    case True => "true"
    case False => "false"
    case Number(token) => token
    case String(raw) => "\"" + raw + "\""
    case Array(items) => "[" + PrintItems(items)
    case Object(members) => "{" + PrintMembers(members)
  }

  /** The items of an array, with the bracket that ends it. */
  function PrintItems(items: Items): string {
    match items
    case NoItems => "]"
    case Item(v, NoItems) => Print(v) + "]"
    case Item(v, rest) => Print(v) + "," + PrintItems(rest)
  }

  /** The members of an object, with the brace that ends it. */
  function PrintMembers(members: Members): string {
    match members
    case NoMembers => "}"
    case Member(name, v, NoMembers) => "\"" + name + "\":" + Print(v) + "}"
    case Member(name, v, rest) => "\"" + name + "\":" + Print(v) + "," + PrintMembers(rest)
  }

  // ---- Which values can be written: those whose parts are well-formed.

  predicate IsStringBody(raw: string) {
    StringLength(raw + "\"") == Some(|raw|)
  }

  predicate IsValid(v: Value) {
    match v
    case Number(token) => NumberLength(token) == Some(|token|)
    case String(raw) => IsStringBody(raw)
    case Array(items) => AreValidItems(items)
    case Object(members) => AreValidMembers(members, {})
    case _ => true
  }

  predicate AreValidItems(items: Items) {
    match items
    case NoItems => true
    case Item(v, rest) => IsValid(v) && AreValidItems(rest)
  }

  predicate AreValidMembers(members: Members, names: set<seq<nat>>) {
    match members
    case NoMembers => true
    case Member(name, v, rest) =>
      && IsStringBody(name) && Meaning(name) !in names
      && IsValid(v) && AreValidMembers(rest, names + {Meaning(name)})
  }
}

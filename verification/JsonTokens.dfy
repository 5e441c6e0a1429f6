/** The grammar of numbers and strings in JSON, exactly as RFC 8259 defines it, and the same for what's parsed. */
module JsonTokens {
  import opened Json
  import opened JsonTheory
  import opened Text
  import opened Wrappers

  // ---- Numbers (section 6 of RFC 8259).

  predicate IsDigits(s: string) {
    s != "" && AllDigits(s)
  }

  /** An optional minus sign, an integer without leading zeros, an optional fraction, and an optional exponent. */
  datatype NumberParts = NumberParts(sign: string, integer: string, fraction: string, exponent: string) {
    predicate IsWellFormed() {
      && (sign == "" || sign == "-")
      && IsDigits(integer) && (integer[0] == '0' ==> integer == "0")
      && (fraction == "" || (fraction[0] == '.' && IsDigits(fraction[1..])))
      && (exponent == "" || (exponent[0] in "eE" && (IsDigits(exponent[1..])
                                || (|exponent| > 1 && exponent[1] in "+-" && IsDigits(exponent[2..])))))
    }

    function Text(): string {
      sign + integer + fraction + exponent
    }
  }

  lemma {:induction false} CountedDigits(s: string)
    ensures AllDigits(s[..CountDigits(s)])
    ensures CountDigits(s) < |s| ==> !IsDigit(s[CountDigits(s)])
  {
    if s != "" && IsDigit(s[0]) {
      CountedDigits(s[1..]);
      assert s[..CountDigits(s)] == [s[0]] + s[1..][..CountDigits(s[1..])];
    }
  }

  lemma {:induction false} CountAllDigits(s: string, t: string)
    requires AllDigits(s) && (t == "" || !IsDigit(t[0]))
    ensures CountDigits(s + t) == |s|
  {
    if s == "" {
      assert s + t == t;
    } else {
      CountAllDigits(s[1..], t);
      assert (s + t)[1..] == s[1..] + t;
    }
  }

  lemma IntegerPart(s: string)
    requires IntegerLength(s).Some?
    ensures var n := IntegerLength(s).value;
      && n <= |s| && IsDigits(s[..n]) && (s[0] == '0' ==> s[..n] == "0")
  {
    CountedDigits(s);
  }

  lemma FractionPart(s: string)
    requires FractionLength(s).Some?
    ensures var n := FractionLength(s).value;
      && n <= |s| && (n == 0 || (s[0] == '.' && IsDigits(s[1..n])))
  {
    if s != "" && s[0] == '.' {
      CountedDigits(s[1..]);
      assert s[1..][..FractionLength(s).value - 1] == s[1..FractionLength(s).value];
    }
  }

  lemma ExponentPart(s: string)
    requires ExponentLength(s).Some?
    ensures var n := ExponentLength(s).value;
      && n <= |s|
      && (n == 0 || (s[0] in "eE" && (IsDigits(s[1..n]) || (n > 1 && s[1] in "+-" && IsDigits(s[2..n])))))
  {
    if s != "" && s[0] in "eE" {
      var n, k := ExponentLength(s).value, if |s| > 1 && s[1] in "+-" then 2 else 1;
      CountedDigits(s[k..]);
      assert s[k..][..n - k] == s[k..n];
    }
  }

  lemma UnsignedParts(s: string) returns (p: NumberParts)
    requires UnsignedLength(s) == Some(|s|)
    ensures p.IsWellFormed() && p.Text() == s && p.sign == ""
  {
    hide IntegerLength, FractionLength, ExponentLength, IsDigits;
    var i := IntegerLength(s).value;
    var f := FractionLength(s[i..]).value;
    var e := ExponentLength(s[i + f..]).value;
    IntegerPart(s);
    FractionPart(s[i..]);
    ExponentPart(s[i + f..]);
    var fraction, exponent := s[i..][..f], s[i + f..][..e];
    assert f > 0 ==> fraction[1..] == s[i..][1..f];
    assert e > 0 ==> exponent[1..] == s[i + f..][1..e];
    assert e > 1 ==> exponent[2..] == s[i + f..][2..e];
    p := NumberParts("", s[..i], fraction, exponent);
    assert p.Text() == s;
  }

  lemma IntegerIs(p: NumberParts, rest: string)
    requires p.IsWellFormed() && (rest == "" || !IsDigit(rest[0]))
    ensures IntegerLength(p.integer + rest) == Some(|p.integer|)
  {
    CountAllDigits(p.integer, rest);
  }

  lemma FractionIs(fraction: string, rest: string)
    requires fraction == "" || (fraction[0] == '.' && IsDigits(fraction[1..]))
    requires rest == "" || (!IsDigit(rest[0]) && rest[0] != '.')
    ensures FractionLength(fraction + rest) == Some(|fraction|)
  {
    if fraction == "" {
      assert fraction + rest == rest;
    } else {
      CountAllDigits(fraction[1..], rest);
      assert (fraction + rest)[1..] == fraction[1..] + rest;
    }
  }

  lemma ExponentIs(exponent: string)
    requires exponent == "" || (exponent[0] in "eE" && (IsDigits(exponent[1..])
                || (|exponent| > 1 && exponent[1] in "+-" && IsDigits(exponent[2..]))))
    ensures ExponentLength(exponent) == Some(|exponent|)
  {
    if exponent != "" {
      var k := if |exponent| > 1 && exponent[1] in "+-" then 2 else 1;
      assert exponent[k..] + "" == exponent[k..];
      assert IsDigits(exponent[1..]) ==> IsDigit(exponent[1..][0]);
      CountAllDigits(exponent[k..], "");
    }
  }

  lemma UnsignedIs(p: NumberParts)
    requires p.IsWellFormed()
    ensures var s := p.integer + p.fraction + p.exponent; UnsignedLength(s) == Some(|s|)
  {
    hide IntegerLength, FractionLength, ExponentLength;
    var s := p.integer + p.fraction + p.exponent;
    var i, f := |p.integer|, |p.fraction|;
    IntegerIs(p, p.fraction + p.exponent);
    assert s == p.integer + (p.fraction + p.exponent);
    FractionIs(p.fraction, p.exponent);
    assert s[i..] == p.fraction + p.exponent && s[i + f..] == p.exponent;
    ExponentIs(p.exponent);
  }

  /** The tokens of numbers are exactly those of the grammar. */
  lemma NumberIffWellFormed(token: string)
    ensures NumberLength(token) == Some(|token|) <==> exists p: NumberParts :: p.IsWellFormed() && p.Text() == token
  {
    hide NumberLength, NumberParts.IsWellFormed, NumberParts.Text;
    if NumberLength(token) == Some(|token|) {
      var p := PartsOf(token);
    }
    forall p: NumberParts | p.IsWellFormed() && p.Text() == token
      ensures NumberLength(token) == Some(|token|)
    {
      PartsAreNumber(p);
    }
  }

  lemma PartsOf(token: string) returns (p: NumberParts)
    requires NumberLength(token) == Some(|token|)
    ensures p.IsWellFormed() && p.Text() == token
  {
    hide UnsignedLength;
    if token[0] == '-' {
      p := UnsignedParts(token[1..]);
      p := p.(sign := "-");
      assert p.Text() == "-" + token[1..];
    } else {
      p := UnsignedParts(token);
    }
  }

  lemma PartsAreNumber(p: NumberParts)
    requires p.IsWellFormed()
    ensures NumberLength(p.Text()) == Some(|p.Text()|)
  {
    hide UnsignedLength;
    UnsignedIs(p);
    var unsigned := p.integer + p.fraction + p.exponent;
    assert p.Text() == p.sign + unsigned && unsigned[0] == p.integer[0] && IsDigit(unsigned[0]);
    assert p.sign == "" ==> p.Text() == unsigned;
    assert p.sign == "-" ==> p.Text()[1..] == unsigned;
  }

  // ---- Strings (section 7 of RFC 8259, and section 2.1 of RFC 7493).

  /** A hexadecimal digit, in lower case or in upper case. */
  datatype Hex = Hex(value: nat, upper: bool) {
    predicate IsWellFormed() {
      value < 16
    }

    function Text(): char
      requires IsWellFormed()
    {
      if upper then "0123456789ABCDEF"[value] else "0123456789abcdef"[value]
    }
  }

  /** Four hexadecimal digits, which are a UTF-16 code unit. */
  datatype Unit = Unit(a: Hex, b: Hex, c: Hex, d: Hex) {
    predicate IsWellFormed() {
      a.IsWellFormed() && b.IsWellFormed() && c.IsWellFormed() && d.IsWellFormed()
    }

    function Text(): string
      requires IsWellFormed()
    {
      ['\\', 'u', a.Text(), b.Text(), c.Text(), d.Text()]
    }

    function Value(): nat {
      ((a.value * 16 + b.value) * 16 + c.value) * 16 + d.value
    }
  }

  const ESCAPES: map<char, nat> :=
    map['"' := 34, '\\' := 92, '/' := 47, 'b' := 8, 'f' := 12, 'n' := 10, 'r' := 13, 't' := 9]

  /** A character as it is, unless it's a control character, a quote, or a backslash; or one of the short escape
      sequences; or any code unit which isn't a surrogate; or a pair of surrogates. */
  datatype Char = Plain(c: char) | Escaped(c: char) | Code(unit: Unit) | Pair(high: Unit, low: Unit) {
    predicate IsWellFormed() {
      match this
      case Plain(c) => c as int >= 32 && c != '"' && c != '\\'
      case Escaped(c) => c in ESCAPES
      case Code(u) => u.IsWellFormed() && !(0xD800 <= u.Value() <= 0xDFFF)
      case Pair(high, low) =>
        && high.IsWellFormed() && 0xD800 <= high.Value() <= 0xDBFF
        && low.IsWellFormed() && 0xDC00 <= low.Value() <= 0xDFFF
    }

    function Text(): string
      requires IsWellFormed()
    {
      match this
      case Plain(c) => [c]
      case Escaped(c) => ['\\', c]
      case Code(u) => u.Text()
      case Pair(high, low) => high.Text() + low.Text()
    }

    function CodePoint(): nat
      requires IsWellFormed()
    {
      match this
      case Plain(c) => c as nat
      case Escaped(c) => ESCAPES[c]
      case Code(u) => u.Value()
      case Pair(high, low) => 0x10000 + (high.Value() - 0xD800) * 0x400 + (low.Value() - 0xDC00)
    }
  }

  predicate AreWellFormed(cs: seq<Char>) {
    forall i :: 0 <= i < |cs| ==> cs[i].IsWellFormed()
  }

  function TextOf(cs: seq<Char>): string
    requires AreWellFormed(cs)
  {
    if cs == [] then "" else cs[0].Text() + TextOf(cs[1..])
  }

  function PointsOf(cs: seq<Char>): seq<nat>
    requires AreWellFormed(cs)
  {
    if cs == [] then [] else [cs[0].CodePoint()] + PointsOf(cs[1..])
  }

  lemma HexIff(c: char, n: nat)
    ensures HexValue(c) == Some(n) <==> exists h: Hex :: h.IsWellFormed() && h.Text() == c && h.value == n
  {
    if HexValue(c) == Some(n) {
      var h := Hex(n, 'A' <= c <= 'F');
      assert h.IsWellFormed() && h.Text() == c;
    }
  }

  lemma UnitIs(u: Unit, rest: string)
    requires u.IsWellFormed()
    ensures CodeUnit(u.Text() + rest) == Some(u.Value())
  {
    HexIff(u.a.Text(), u.a.value);
    HexIff(u.b.Text(), u.b.value);
    HexIff(u.c.Text(), u.c.value);
    HexIff(u.d.Text(), u.d.value);
    hide HexValue;
  }

  lemma UnitOf(s: string) returns (u: Unit)
    requires CodeUnit(s).Some?
    ensures u.IsWellFormed() && u.Text() == s[..6] && u.Value() == CodeUnit(s).value
  {
    var a := HexOf(s[2]);
    var b := HexOf(s[3]);
    var c := HexOf(s[4]);
    var d := HexOf(s[5]);
    hide HexValue, Hex.Text;
    u := Unit(a, b, c, d);
    assert u.Text() == s[..6];
  }

  lemma HexOf(c: char) returns (h: Hex)
    requires HexValue(c).Some?
    ensures h.IsWellFormed() && h.Text() == c && Some(h.value) == HexValue(c)
  {
    HexIff(c, HexValue(c).value);
    h :| h.IsWellFormed() && h.Text() == c && h.value == HexValue(c).value;
  }

  lemma EscapeIs(c: char, rest: string)
    requires c in ESCAPES
    ensures ScanChar(['\\', c] + rest) == Some((ESCAPES[c], 2))
  {
    hide CodeUnit;
  }

  lemma CodeIs(u: Unit, rest: string)
    requires u.IsWellFormed() && !(0xD800 <= u.Value() <= 0xDFFF)
    ensures ScanChar(u.Text() + rest) == Some((u.Value(), 6))
  {
    UnitIs(u, rest);
    UnitBegins(u, rest);
    hide CodeUnit, Unit.Text, Unit.Value;
  }

  /** The two code units of a pair of surrogates. */
  lemma ScanUnits(s: string)
    requires |s| > 1 && s[0] == '\\' && s[1] == 'u'
    ensures ScanChar(s).Some? ==> CodeUnit(s).Some?
    ensures ScanChar(s).Some? && ScanChar(s).value.1 == 12 ==>
              && 0xD800 <= CodeUnit(s).value <= 0xDBFF
              && CodeUnit(s[6..]).Some? && 0xDC00 <= CodeUnit(s[6..]).value <= 0xDFFF
    ensures CodeUnit(s).Some? && 0xD800 <= CodeUnit(s).value <= 0xDBFF
            && CodeUnit(s[6..]).Some? && 0xDC00 <= CodeUnit(s[6..]).value <= 0xDFFF ==>
              ScanChar(s)
              == Some((0x10000 + (CodeUnit(s).value - 0xD800) * 0x400 + (CodeUnit(s[6..]).value - 0xDC00), 12))
  {
    hide CodeUnit, SimpleEscape;
  }

  lemma PairIs(high: Unit, low: Unit, rest: string)
    requires high.IsWellFormed() && 0xD800 <= high.Value() <= 0xDBFF
    requires low.IsWellFormed() && 0xDC00 <= low.Value() <= 0xDFFF
    ensures ScanChar(high.Text() + low.Text() + rest)
         == Some((0x10000 + (high.Value() - 0xD800) * 0x400 + (low.Value() - 0xDC00), 12))
  {
    hide CodeUnit, ScanChar, Unit.Text, Unit.Value, Unit.IsWellFormed;
    var after := low.Text() + rest;
    var s := high.Text() + after;
    UnitIs(high, after);
    UnitIs(low, rest);
    UnitBegins(high, after);
    ScanUnits(s);
    assert high.Text() + low.Text() + rest == s;
  }

  lemma UnitBegins(u: Unit, rest: string)
    requires u.IsWellFormed()
    ensures var s := u.Text() + rest;
      |u.Text()| == 6 && |s| >= 6 && s[0] == '\\' && s[1] == 'u' && s[6..] == rest
  {}

  lemma CharIs(ch: Char, rest: string)
    requires ch.IsWellFormed()
    ensures var s := ch.Text() + rest;
      s != "" && s[0] != '"' && ch.Text() != "" && ScanChar(s) == Some((ch.CodePoint(), |ch.Text()|))
  {
    hide ScanChar, Unit.Text, Unit.Value, Unit.IsWellFormed;
    match ch
    case Plain(c) => PlainIs(c, rest);
    case Escaped(c) => EscapeIs(c, rest);
    case Code(u) =>
      CodeIs(u, rest);
      UnitBegins(u, rest);
    case Pair(high, low) =>
      PairBegins(high, low, rest);
      PairIs(high, low, rest);
  }

  lemma PlainIs(c: char, rest: string)
    requires c as int >= 32 && c != '"' && c != '\\'
    ensures ScanChar([c] + rest) == Some((c as nat, 1))
  {}

  lemma PairBegins(high: Unit, low: Unit, rest: string)
    requires high.IsWellFormed() && low.IsWellFormed()
    ensures |high.Text() + low.Text()| == 12 && (high.Text() + low.Text() + rest)[0] == '\\'
  {
    UnitBegins(high, low.Text() + rest);
    UnitBegins(low, rest);
    hide Unit.Text;
  }

  lemma PairOf(s: string) returns (ch: Char)
    requires |s| > 1 && s[0] == '\\' && s[1] == 'u' && ScanChar(s).Some? && ScanChar(s).value.1 == 12
    ensures ch.IsWellFormed() && ScanChar(s) == Some((ch.CodePoint(), 12)) && ch.Text() == s[..12]
  {
    hide ScanChar, Unit.Text, Unit.Value, Unit.IsWellFormed;
    ScanUnits(s);
    var high := UnitOf(s);
    var low := UnitOf(s[6..]);
    ch := Pair(high, low);
    hide CodeUnit;
    assert s[..6] + s[6..][..6] == s[..12];
  }

  lemma CodeOf(s: string) returns (ch: Char)
    requires |s| > 1 && s[0] == '\\' && s[1] == 'u' && ScanChar(s).Some? && ScanChar(s).value.1 != 12
    ensures ch.IsWellFormed() && ScanChar(s) == Some((ch.CodePoint(), 6)) && ch.Text() == s[..6]
  {
    var unit := UnitOf(s);
    hide CodeUnit, Unit.Text, Unit.Value;
    ch := Code(unit);
  }

  lemma EscapeOf(s: string)
    requires |s| > 1 && s[0] == '\\' && s[1] != 'u' && ScanChar(s).Some?
    ensures s[1] in ESCAPES && ScanChar(s) == Some((ESCAPES[s[1]], 2))
  {
    hide CodeUnit;
  }

  lemma CharOf(s: string) returns (ch: Char)
    requires s != "" && s[0] != '"' && ScanChar(s).Some?
    ensures ch.IsWellFormed() && 0 < |ch.Text()| <= |s|
    ensures ScanChar(s) == Some((ch.CodePoint(), |ch.Text()|)) && ch.Text() == s[..|ch.Text()|]
  {
    if s[0] != '\\' {
      ch := Plain(s[0]);
    } else if s[1] != 'u' {
      EscapeOf(s);
      hide ScanChar;
      ch := Escaped(s[1]);
    } else if ScanChar(s).value.1 == 12 {
      ch := PairOf(s);
      hide ScanChar, Char.Text, Char.CodePoint, Char.IsWellFormed;
    } else {
      ch := CodeOf(s);
      hide ScanChar, Char.Text, Char.CodePoint, Char.IsWellFormed;
    }
  }

  lemma {:induction false} StringIs(cs: seq<Char>, rest: string)
    requires AreWellFormed(cs)
    ensures StringLength(TextOf(cs) + "\"" + rest) == Some(|TextOf(cs)|)
    ensures Meaning(TextOf(cs)) == PointsOf(cs)
  {
    hide ScanChar, Char.Text, Char.CodePoint, Char.IsWellFormed;
    if cs == [] {
      assert TextOf(cs) + "\"" + rest == "\"" + rest;
    } else {
      var head, tail := cs[0].Text(), TextOf(cs[1..]);
      StringIs(cs[1..], rest);
      CharIs(cs[0], tail + "\"" + rest);
      CharIs(cs[0], tail);
      HeadAndTail(head, tail, rest);
    }
  }

  lemma HeadAndTail(head: string, tail: string, rest: string)
    ensures var s := head + tail + "\"" + rest;
      s == head + (tail + "\"" + rest) && s[|head|..] == tail + "\"" + rest
    ensures (head + tail)[|head|..] == tail
  {}

  lemma {:induction false} StringOf(s: string) returns (cs: seq<Char>)
    requires StringLength(s).Some?
    ensures AreWellFormed(cs) && TextOf(cs) == s[..StringLength(s).value]
    decreases |s|
  {
    hide ScanChar, Char.Text, Char.CodePoint, Char.IsWellFormed;
    if s[0] == '"' {
      cs := [];
    } else {
      var ch := CharOf(s);
      var k := |ch.Text()|;
      var more := StringOf(s[k..]);
      cs := [ch] + more;
      assert cs[1..] == more;
      assert s[..StringLength(s).value] == s[..k] + s[k..][..StringLength(s[k..]).value];
    }
  }

  /** The contents of strings are exactly those of the grammar, and so is their meaning. */
  lemma StringIffWellFormed(raw: string)
    ensures IsStringBody(raw) <==> exists cs :: AreWellFormed(cs) && TextOf(cs) == raw
    ensures forall cs :: AreWellFormed(cs) && TextOf(cs) == raw ==> Meaning(raw) == PointsOf(cs)
  {
    hide StringLength, Meaning;
    if IsStringBody(raw) {
      var cs := StringOf(raw + "\"");
      assert (raw + "\"")[..|raw|] == raw;
    }
    forall cs | AreWellFormed(cs) && TextOf(cs) == raw
      ensures IsStringBody(raw) && Meaning(raw) == PointsOf(cs)
    {
      StringIs(cs, "");
      assert raw + "\"" + "" == raw + "\"";
    }
  }
}

/** In the format of lines, each object occupies exactly one line. */
module JsonLines {
  import opened Json
  import opened JsonCodec
  import opened JsonRoundTrip
  import opened JsonStreams
  import opened Text
  import opened Wrappers

  predicate HasNoControls(s: string) {
    forall c :: c in s ==> c >= ' '
  }

  lemma {:induction false} DigitsAreVisible(s: string)
    ensures HasNoControls(s[..CountDigits(s)])
  {
    if s != "" && IsDigit(s[0]) {
      DigitsAreVisible(s[1..]);
      assert s[..CountDigits(s)] == [s[0]] + s[1..][..CountDigits(s[1..])];
    }
  }

  lemma IntegerIsVisible(s: string)
    requires IntegerLength(s).Some?
    ensures IntegerLength(s).value <= |s| && HasNoControls(s[..IntegerLength(s).value])
  {
    DigitsAreVisible(s);
  }

  lemma FractionIsVisible(s: string)
    requires FractionLength(s).Some?
    ensures FractionLength(s).value <= |s| && HasNoControls(s[..FractionLength(s).value])
  {
    if s != "" && s[0] == '.' {
      DigitsAreVisible(s[1..]);
      var n := CountDigits(s[1..]);
      assert s[..n + 1] == [s[0]] + s[1..][..n];
    }
  }

  lemma ExponentIsVisible(s: string)
    requires ExponentLength(s).Some?
    ensures ExponentLength(s).value <= |s| && HasNoControls(s[..ExponentLength(s).value])
  {
    if s != "" && s[0] in "eE" {
      var sign := if |s| > 1 && s[1] in "+-" then 1 else 0;
      DigitsAreVisible(s[1 + sign..]);
      var n := CountDigits(s[1 + sign..]);
      VisibleConcat(s[..1 + sign], s[1 + sign..][..n]);
      assert s[..n + 1 + sign] == s[..1 + sign] + s[1 + sign..][..n];
      hide HasNoControls;
    }
  }

  lemma NumberIsVisible(token: string)
    requires NumberLength(token) == Some(|token|)
    ensures HasNoControls(token)
  {
    if token[0] == '-' {
      UnsignedIsVisible(token[1..]);
      assert token == ['-'] + token[1..];
    } else {
      UnsignedIsVisible(token);
    }
  }

  lemma VisibleConcat(a: string, b: string)
    requires HasNoControls(a) && HasNoControls(b)
    ensures HasNoControls(a + b)
  {}

  lemma UnsignedIsVisible(s: string)
    requires UnsignedLength(s) == Some(|s|)
    ensures HasNoControls(s)
  {
    hide IntegerLength, FractionLength, ExponentLength, HasNoControls;
    var i := IntegerLength(s).value;
    var f := FractionLength(s[i..]).value;
    var rest := s[i + f..];
    IntegerIsVisible(s);
    FractionIsVisible(s[i..]);
    ExponentIsVisible(rest);
    VisibleConcat(s[..i], s[i..][..f]);
    VisibleConcat(s[..i] + s[i..][..f], rest[..|rest|]);
    assert s == s[..i] + s[i..][..f] + rest[..|rest|];
  }

  lemma CharIsVisible(s: string)
    requires s != "" && ScanChar(s).Some?
    ensures HasNoControls(s[..ScanChar(s).value.1])
  {
    if s[0] == '\\' && s[1] == 'u' {
      HexIsVisible(s);
      if ScanChar(s).value.1 == 12 {
        HexIsVisible(s[6..]);
        assert s[..12] == s[..6] + s[6..][..6];
      }
    } else if s[0] == '\\' {
      assert s[..2] == [s[0], s[1]];
    }
  }

  lemma HexIsVisible(s: string)
    requires CodeUnit(s).Some?
    ensures HasNoControls(s[..6])
  {
    assert s[..6] == [s[0], s[1], s[2], s[3], s[4], s[5]];
  }

  lemma {:induction false} StringIsVisible(s: string)
    requires StringLength(s).Some?
    ensures HasNoControls(s[..StringLength(s).value])
    decreases |s|
  {
    hide ScanChar;
    if s[0] != '"' {
      var k, n := ScanChar(s).value.1, StringLength(s).value;
      CharIsVisible(s);
      StringIsVisible(s[k..]);
      assert s[..n] == s[..k] + s[k..][..n - k];
    }
  }

  lemma BodyIsVisible(raw: string)
    requires IsStringBody(raw)
    ensures HasNoControls(raw)
  {
    StringIsVisible(raw + "\"");
    assert (raw + "\"")[..|raw|] == raw;
  }

  /** The compact form has no line breaks, nor any other control characters. */
  lemma {:induction false} PrintIsVisible(v: Value)
    requires IsValid(v)
    ensures HasNoControls(Print(v))
    decreases v
  {
    hide NumberLength, IsStringBody;
    match v
    case Number(token) => NumberIsVisible(token);
    case String(raw) => BodyIsVisible(raw);
    case Array(items) => ItemsAreVisible(items);
    case Object(members) => MembersAreVisible(members, {});
    case _ =>
  }

  lemma {:induction false} ItemsAreVisible(items: Items)
    requires AreValidItems(items)
    ensures HasNoControls(PrintItems(items))
    decreases items
  {
    hide IsValid, Print;
    if items.Item? {
      PrintIsVisible(items.value);
      ItemsAreVisible(items.rest);
    }
  }

  lemma {:induction false} MembersAreVisible(members: Members, names: set<seq<nat>>)
    requires AreValidMembers(members, names)
    ensures HasNoControls(PrintMembers(members))
    decreases members
  {
    hide IsValid, Print, IsStringBody;
    if members.Member? {
      BodyIsVisible(members.name);
      PrintIsVisible(members.value);
      MembersAreVisible(members.rest, names + {Meaning(members.name)});
    }
  }

  lemma CompactIsVisible(text: string)
    requires Compact(text).Some?
    ensures HasNoControls(Compact(text).value)
  {
    var p := ParseValue(SkipBlank(text)).value;
    ParsedIsValid(SkipBlank(text));
    PrintIsVisible(p.value);
  }

  lemma {:induction false} AllAreVisible(objects: seq<string>)
    requires CompactAll(objects).Some?
    ensures forall i :: 0 <= i < |objects| ==> HasNoControls(CompactAll(objects).value[i])
  {
    hide Compact, HasNoControls;
    if objects != [] {
      AllAreVisible(objects[..|objects| - 1]);
      CompactIsVisible(objects[|objects| - 1]);
    }
  }

  lemma {:induction false} LinesAreJoined(texts: seq<string>)
    ensures JoinLines(texts) == Join(texts + [""], '\n')
  {
    if texts != [] {
      var init, t := texts[..|texts| - 1], texts[|texts| - 1];
      LinesAreJoined(init);
      JoinTwoMore(init, t);
      assert texts + [""] == init + [t, ""];
    }
  }

  lemma {:induction false} JoinTwoMore(init: seq<string>, t: string)
    ensures Join(init + [t, ""], '\n') == Join(init + [""], '\n') + t + "\n"
  {
    if init == [] {
      assert init + [t, ""] == [t, ""] && init + [""] == [""];
    } else {
      JoinTwoMore(init[1..], t);
      assert (init + [t, ""])[1..] == init[1..] + [t, ""] && (init + [""])[1..] == init[1..] + [""];
    }
  }

  /** The lines of the payload are exactly the objects in the compact form, and the last line break ends the text. */
  lemma EachObjectIsALine(objects: seq<string>)
    requires CompactAll(objects).Some?
    ensures Split(Encode(Lines, objects).value, '\n') == CompactAll(objects).value + [""]
  {
    var texts := CompactAll(objects).value;
    AllAreVisible(objects);
    LinesAreJoined(texts);
    assert Encode(Lines, objects).value == JoinLines(texts);
    hide CompactAll, JoinLines, Join, Split, Encode, Payload;
    SplitOfJoin(texts + [""], '\n');
  }
}

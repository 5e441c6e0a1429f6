/** Payloads can be joined and split: decoding undoes encoding, and works piece by piece. */
module JsonStreams {
  import opened Json
  import opened JsonCodec
  import opened JsonRoundTrip
  import opened JsonTheory
  import opened Wrappers

  // ---- Decoding is a homomorphism.

  lemma SameDecode(s: string, t: string)
    requires SkipBlank(s) == SkipBlank(t)
    ensures Decode(s) == Decode(t)
  {
    hide SkipBlank, ParseValue, DecodeItems;
  }

  lemma {:induction false} DecodeItemsExtends(s: string, t: string)
    requires DecodeItems(s).Some?
    ensures DecodeItems(s + t) == Some(Parsed(DecodeItems(s).value.value, DecodeItems(s).value.rest + t))
    decreases |s|
  {
    hide SkipBlank, ParseValue, Kept;
    var p := ParseValue(s).value;
    var n, rest := |s| - |p.rest|, SkipBlank(p.rest);
    NotBlank(p.rest);
    ValueExtends(s, t);
    assert (s + t)[..n] == s[..n];
    SkipBlankExtends(p.rest, t);
    assert (rest + t)[1..] == rest[1..] + t;
    if rest[0] == ',' {
      ItemsNotEmpty(rest[1..]);
      SkipBlankExtends(rest[1..], t);
      DecodeItemsExtends(SkipBlank(rest[1..]), t);
    }
  }

  lemma ItemsNotEmpty(s: string)
    ensures DecodeItems(SkipBlank(s)).Some? ==> SkipBlank(s) != ""
  {}

  /** Valid payloads can be concatenated: the result has the objects of both. */
  lemma {:induction false} DecodeConcat(a: string, b: string)
    requires Decode(a).Some? && Decode(b).Some?
    ensures Decode(a + b) == Some(Decode(a).value + Decode(b).value)
    decreases |a|
  {
    hide ParseValue, SkipBlank, DecodeItems, Kept;
    var s := SkipBlank(a);
    SkipBlankExtends(a, b);
    if s == "" {
      SameDecode(a + b, b);
      assert [] + Decode(b).value == Decode(b).value;
    } else if s[0] == '{' {
      DecodeConcatObject(a, b);
    } else {
      DecodeConcatArray(a, b);
    }
  }

  lemma {:induction false} DecodeConcatObject(a: string, b: string)
    requires Decode(a).Some? && Decode(b).Some? && SkipBlank(a) != "" && SkipBlank(a)[0] == '{'
    ensures Decode(a + b) == Some(Decode(a).value + Decode(b).value)
    decreases |a|, 0
  {
    hide ParseValue, SkipBlank, DecodeItems, Kept;
    var s := SkipBlank(a);
    SkipBlankExtends(a, b);
    var p := ParseValue(s).value;
    ObjectIsObject(s);
    ValueExtends(s, b);
    var n := |s| - |p.rest|;
    assert (s + b)[..n] == s[..n];
    DecodeConcat(p.rest, b);
    PrependTwice(Kept(p.value, s[..n]), Decode(p.rest).value, Decode(b));
  }

  lemma ObjectIsObject(s: string)
    requires s != "" && s[0] == '{' && ParseValue(s).Some?
    ensures ParseValue(s).value.value.Object?
  {
    hide ParseMembers;
  }

  lemma {:induction false} DecodeConcatArray(a: string, b: string)
    requires Decode(a).Some? && Decode(b).Some? && SkipBlank(a) != "" && SkipBlank(a)[0] == '['
    ensures Decode(a + b) == Some(Decode(a).value + Decode(b).value)
    decreases |a|, 0
  {
    hide ParseValue, SkipBlank, DecodeItems, Kept;
    var s := SkipBlank(a);
    SkipBlankExtends(a, b);
    assert (s + b)[1..] == s[1..] + b;
    var first := SkipBlank(s[1..]);
    SkipBlankExtends(s[1..], b);
    if first != "" && first[0] == ']' {
      assert (first + b)[1..] == first[1..] + b;
      DecodeConcat(first[1..], b);
    } else {
      ItemsNotEmpty(s[1..]);
      var p := DecodeItems(first).value;
      DecodeItemsExtends(first, b);
      DecodeConcat(p.rest, b);
      PrependTwice(p.value, Decode(p.rest).value, Decode(b));
    }
  }

  // ---- Decoding undoes encoding.

  /** A text with a single JSON object. */
  predicate IsObjectText(text: string) {
    var p := ParseValue(SkipBlank(text));
    p.Some? && p.value.value.Object? && SkipBlank(p.value.rest) == ""
  }

  /** An object in the compact form. */
  predicate IsCompactObject(t: string) {
    var p := ParseValue(t);
    t != "" && t[0] == '{' && p.Some? && p.value.rest == "" && p.value.value.Object? && Print(p.value.value) == t
  }

  lemma CompactObject(text: string)
    requires IsObjectText(text)
    ensures Compact(text).Some? && IsCompactObject(Compact(text).value)
  {
    var p := ParseValue(SkipBlank(text)).value;
    ParsedIsValid(SkipBlank(text));
    PrintParses(p.value, "");
    assert Print(p.value) + "" == Print(p.value);
    assert Print(p.value)[0] == '{';
    hide ParseValue, SkipBlank, PrintMembers;
  }

  lemma {:induction false} CompactObjects(objects: seq<string>)
    requires forall i :: 0 <= i < |objects| ==> IsObjectText(objects[i])
    ensures CompactAll(objects).Some?
    ensures forall i :: 0 <= i < |objects| ==> IsCompactObject(CompactAll(objects).value[i])
  {
    hide IsObjectText, IsCompactObject, Compact;
    if objects != [] {
      CompactObjects(objects[..|objects| - 1]);
      CompactObject(objects[|objects| - 1]);
    }
  }

  function NonEmpty(texts: seq<string>): seq<string> {
    if texts == [] then []
    else NonEmpty(texts[..|texts| - 1]) + (if texts[|texts| - 1] == "{}" then [] else [texts[|texts| - 1]])
  }

  lemma EmptyText(t: string)
    requires IsCompactObject(t)
    ensures Kept(ParseValue(t).value.value, t) == NonEmpty([t])
  {
    assert [t][..0] == [];
    if t == "{}" {
      assert SkipBlank(t[1..]) == "}";
    }
  }

  /** What decoding takes from an object that begins the text. */
  lemma ObjectThenRest(t: string, rest: string)
    requires IsCompactObject(t)
    ensures SkipBlank(t + rest) == t + rest && ParseValue(t + rest) == Some(Parsed(ParseValue(t).value.value, rest))
    ensures Kept(ParseValue(t).value.value, (t + rest)[..|t|]) == NonEmpty([t])
  {
    hide ParseValue, NonEmpty, Kept;
    ValueExtends(t, rest);
    EmptyText(t);
    SkipNothing(t + rest);
    assert "" + rest == rest && (t + rest)[..|t|] == t;
  }

  lemma DecodeObject(t: string, rest: string)
    requires IsCompactObject(t)
    ensures Decode(t + rest) == Prepended(NonEmpty([t]), Decode(rest))
  {
    ObjectThenRest(t, rest);
    hide ParseValue, NonEmpty, Kept, DecodeItems, IsCompactObject, SkipBlank;
    assert |t + rest| - |rest| == |t|;
  }

  lemma BlankPayload(s: string)
    requires SkipBlank(s) == ""
    ensures Decode(s) == Some([])
  {}

  lemma NonEmptyLast(init: seq<string>, t: string)
    ensures NonEmpty(init + [t]) == NonEmpty(init) + NonEmpty([t])
  {
    assert (init + [t])[..|init|] == init && [t][..0] == [];
  }

  lemma {:induction false} DecodeLines(texts: seq<string>)
    requires forall i :: 0 <= i < |texts| ==> IsCompactObject(texts[i])
    ensures Decode(JoinLines(texts)) == Some(NonEmpty(texts))
  {
    hide Decode, IsCompactObject, SkipBlank;
    if texts == [] {
      EmptyIsBlank();
      BlankPayload("");
    } else {
      var init, t := texts[..|texts| - 1], texts[|texts| - 1];
      assert texts == init + [t];
      DecodeLines(init);
      EmptyIsBlank();
      BlankPayload("\n");
      DecodeObject(t, "\n");
      assert NonEmpty([t]) + [] == NonEmpty([t]);
      DecodeConcat(JoinLines(init), t + "\n");
      assert JoinLines(texts) == JoinLines(init) + (t + "\n");
      NonEmptyLast(init, t);
      hide NonEmpty, JoinLines;
    }
  }

  lemma EmptyIsBlank()
    ensures SkipBlank("") == "" && SkipBlank("\n") == ""
  {}

  /** The objects of an array, followed by whatever its decoding finds after them. */
  function Appended(objects: seq<string>, more: Option<Parsed<seq<string>>>): Option<Parsed<seq<string>>> {
    if more == None then None else Some(Parsed(objects + more.value.value, more.value.rest))
  }

  lemma DecodeOneItem(t: string, tail: string)
    requires IsCompactObject(t)
    ensures DecodeItems(t + tail) == Appended(NonEmpty([t]), DecodeElements(PeekElement(tail, false)))
  {
    ObjectThenRest(t, tail);
    ItemsStep(t + tail);
    hide ParseValue, NonEmpty, Kept, DecodeItems, IsCompactObject, SkipBlank, DecodeElements, PeekElement;
    assert |t + tail| - |tail| == |t|;
  }

  lemma AfterComma(t: string, tail: string)
    requires IsCompactObject(t)
    ensures DecodeElements(PeekElement("," + (t + tail), false)) == DecodeItems(t + tail)
  {
    assert ("," + (t + tail))[1..] == t + tail;
    SkipNothing("," + (t + tail));
    SkipNothing(t + tail);
    hide ParseValue, DecodeItems, SkipBlank;
  }

  lemma {:induction false} DecodeJoined(texts: seq<string>, tail: string)
    requires texts != [] && forall i :: 0 <= i < |texts| ==> IsCompactObject(texts[i])
    ensures DecodeItems(JoinItems(texts) + tail)
         == Appended(NonEmpty(texts), DecodeElements(PeekElement(tail, false)))
    decreases |texts|
  {
    hide DecodeItems, IsCompactObject, DecodeElements, PeekElement, NonEmpty;
    var init, t := texts[..|texts| - 1], texts[|texts| - 1];
    DecodeOneItem(t, tail);
    assert texts == init + [t];
    if init != [] {
      DecodeJoined(init, "," + (t + tail));
      AfterComma(t, tail);
      assert JoinItems(texts) + tail == JoinItems(init) + ("," + (t + tail));
      NonEmptyLast(init, t);
      AppendTwice(NonEmpty(init), NonEmpty([t]), DecodeElements(PeekElement(tail, false)));
      hide JoinItems, Appended;
    }
  }

  lemma AppendTwice(a: seq<string>, b: seq<string>, more: Option<Parsed<seq<string>>>)
    ensures Appended(a, Appended(b, more)) == Appended(a + b, more)
  {
    if more.Some? {
      assert a + (b + more.value.value) == (a + b) + more.value.value;
    }
  }

  lemma DecodeArray(texts: seq<string>)
    requires texts != [] && forall i :: 0 <= i < |texts| ==> IsCompactObject(texts[i])
    ensures Decode("[" + JoinItems(texts) + "]") == Some(NonEmpty(texts))
  {
    hide IsCompactObject, Decode, DecodeItems, NonEmpty, JoinItems, SkipBlank;
    var body := JoinItems(texts) + "]";
    var s := "[" + JoinItems(texts) + "]";
    assert s[1..] == body;
    SkipNothing(s);
    JoinedHead(texts);
    SkipNothing(body);
    ArrayStep(s);
    DecodeJoined(texts, "]");
    EndOfArray();
    assert DecodeItems(body) == Some(Parsed(NonEmpty(texts) + [], ""));
    hide DecodeElements, PeekElement;
    assert NonEmpty(texts) + [] == NonEmpty(texts);
    EmptyIsBlank();
    BlankPayload("");
  }

  lemma EndOfArray()
    ensures DecodeElements(PeekElement("]", false)) == Some(Parsed([], ""))
  {
    SkipNothing("]");
    assert "]"[1..] == "";
  }

  lemma {:induction false} JoinedHead(texts: seq<string>)
    requires texts != [] && forall i :: 0 <= i < |texts| ==> IsCompactObject(texts[i])
    ensures JoinItems(texts) != "" && JoinItems(texts)[0] == '{'
    decreases |texts|
  {
    hide ParseValue;
    if |texts| > 1 {
      JoinedHead(texts[..|texts| - 1]);
    } else {
      assert IsCompactObject(texts[0]);
    }
  }

  lemma DecodePayload(format: Format, texts: seq<string>)
    requires forall i :: 0 <= i < |texts| ==> IsCompactObject(texts[i])
    ensures Decode(Payload(format, texts)) == Some(NonEmpty(texts))
  {
    hide Decode, NonEmpty, JoinItems, JoinLines, IsCompactObject;
    if texts == [] {
      DecodeEmpty();
    } else if IsArray(format, |texts|) {
      DecodeArray(texts);
    } else if format.Lines? {
      DecodeLines(texts);
    } else {
      assert texts == [texts[0]] && texts[0] + "" == texts[0];
      DecodeObject(texts[0], "");
      EmptyIsBlank();
      BlankPayload("");
      assert NonEmpty(texts) + [] == NonEmpty(texts);
    }
  }

  lemma DecodeEmpty()
    ensures Decode("{}") == Some([]) && Decode("[]") == Some([]) && Decode("") == Some([])
    ensures NonEmpty([]) == []
  {
    hide ParseMembers, ParseItems;
    EmptyIsBlank();
    BlankPayload("");
    assert "{}"[1..] == "}" && "}"[1..] == "";
    SkipNothing("}");
    SkipNothing("{}");
    assert ParseValue("{}") == Some(Parsed(Object(NoMembers), ""));
    assert IsCompactObject("{}") && ["{}"][..0] == [] && "{}" + "" == "{}";
    DecodeObject("{}", "");
    EmptyArray();
    hide Decode, ParseValue;
  }

  lemma EmptyArray()
    ensures Decode("[]") == Some([])
  {
    hide ParseValue;
    EmptyIsBlank();
    BlankPayload("");
    assert "[]"[1..] == "]" && "]"[1..] == "";
    SkipNothing("]");
    SkipNothing("[]");
  }

  /** In all the formats, decoding the payload that encodes any number of objects, gives back those of them which
      aren't empty, in their order and in the compact form. */
  lemma DecodeEncode(format: Format, objects: seq<string>)
    requires forall i :: 0 <= i < |objects| ==> IsObjectText(objects[i])
    ensures Encode(format, objects).Some?
    ensures Decode(Encode(format, objects).value) == Some(NonEmpty(CompactAll(objects).value))
  {
    hide IsObjectText, IsCompactObject, Decode, NonEmpty, Payload, CompactAll;
    CompactObjects(objects);
    DecodePayload(format, CompactAll(objects).value);
  }

  /** The text of an object, exactly as it appears where it was decoded from. */
  ghost predicate IsObjectAsIs(o: string) {
    exists v, rest :: ParseValue(o + rest) == Some(Parsed(v, rest)) && IsValid(v) && v.Object? && v != Object(NoMembers)
  }

  lemma KeptAsIs(s: string)
    requires s != "" && s[0] == '{' && ParseValue(s).Some?
    ensures var p := ParseValue(s).value;
      forall o :: o in Kept(p.value, s[..|s| - |p.rest|]) ==> IsObjectAsIs(o)
  {
    ParsedIsValid(s);
    ParsedIsSuffix(s);
    ObjectIsObject(s);
    hide ParseValue, IsValid;
    var p := ParseValue(s).value;
    var o := s[..|s| - |p.rest|];
    assert o + p.rest == s;
    assert ParseValue(o + p.rest) == Some(Parsed(p.value, p.rest));
  }

  lemma {:induction false} ItemsAsIs(s: string)
    requires DecodeItems(s).Some?
    ensures forall o :: o in DecodeItems(s).value.value ==> IsObjectAsIs(o)
    decreases |s|
  {
    hide ParseValue, SkipBlank, Kept, IsObjectAsIs;
    KeptAsIs(s);
    var rest := SkipBlank(ParseValue(s).value.rest);
    if rest[0] == ',' {
      ItemsAsIs(SkipBlank(rest[1..]));
    }
  }

  /** Whatever was decoded is an object which isn't empty, and is entirely valid: in particular, the names in it, and in
      all the objects inside it, are unique. A payload with any other object isn't decoded at all. */
  lemma {:induction false} DecodedAreObjects(s: string)
    requires Decode(s).Some?
    ensures forall o :: o in Decode(s).value ==> IsObjectAsIs(o)
    decreases |s|
  {
    hide ParseValue, SkipBlank, Kept, IsObjectAsIs, DecodeItems;
    var s' := SkipBlank(s);
    if s' != "" {
      if s'[0] == '{' {
        KeptAsIs(s');
        DecodedAreObjects(ParseValue(s').value.rest);
      } else {
        var first := SkipBlank(s'[1..]);
        if first != "" && first[0] == ']' {
          DecodedAreObjects(first[1..]);
        } else {
          ItemsAsIs(first);
          DecodedAreObjects(DecodeItems(first).value.rest);
        }
      }
    }
  }
}

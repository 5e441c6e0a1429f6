/** What payloads mean: which values they contain, in terms of the grammar. */
module JsonMeaning {
  import opened Json
  import opened JsonCodec
  import opened JsonGrammar
  import opened JsonLines
  import opened JsonRoundTrip
  import opened JsonStreams
  import opened JsonTheory
  import opened Text
  import opened Wrappers

  /** A text of a value, and nothing else. */
  ghost predicate IsTextOf(text: string, v: Value) {
    exists d :: IsDoc(d) && ValueOf(d) == v && Write(d) == text
  }

  /** The same, with any white space around it. */
  ghost predicate HasOnly(text: string, v: Value) {
    exists b, t, e :: AreBlanks(b) && AreBlanks(e) && IsTextOf(t, v) && text == b + t + e
  }

  // ---- Encoding.

  lemma {:induction false} BlanksAreSkipped(s: string)
    ensures AreBlanks(s) <==> SkipBlank(s) == ""
  {
    if AreBlanks(s) {
      SkipBlanks(s, "");
      assert s + "" == s;
    }
    if SkipBlank(s) == "" {
      var b := SkippedBlanks(s);
      assert b + "" == b;
    }
  }

  lemma EndsAfterBlanks(s: string)
    requires AreBlanks(s)
    ensures Ends(s)
  {
    assert s != "" ==> s[0] in s;
  }

  /** An object is encoded if and only if it's a text of a single value, and the result is a text of the same value. */
  lemma CompactIff(text: string)
    ensures Compact(text).Some? <==> exists v :: HasOnly(text, v)
    ensures forall v :: HasOnly(text, v) ==> Compact(text) == Some(Print(v)) && IsTextOf(Print(v), v)
  {
    if Compact(text).Some? {
      HasOnlyParsed(text);
    }
    forall v | HasOnly(text, v)
      ensures Compact(text) == Some(Print(v)) && IsTextOf(Print(v), v)
    {
      OnlyIsCompact(text, v);
    }
  }

  lemma HasOnlyParsed(text: string)
    requires Compact(text).Some?
    ensures HasOnly(text, ParseValue(SkipBlank(text)).value.value)
  {
    hide ParseValue, SkipBlank, IsDoc, Write;
    var p := ParseValue(SkipBlank(text)).value;
    var b := SkippedBlanks(text);
    var d := ParsedIsDoc(SkipBlank(text));
    BlanksAreSkipped(p.rest);
    assert IsTextOf(Write(d), p.value);
    Regroup(b, Write(d), p.rest);
    assert text == b + Write(d) + p.rest;
  }

  lemma OnlyIsCompact(text: string, v: Value)
    requires HasOnly(text, v)
    ensures Compact(text) == Some(Print(v)) && IsTextOf(Print(v), v)
  {
    hide ParseValue, SkipBlank, IsDoc, Write, IsValid, Print;
    var b, t, e :| AreBlanks(b) && AreBlanks(e) && IsTextOf(t, v) && text == b + t + e;
    var d :| IsDoc(d) && ValueOf(d) == v && Write(d) == t;
    Regroup(b, t, e);
    SkipBlanks(b, t + e);
    DocHead(d);
    SkipNothing(t + e);
    EndsAfterBlanks(e);
    DocParses(d, e);
    BlanksAreSkipped(e);
    ParsedIsValid(t + e);
    PrintIsText(v);
  }

  lemma PrintIsText(v: Value)
    requires IsValid(v)
    ensures ParseValue(Print(v)) == Some(Parsed(v, "")) && IsTextOf(Print(v), v)
  {
    hide ParseValue, IsDoc, Write, IsValid, Print;
    PrintParses(v, "");
    assert Print(v) + "" == Print(v);
    var d := ParsedIsDoc(Print(v));
    assert Write(d) + "" == Write(d);
  }

  function ListOf(items: Items): seq<Value> {
    match items
    case NoItems => []
    case Item(v, rest) => [v] + ListOf(rest)
  }

  function ArrayOf(values: seq<Value>): Items {
    if values == [] then NoItems else Item(values[0], ArrayOf(values[1..]))
  }

  lemma {:induction false} ListOfArray(values: seq<Value>)
    ensures ListOf(ArrayOf(values)) == values
  {
    if values != [] {
      ListOfArray(values[1..]);
    }
  }

  function PrintAll(values: seq<Value>): seq<string> {
    seq(|values|, i requires 0 <= i < |values| => Print(values[i]))
  }

  /** The objects are valid, and have the given values. */
  ghost predicate HaveValues(objects: seq<string>, values: seq<Value>) {
    |objects| == |values| && forall i :: 0 <= i < |objects| ==> HasOnly(objects[i], values[i])
  }

  lemma {:induction false} CompactValues(objects: seq<string>, values: seq<Value>)
    requires HaveValues(objects, values)
    ensures CompactAll(objects) == Some(PrintAll(values))
  {
    hide HasOnly, Compact, Print;
    if objects != [] {
      var n := |objects| - 1;
      assert HasOnly(objects[n], values[n]);
      CompactValues(objects[..n], values[..n]);
      CompactIff(objects[n]);
      assert PrintAll(values) == PrintAll(values[..n]) + [Print(values[n])];
    } else {
      assert PrintAll(values) == [];
    }
  }

  lemma {:induction false} JoinFirst(t: string, rest: seq<string>)
    requires rest != []
    ensures JoinItems([t] + rest) == t + "," + JoinItems(rest)
    decreases |rest|
  {
    var init, u := rest[..|rest| - 1], rest[|rest| - 1];
    assert ([t] + rest)[..|rest|] == [t] + init;
    if init == [] {
      assert rest == [u] && [t] + init == [t];
    } else {
      JoinFirst(t, init);
      Regroup(t + ",", JoinItems(init), "," + u);
      assert JoinItems([t] + rest) == JoinItems([t] + init) + "," + u;
    }
  }

  lemma {:induction false} JoinedIsArray(values: seq<Value>)
    requires values != []
    ensures JoinItems(PrintAll(values)) + "]" == PrintItems(ArrayOf(values))
    decreases |values|
  {
    hide Print;
    var rest := values[1..];
    if rest == [] {
      assert PrintAll(values) == [Print(values[0])];
    } else {
      JoinedIsArray(rest);
      assert PrintAll(values) == [Print(values[0])] + PrintAll(rest);
      JoinFirst(Print(values[0]), PrintAll(rest));
      hide JoinItems;
      Regroup(Print(values[0]) + ",", JoinItems(PrintAll(rest)), "]");
    }
  }

  lemma {:induction false} ValidArray(values: seq<Value>)
    requires forall i :: 0 <= i < |values| ==> IsValid(values[i])
    ensures AreValidItems(ArrayOf(values))
  {
    hide IsValid;
    if values != [] {
      ValidArray(values[1..]);
    }
  }

  /** Encoding fails if and only if an object isn't a text with a single value. Otherwise, the payload has exactly their
      values, in order: as an array, unless there's a single object in a format that prefers it as it is. */
  lemma PayloadHasValues(format: Format, objects: seq<string>, values: seq<Value>)
    requires HaveValues(objects, values)
    ensures Encode(format, objects).Some?
    ensures var payload := Encode(format, objects).value;
      match format
      case AlwaysArray => IsTextOf(payload, Array(ArrayOf(values)))
      case SingleOrArray =>
        if values == [] then payload == "{}"
        else IsTextOf(payload, if |values| == 1 then values[0] else Array(ArrayOf(values)))
      case Lines =>
        && |Split(payload, '\n')| == |values| + 1 && Split(payload, '\n')[|values|] == ""
        && forall i :: 0 <= i < |values| ==> IsTextOf(Split(payload, '\n')[i], values[i])
  {
    hide HasOnly, Compact, IsTextOf, Print, JoinItems, JoinLines;
    CompactValues(objects, values);
    forall i | 0 <= i < |values|
      ensures IsValid(values[i]) && IsTextOf(Print(values[i]), values[i])
    {
      assert HasOnly(objects[i], values[i]);
      OnlyIsValid(objects[i], values[i]);
      PrintIsText(values[i]);
    }
    if format.Lines? {
      EachObjectIsALine(objects);
      hide Encode, Split;
    } else {
      ArrayIsText(values);
    }
  }

  lemma OnlyIsValid(text: string, v: Value)
    requires HasOnly(text, v)
    ensures IsValid(v)
  {
    var t :| IsTextOf(t, v);
    var d :| IsDoc(d) && ValueOf(d) == v && Write(d) == t;
    DocParses(d, "");
    ParsedIsValid(Write(d) + "");
  }

  lemma ArrayIsText(values: seq<Value>)
    requires forall i :: 0 <= i < |values| ==> IsValid(values[i])
    ensures values == [] ==> IsTextOf("[]", Array(NoItems))
    ensures values != [] ==> IsTextOf("[" + JoinItems(PrintAll(values)) + "]", Array(ArrayOf(values)))
  {
    ArrayIsValid(values);
    hide IsTextOf, JoinItems, IsValid, Print, PrintItems;
    PrintIsText(Array(ArrayOf(values)));
    PrintIs(Array(ArrayOf(values)));
    if values != [] {
      JoinedIsArray(values);
      Regroup("[", JoinItems(PrintAll(values)), "]");
    } else {
      NothingInside();
    }
  }

  lemma ArrayIsValid(values: seq<Value>)
    requires forall i :: 0 <= i < |values| ==> IsValid(values[i])
    ensures IsValid(Array(ArrayOf(values)))
  {
    ValidArray(values);
  }

  ghost predicate IsInvalid(text: string) {
    forall v :: !HasOnly(text, v)
  }

  lemma EncodeFailsIff(format: Format, objects: seq<string>)
    ensures Encode(format, objects) == None <==> exists i :: 0 <= i < |objects| && IsInvalid(objects[i])
  {
    hide Compact, CompactAll, IsInvalid;
    CompactAllIff(objects);
    forall i | 0 <= i < |objects|
      ensures Compact(objects[i]) == None <==> IsInvalid(objects[i])
    {
      InvalidIff(objects[i]);
    }
  }

  lemma InvalidIff(text: string)
    ensures Compact(text) == None <==> IsInvalid(text)
  {
    hide HasOnly, Compact;
    CompactIff(text);
  }

  lemma {:induction false} CompactAllIff(objects: seq<string>)
    ensures CompactAll(objects) == None <==> exists i :: 0 <= i < |objects| && Compact(objects[i]) == None
  {
    hide Compact;
    if objects != [] {
      CompactAllIff(objects[..|objects| - 1]);
    }
  }

  // ---- Decoding.

  /** All the values in a text, one after another. */
  function Values(s: string): Option<seq<Value>>
    decreases |s|
  {
    var s' := SkipBlank(s);
    if s' == "" then Some([])
    else
      var p :- ParseValue(s');
      var more :- Values(p.rest);
      Some([p.value] + more)
  }

  predicate IsObjects(v: Value) {
    v.Object? || (v.Array? && forall i :: 0 <= i < |ListOf(v.items)| ==> ListOf(v.items)[i].Object?)
  }

  function WithoutEmpty(values: seq<Value>): seq<Value> {
    if values == [] then []
    else (if values[0] == Object(NoMembers) then [] else [values[0]]) + WithoutEmpty(values[1..])
  }

  /** The objects in the values: one, or those of an array. */
  function ObjectsOf(values: seq<Value>): seq<Value> {
    if values == [] then []
    else (if values[0].Array? then ListOf(values[0].items) else [values[0]]) + ObjectsOf(values[1..])
  }

  ghost predicate AreTextsOf(texts: seq<string>, values: seq<Value>) {
    |texts| == |values| && forall i :: 0 <= i < |texts| ==> IsTextOf(texts[i], values[i])
  }

  lemma PrependValues(a: seq<Value>, b: seq<Value>, c: seq<Value>)
    ensures a + b + c == a + (b + c)
  {}

  lemma {:induction false} WithoutEmptyConcat(a: seq<Value>, b: seq<Value>)
    ensures WithoutEmpty(a + b) == WithoutEmpty(a) + WithoutEmpty(b)
  {
    if a == [] {
      assert a + b == b;
    } else {
      WithoutEmptyConcat(a[1..], b);
      assert (a + b)[0] == a[0] && (a + b)[1..] == a[1..] + b;
      var first := if a[0] == Object(NoMembers) then [] else [a[0]];
      PrependValues(first, WithoutEmpty(a[1..]), WithoutEmpty(b));
    }
  }

  lemma TextsConcat(a: seq<string>, values: seq<Value>, b: seq<string>, more: seq<Value>)
    requires AreTextsOf(a, values) && AreTextsOf(b, more)
    ensures AreTextsOf(a + b, values + more)
  {
    hide IsTextOf;
  }

  /** The text of an object is kept as it is, unless it's empty. */
  lemma KeptText(s: string)
    requires s != "" && s[0] == '{' && ParseValue(s).Some?
    ensures var p := ParseValue(s).value;
      p.value.Object? && AreTextsOf(Kept(p.value, s[..|s| - |p.rest|]), WithoutEmpty([p.value]))
  {
    ObjectFrom(s);
    hide ParseValue, IsDoc, Write, SkipBlank, ParseMembers;
    var p := ParseValue(s).value;
    var d := ParsedIsDoc(s);
    assert s[..|s| - |p.rest|] == Write(d);
    assert [p.value][1..] == [];
  }

  lemma OtherIsNotObject(s: string)
    requires s != "" && s[0] != '{' && ParseValue(s).Some?
    ensures !ParseValue(s).value.value.Object? && (s[0] != '[' ==> !ParseValue(s).value.value.Array?)
  {
    hide ParseItems, ParseMembers, SkipBlank, StringLength, NumberLength;
  }

  lemma FirstItem(v: Value, rest: Items)
    ensures IsObjects(Array(Item(v, rest))) <==> v.Object? && IsObjects(Array(rest))
    ensures WithoutEmpty(ListOf(Item(v, rest))) == WithoutEmpty([v]) + WithoutEmpty(ListOf(rest))
  {
    var all := ListOf(Item(v, rest));
    assert all[0] == v && all[1..] == ListOf(rest);
    assert forall i :: 0 <= i < |ListOf(rest)| ==> all[i + 1] == ListOf(rest)[i];
    WithoutEmptyConcat([v], ListOf(rest));
    if IsObjects(Array(Item(v, rest))) {
      forall i | 0 <= i < |ListOf(rest)|
        ensures ListOf(rest)[i].Object?
      {
        assert all[i + 1].Object?;
      }
    }
  }

  /** What's parsed after a comma, if anything. */
  function MoreItems(s: string): Option<Parsed<Items>>
    requires ParseValue(s).Some?
  {
    var rest := SkipBlank(ParseValue(s).value.rest);
    if rest == "" then None
    else if rest[0] == ']' then Some(Parsed(NoItems, rest[1..]))
    else if rest[0] == ',' then ParseItems(SkipBlank(rest[1..]))
    else None
  }

  lemma ItemsFrom(s: string)
    requires ParseValue(s).Some?
    ensures ParseItems(s) ==
      if MoreItems(s) == None then None
      else Some(Parsed(Item(ParseValue(s).value.value, MoreItems(s).value.value), MoreItems(s).value.rest))
  {
    hide ParseValue, SkipBlank;
  }

  function MoreObjects(s: string): Option<Parsed<seq<string>>>
    requires ParseValue(s).Some?
  {
    var rest := SkipBlank(ParseValue(s).value.rest);
    if rest == "" then None
    else if rest[0] == ']' then Some(Parsed([], rest[1..]))
    else if rest[0] == ',' then DecodeItems(SkipBlank(rest[1..]))
    else None
  }

  lemma ObjectsFrom(s: string)
    requires s != "" && s[0] == '{' && ParseValue(s).Some?
    ensures var p := ParseValue(s).value;
      DecodeItems(s) ==
        if MoreObjects(s) == None then None
        else Some(Parsed(Kept(p.value, s[..|s| - |p.rest|]) + MoreObjects(s).value.value, MoreObjects(s).value.rest))
  {
    hide ParseValue, SkipBlank, Kept;
    var p := ParseValue(s).value;
    var kept := Kept(p.value, s[..|s| - |p.rest|]);
    assert kept + [] == kept;
  }

  lemma {:induction false} MoreMean(s: string)
    requires ParseValue(s).Some? && s != ""
    ensures MoreObjects(s).Some? <==> MoreItems(s).Some? && IsObjects(Array(MoreItems(s).value.value))
    ensures MoreObjects(s).Some? ==>
              && MoreObjects(s).value.rest == MoreItems(s).value.rest
              && AreTextsOf(MoreObjects(s).value.value, WithoutEmpty(ListOf(MoreItems(s).value.value)))
    decreases |s|, 0
  {
    hide ParseValue, SkipBlank, ParseItems, DecodeItems, IsTextOf;
    var rest := SkipBlank(ParseValue(s).value.rest);
    if rest != "" && rest[0] == ',' {
      hide AreTextsOf, WithoutEmpty, IsObjects, ListOf;
      ItemsMean(SkipBlank(rest[1..]));
    }
  }

  /** An array is decoded if and only if it's parsed, and all its items are objects. */
  lemma {:induction false} ItemsMean(s: string)
    ensures DecodeItems(s).Some? <==> ParseItems(s).Some? && IsObjects(Array(ParseItems(s).value.value))
    ensures DecodeItems(s).Some? ==>
              && DecodeItems(s).value.rest == ParseItems(s).value.rest
              && AreTextsOf(DecodeItems(s).value.value, WithoutEmpty(ListOf(ParseItems(s).value.value)))
    decreases |s|, 1
  {
    if s == "" || ParseValue(s) == None {
      hide ParseValue;
    } else {
      hide ParseValue, ParseItems, SkipBlank, Kept, AreTextsOf, WithoutEmpty, IsObjects, ListOf, MoreItems, MoreObjects;
      var p := ParseValue(s).value;
      ItemsFrom(s);
      if MoreItems(s).Some? {
        FirstItem(p.value, MoreItems(s).value.value);
      }
      if s[0] == '{' {
        hide DecodeItems;
        MoreMean(s);
        ObjectsFrom(s);
        KeptText(s);
        if MoreObjects(s).Some? {
          TextsConcat(Kept(p.value, s[..|s| - |p.rest|]), WithoutEmpty([p.value]),
            MoreObjects(s).value.value, WithoutEmpty(ListOf(MoreItems(s).value.value)));
        }
      } else {
        OtherIsNotObject(s);
      }
    }
  }

  ghost predicate AreDecodable(values: Option<seq<Value>>) {
    values.Some? && forall v :: v in values.value ==> IsObjects(v)
  }

  /** The values that are decoded from the beginning of a text, and what comes after them. */
  lemma FirstMeans(s: string)
    requires s != "" && !IsBlank(s[0]) && ParseValue(s).Some?
    ensures Decode(s).Some? <==> IsObjects(ParseValue(s).value.value) && Decode(ParseValue(s).value.rest).Some?
    ensures Decode(s).Some? ==>
      var p := ParseValue(s).value;
      exists texts :: AreTextsOf(texts, WithoutEmpty(ObjectsOf([p.value])))
                      && Decode(s).value == texts + Decode(p.rest).value
  {
    hide ParseValue, SkipBlank, DecodeItems, IsTextOf;
    SkipNothing(s);
    var p := ParseValue(s).value;
    assert [p.value][1..] == [];
    assert ObjectsOf([p.value]) == if p.value.Array? then ListOf(p.value.items) else [p.value];
    if s[0] == '{' {
      KeptText(s);
      hide Kept, AreTextsOf;
    } else if s[0] == '[' {
      ArrayMeans(s);
      hide Decode;
    } else {
      OtherIsNotObject(s);
    }
  }

  lemma ArrayMeans(s: string)
    requires s != "" && s[0] == '[' && ParseValue(s).Some?
    ensures ParseValue(s).value.value.Array?
    ensures Decode(s).Some? <==> IsObjects(ParseValue(s).value.value) && Decode(ParseValue(s).value.rest).Some?
    ensures Decode(s).Some? ==>
      var p := ParseValue(s).value;
      exists texts :: AreTextsOf(texts, WithoutEmpty(ListOf(p.value.items)))
                      && Decode(s).value == texts + Decode(p.rest).value
  {
    hide ParseValue, SkipBlank, ParseItems, DecodeItems, IsTextOf;
    SkipNothing(s);
    ArrayFrom(s);
    var first := SkipBlank(s[1..]);
    if first != "" && first[0] == ']' {
      assert AreTextsOf([], []);
      assert Decode(first[1..]).Some? ==> [] + Decode(first[1..]).value == Decode(first[1..]).value;
    } else {
      ItemsMean(first);
      hide AreTextsOf, IsObjects, WithoutEmpty, ListOf;
    }
  }

  lemma FirstIsParsed(s: string)
    requires s != "" && !IsBlank(s[0]) && Decode(s).Some?
    ensures ParseValue(s).Some?
  {
    hide ParseValue, SkipBlank, ParseItems, DecodeItems;
    SkipNothing(s);
    if s[0] == '[' {
      ArrayFrom(s);
      ItemsMean(SkipBlank(s[1..]));
    }
  }

  lemma FirstValue(s: string)
    requires var s' := SkipBlank(s); s' != "" && ParseValue(s').Some?
    ensures var p := ParseValue(SkipBlank(s)).value;
      && AreDecodable(Values(s)) == (IsObjects(p.value) && AreDecodable(Values(p.rest)))
      && (Values(s).Some? ==>
            && Values(p.rest).Some?
            && ObjectsOf(Values(s).value) == ObjectsOf([p.value]) + ObjectsOf(Values(p.rest).value))
  {
    hide ParseValue, SkipBlank, IsObjects, ListOf;
    var p := ParseValue(SkipBlank(s)).value;
    if Values(p.rest).Some? {
      var more := Values(p.rest).value;
      assert Values(s).value[1..] == more;
      assert [p.value][1..] == [];
      assert Values(s).value == [p.value] + more;
    }
  }

  /** A payload is decoded if and only if it's a sequence of texts of objects, and of arrays of objects. The result is
      the text of each object that isn't empty, in order, exactly as it was written. */
  lemma {:induction false} DecodeMeaning(s: string)
    ensures Decode(s).Some? <==> AreDecodable(Values(s))
    ensures Decode(s).Some? ==> AreTextsOf(Decode(s).value, WithoutEmpty(ObjectsOf(Values(s).value)))
    decreases |s|
  {
    hide ParseValue, SkipBlank, Decode, Values, IsObjects, AreTextsOf, WithoutEmpty, ObjectsOf, AreDecodable;
    var s' := SkipBlank(s);
    SkipTwice(s);
    SameDecode(s, s');
    if s' == "" {
      NothingMeans(s);
    } else if ParseValue(s') == None {
      InvalidMeans(s);
      if Decode(s').Some? {
        FirstIsParsed(s');
      }
    } else {
      var p := ParseValue(s').value;
      DecodeMeaning(p.rest);
      FirstMeans(s');
      FirstValue(s);
      DecodableValues(s);
      if Decode(s').Some? {
        var first := WithoutEmpty(ObjectsOf([p.value]));
        var more := ObjectsOf(Values(p.rest).value);
        var texts :| AreTextsOf(texts, first) && Decode(s').value == texts + Decode(p.rest).value;
        TextsConcat(texts, first, Decode(p.rest).value, WithoutEmpty(more));
        WithoutEmptyConcat(ObjectsOf([p.value]), more);
      }
    }
  }

  lemma DecodableValues(s: string)
    ensures AreDecodable(Values(s)) ==> Values(s).Some?
  {}

  lemma SkipTwice(s: string)
    ensures SkipBlank(SkipBlank(s)) == SkipBlank(s)
    ensures SkipBlank(s) != "" ==> !IsBlank(SkipBlank(s)[0])
  {}

  lemma NothingMeans(s: string)
    requires SkipBlank(s) == ""
    ensures Decode(s) == Some([]) && Values(s) == Some([]) && AreDecodable(Values(s))
    ensures AreTextsOf([], WithoutEmpty(ObjectsOf([])))
  {}

  lemma InvalidMeans(s: string)
    requires SkipBlank(s) != "" && ParseValue(SkipBlank(s)) == None
    ensures !AreDecodable(Values(s))
  {
    hide ParseValue, SkipBlank;
  }
}

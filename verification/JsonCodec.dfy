/** Payloads of JSON objects: a single object, an array of objects, or a stream with one object in each line. */
module JsonCodec {
  import opened Json
  import opened JsonRoundTrip
  import opened JsonTheory
  import opened Text
  import opened Wrappers

  datatype Format = SingleOrArray | AlwaysArray | Lines

  // ---- Encoding.

  /** The compact form of a text with a single JSON value. */
  function Compact(text: string): Option<string> {
    var p :- ParseValue(SkipBlank(text));
    if SkipBlank(p.rest) != "" then None else Some(Print(p.value))
  }

  function CompactAll(texts: seq<string>): (r: Option<seq<string>>)
    ensures r.Some? ==> |r.value| == |texts|
  {
    if texts == [] then Some([])
    else
      var init :- CompactAll(texts[..|texts| - 1]);
      var last :- Compact(texts[|texts| - 1]);
      Some(init + [last])
  }

  function JoinLines(texts: seq<string>): string {
    if texts == [] then "" else JoinLines(texts[..|texts| - 1]) + texts[|texts| - 1] + "\n"
  }

  function JoinItems(texts: seq<string>): string {
    if texts == [] then ""
    else if |texts| == 1 then texts[0]
    else JoinItems(texts[..|texts| - 1]) + "," + texts[|texts| - 1]
  }

  predicate IsArray(format: Format, n: nat) {
    !format.Lines? && (format.AlwaysArray? || n > 1)
  }

  function EmptyPayload(format: Format): string {
    match format
    case SingleOrArray => "{}"
    case AlwaysArray => "[]"
    case Lines => ""
  }

  function Payload(format: Format, texts: seq<string>): string {
    if texts == [] then EmptyPayload(format)
    else if IsArray(format, |texts|) then "[" + JoinItems(texts) + "]"
    else if format.Lines? then JoinLines(texts)
    else texts[0]
  }

  function Encode(format: Format, objects: seq<string>): Option<string> {
    var texts :- CompactAll(objects);
    Some(Payload(format, texts))
  }

  /** The sum of the sizes, with a separator after each object. */
  function Space(objects: seq<string>): nat {
    if objects == [] then 0 else Space(objects[..|objects| - 1]) + |objects[|objects| - 1]| + 1
  }

  lemma CompactIsShorter(text: string)
    ensures Compact(text).Some? ==> |Compact(text).value| <= |text|
  {
    if ParseValue(SkipBlank(text)).Some? {
      ParsedIsValid(SkipBlank(text));
    }
  }

  lemma {:induction false} CompactPrefixes(objects: seq<string>, i: nat)
    requires i <= |objects| && CompactAll(objects[..i]) == None
    ensures CompactAll(objects) == None
    decreases |objects|
  {
    if i == |objects| {
      assert objects[..i] == objects;
    } else {
      assert objects[..|objects| - 1][..i] == objects[..i];
      CompactPrefixes(objects[..|objects| - 1], i);
    }
  }

  /** The output so far: everything but the closing bracket. */
  function Progress(format: Format, n: nat, texts: seq<string>): string {
    if IsArray(format, n) then "[" + JoinItems(texts)
    else if format.Lines? then JoinLines(texts)
    else if texts == [] then "" else texts[0]
  }

  lemma OneMore(format: Format, n: nat, texts: seq<string>, t: string)
    requires n > |texts|
    ensures Progress(format, n, texts + [t]) == Progress(format, n, texts)
      + (if IsArray(format, n) && |texts| > 0 then "," else "") + t + (if format.Lines? then "\n" else "")
  {
    JoinOneMore(texts, t);
    hide JoinItems, JoinLines;
    if IsArray(format, n) {
      assert "[" + JoinItems(texts + [t]) == ("[" + JoinItems(texts)) + (if texts == [] then "" else ",") + t + "";
    } else if !format.Lines? {
      assert texts == [];
    }
  }

  lemma JoinOneMore(texts: seq<string>, t: string)
    ensures JoinLines(texts + [t]) == JoinLines(texts) + t + "\n"
    ensures JoinItems(texts + [t]) == JoinItems(texts) + (if texts == [] then "" else ",") + t
  {
    assert (texts + [t])[..|texts|] == texts;
  }

  method Capacity(objects: seq<string>) returns (capacity: nat)
    ensures capacity == 2 + Space(objects)
  {
    capacity := 2;
    for i := 0 to |objects|
      invariant capacity == 2 + Space(objects[..i])
    {
      assert objects[..i + 1][..i] == objects[..i];
      capacity := capacity + |objects[i]| + 1;
    }
    assert objects[..|objects|] == objects;
  }

  /** The compact form of an object, unless it's invalid, and what comes before and after it. */
  method AppendNext(comma: bool, newline: bool, payload: string, text: string) returns (r: Option<string>)
    ensures var compact := Compact(text);
      if compact == None then r == None
      else r == Some(payload + (if comma then "," else "") + compact.value + (if newline then "\n" else ""))
  {
    hide Compact;
    var next := payload;
    if comma {
      next := next + ",";
    } else {
      assert next == payload + "";
    }
    var compact :- Compact(text);
    next := next + compact;
    if newline {
      next := next + "\n";
    } else {
      assert next == next + "";
    }
    return Some(next);
  }

  /** What's written for the first objects, which are all valid. */
  ghost predicate IsWritten(format: Format, objects: seq<string>, i: nat, payload: string)
    requires i <= |objects|
  {
    var texts := CompactAll(objects[..i]);
    texts.Some? && payload == Progress(format, |objects|, texts.value) && |payload| <= 1 + Space(objects[..i])
  }

  lemma NothingYet(format: Format, objects: seq<string>)
    ensures IsWritten(format, objects, 0, if IsArray(format, |objects|) then "[" else "")
  {
    assert objects[..0] == [];
  }

  lemma OneMoreIsWritten(format: Format, objects: seq<string>, i: nat, payload: string)
    requires i < |objects| && IsWritten(format, objects, i, payload) && Compact(objects[i]).Some?
    ensures IsWritten(format, objects, i + 1,
      payload + (if IsArray(format, |objects|) && i > 0 then "," else "") + Compact(objects[i]).value
      + (if format.Lines? then "\n" else ""))
  {
    var texts, text := CompactAll(objects[..i]).value, Compact(objects[i]).value;
    assert CompactAll(objects[..i + 1]) == Some(texts + [text]) by {
      NextObject(objects, i);
    }
    assert Space(objects[..i + 1]) == Space(objects[..i]) + |objects[i]| + 1 by {
      NextObject(objects, i);
    }
    hide Space, CompactAll, Compact, Progress;
    CompactIsShorter(objects[i]);
    OneMore(format, |objects|, texts, text);
    hide IsArray;
  }

  lemma AllIsWritten(format: Format, objects: seq<string>, payload: string)
    requires objects != [] && IsWritten(format, objects, |objects|, payload)
    ensures var r := payload + (if IsArray(format, |objects|) then "]" else "");
      Encode(format, objects) == Some(r) && |r| <= 2 + Space(objects)
  {
    assert objects[..|objects|] == objects;
    hide Space, CompactAll, Compact, IsArray, Progress, Payload;
    LastProgress(format, CompactAll(objects).value);
  }

  /** The payload is written into space that's allocated in advance, which always suffices. */
  method EncodeJSON(format: Format, objects: seq<string>) returns (r: Option<string>, capacity: nat)
    ensures r == Encode(format, objects)
    ensures |objects| > 0 ==> capacity == 2 + Space(objects)
    ensures r.Some? && |objects| > 0 ==> |r.value| <= capacity
  {
    hide Space, Compact, IsArray, IsWritten, Encode, EmptyPayload;
    if |objects| == 0 {
      NoObjects(format, objects);
      return Some(EmptyPayload(format)), 0;
    }
    capacity := Capacity(objects);
    NothingYet(format, objects);
    var asArray := IsArray(format, |objects|);
    var payload := if asArray then "[" else "";
    for i := 0 to |objects|
      invariant IsWritten(format, objects, i, payload)
    {
      var next := AppendNext(asArray && i > 0, format.Lines?, payload, objects[i]);
      if next == None {
        InvalidObject(format, objects, i);
        return None, capacity;
      }
      OneMoreIsWritten(format, objects, i, payload);
      payload := next.value;
    }
    AllIsWritten(format, objects, payload);
    if asArray {
      payload := payload + "]";
    } else {
      assert payload == payload + "";
    }
    return Some(payload), capacity;
  }

  lemma NoObjects(format: Format, objects: seq<string>)
    requires |objects| == 0
    ensures Encode(format, objects) == Some(EmptyPayload(format))
  {}

  lemma InvalidObject(format: Format, objects: seq<string>, i: nat)
    requires i < |objects| && Compact(objects[i]) == None
    ensures Encode(format, objects) == None
  {
    NextObject(objects, i);
    CompactPrefixes(objects, i + 1);
  }

  lemma NextObject(objects: seq<string>, i: nat)
    requires i < |objects|
    ensures Space(objects[..i + 1]) == Space(objects[..i]) + |objects[i]| + 1
    ensures CompactAll(objects[..i]).Some? && Compact(objects[i]).Some? ==>
      CompactAll(objects[..i + 1]) == Some(CompactAll(objects[..i]).value + [Compact(objects[i]).value])
    ensures Compact(objects[i]) == None ==> CompactAll(objects[..i + 1]) == None
  {
    assert objects[..i + 1][..i] == objects[..i];
  }

  lemma LastProgress(format: Format, texts: seq<string>)
    requires texts != []
    ensures Payload(format, texts)
         == Progress(format, |texts|, texts) + if IsArray(format, |texts|) then "]" else ""
  {}

  // ---- Decoding.

  /** Empty objects are skipped. */
  function Kept(v: Value, raw: string): seq<string> {
    if v == Object(NoMembers) then [] else [raw]
  }

  /** The objects of an array, from the first one up to the bracket that ends it. */
  function DecodeItems(s: string): (r: Option<Parsed<seq<string>>>)
    ensures r.Some? ==> |r.value.rest| < |s|
    decreases |s|
  {
    if s == "" || s[0] != '{' then None
    else
      var p :- ParseValue(s);
      var objects := Kept(p.value, s[..|s| - |p.rest|]);
      var rest := SkipBlank(p.rest);
      if rest == "" then None
      else if rest[0] == ']' then Some(Parsed(objects, rest[1..]))
      else if rest[0] != ',' then None
      else
        var more :- DecodeItems(SkipBlank(rest[1..]));
        Some(Parsed(objects + more.value, more.rest))
  }

  /** Any mix of objects, and of arrays of objects, in a single sequence. */
  function Decode(s: string): Option<seq<string>>
    decreases |s|
  {
    var s' := SkipBlank(s);
    if s' == "" then Some([])
    else if s'[0] == '{' then
      var p :- ParseValue(s');
      var more :- Decode(p.rest);
      Some(Kept(p.value, s'[..|s'| - |p.rest|]) + more)
    else if s'[0] == '[' then
      var first := SkipBlank(s'[1..]);
      if first != "" && first[0] == ']' then Decode(first[1..])
      else
        var p :- DecodeItems(first);
        var more :- Decode(p.rest);
        Some(p.value + more)
    else None
  }

  function Prepended(objects: seq<string>, more: Option<seq<string>>): Option<seq<string>> {
    if more == None then None else Some(objects + more.value)
  }

  lemma PrependTwice(a: seq<string>, b: seq<string>, more: Option<seq<string>>)
    ensures Prepended(a, Prepended(b, more)) == Prepended(a + b, more)
    ensures Prepended([], more) == more
  {
    if more.Some? {
      assert a + (b + more.value) == (a + b) + more.value;
      assert [] + more.value == more.value;
    }
  }

  /** The next token of an array, after the comma that must separate it from the one before. */
  function PeekElement(s: string, first: bool): Option<string> {
    var next := SkipBlank(s);
    if first then Some(next)
    else if next == "" then None
    else if next[0] == ']' then Some(next)
    else if next[0] != ',' then None
    else
      var after := SkipBlank(next[1..]);
      if after != "" && after[0] == ']' then None else Some(after)
  }

  /** What remains to be decoded, in the middle of an array. */
  function DecodeElements(next: Option<string>): Option<Parsed<seq<string>>> {
    if next == None || next.value == "" then None
    else if next.value[0] == ']' then Some(Parsed([], next.value[1..]))
    else DecodeItems(next.value)
  }

  function DecodeRest(next: Option<string>): Option<seq<string>> {
    var p :- DecodeElements(next);
    Prepended(p.value, Decode(p.rest))
  }

  /** An object is empty if and only if the first token after its opening brace closes it. */
  lemma EmptyObject(s: string)
    requires s != "" && s[0] == '{' && ParseValue(s).Some?
    ensures var raw := s[..|s| - |ParseValue(s).value.rest|];
      && |raw| > 0 && SkipBlank(raw[1..]) != ""
      && (SkipBlank(raw[1..])[0] == '}' <==> ParseValue(s).value.value == Object(NoMembers))
  {
    hide ParseValue, SkipBlank;
    var rest := ParseValue(s).value.rest;
    var raw := s[..|s| - |rest|];
    ParsedIsSuffix(s);
    assert s[1..] == raw[1..] + rest;
    SkipBlankExtends(raw[1..], rest);
    ObjectCases(s);
  }

  lemma ObjectCases(s: string)
    requires s != "" && s[0] == '{' && ParseValue(s).Some?
    ensures var body := SkipBlank(s[1..]);
      && |ParseValue(s).value.rest| < |body|
      && (body[0] == '}' <==> ParseValue(s).value.value == Object(NoMembers))
  {
    hide SkipBlank;
    var body := SkipBlank(s[1..]);
    if body != "" && body[0] != '}' {
      ParsedMembersAreValid(body, {});
    }
    hide ParseMembers;
  }

  method AppendObject(s: string, objects: seq<string>) returns (r: Option<Parsed<seq<string>>>)
    requires s != "" && s[0] == '{'
    ensures r == (if ParseValue(s) == None then None else
      Some(Parsed(objects + Kept(ParseValue(s).value.value, s[..|s| - |ParseValue(s).value.rest|]), ParseValue(s).value.rest)))
  {
    hide ParseValue, SkipBlank;
    assert objects + [] == objects;
    var value := ParseValue(s);
    if value.None? {
      return None;
    }
    var rest := value.value.rest;
    var raw := s[..|s| - |rest|];
    EmptyObject(s);
    if SkipBlank(raw[1..])[0] == '}' {
      return Some(Parsed(objects, rest));
    }
    return Some(Parsed(objects + [raw], rest));
  }

  lemma ObjectStep(s: string, objects: seq<string>)
    requires var s' := SkipBlank(s); s' != "" && s'[0] == '{' && ParseValue(s').Some?
    ensures var p := ParseValue(SkipBlank(s)).value;
            var raw := SkipBlank(s)[..|SkipBlank(s)| - |p.rest|];
      |p.rest| < |s| && Prepended(objects, Decode(s)) == Prepended(objects + Kept(p.value, raw), Decode(p.rest))
  {
    hide ParseValue, SkipBlank, Kept, DecodeItems;
    var s' := SkipBlank(s);
    var p := ParseValue(s').value;
    PrependTwice(objects, Kept(p.value, s'[..|s'| - |p.rest|]), Decode(p.rest));
  }

  lemma ArrayStep(s: string)
    requires var s' := SkipBlank(s); s' != "" && s'[0] == '['
    ensures var next := PeekElement(SkipBlank(s)[1..], true);
      next.Some? && |next.value| < |s| && Decode(s) == DecodeRest(next)
  {
    hide ParseValue, Kept;
    var first := SkipBlank(SkipBlank(s)[1..]);
    PrependTwice([], [], if first == "" then None else Decode(first[1..]));
    hide SkipBlank;
  }

  lemma ElementStep(s: string, objects: seq<string>)
    requires s != "" && s[0] == '{' && ParseValue(s).Some?
    ensures var p := ParseValue(s).value;
            var raw := s[..|s| - |p.rest|];
            var next := PeekElement(p.rest, false);
      && (next.Some? ==> |next.value| < |s|)
      && Prepended(objects, DecodeRest(Some(s))) == Prepended(objects + Kept(p.value, raw), DecodeRest(next))
  {
    hide ParseValue, Kept, SkipBlank;
    var p := ParseValue(s).value;
    var kept := Kept(p.value, s[..|s| - |p.rest|]);
    var next := PeekElement(p.rest, false);
    PrependTwice(objects, kept, DecodeRest(next));
    ItemsStep(s);
    if DecodeElements(next).Some? {
      var q := DecodeElements(next).value;
      PrependTwice(kept, q.value, Decode(q.rest));
    }
    hide DecodeElements, PeekElement, DecodeItems, Decode;
  }

  lemma ItemsStep(s: string)
    requires s != "" && s[0] == '{' && ParseValue(s).Some?
    ensures var p := ParseValue(s).value;
            var kept := Kept(p.value, s[..|s| - |p.rest|]);
            var more := DecodeElements(PeekElement(p.rest, false));
      DecodeItems(s) == if more == None then None else Some(Parsed(kept + more.value.value, more.value.rest))
  {
    hide ParseValue, Kept, SkipBlank;
    var p := ParseValue(s).value;
    var kept := Kept(p.value, s[..|s| - |p.rest|]);
    assert kept + [] == kept;
  }

  lemma NothingLeft(s: string, objects: seq<string>)
    requires SkipBlank(s) == ""
    ensures Prepended(objects, Decode(s)) == Some(objects)
  {
    assert Decode(s) == Some([]) && objects + [] == objects;
  }

  lemma InvalidStep(s: string)
    requires var s' := SkipBlank(s); s' != "" && s'[0] != '[' && (s'[0] == '{' ==> ParseValue(s') == None)
    ensures Decode(s) == None
  {
    hide ParseValue, SkipBlank, DecodeItems;
  }

  lemma InvalidElement(next: Option<string>)
    requires next == None || next.value == "" || next.value[0] != ']'
    requires next.Some? && next.value != "" && next.value[0] == '{' ==> ParseValue(next.value) == None
    ensures DecodeRest(next) == None
  {
    hide ParseValue, SkipBlank, Decode;
  }

  lemma LastElement(next: string)
    requires next != "" && next[0] == ']'
    ensures DecodeRest(Some(next)) == Decode(next[1..])
  {
    hide Decode, DecodeItems;
    PrependTwice([], [], Decode(next[1..]));
  }

  method DecodeJSON(payload: string) returns (r: Option<seq<string>>)
    ensures r == Decode(payload)
  {
    hide ParseValue, SkipBlank, Kept, Decode, DecodeRest, PeekElement;
    var objects := [];
    var rest := payload;
    PrependTwice([], [], Decode(payload));
    while SkipBlank(rest) != ""
      invariant Prepended(objects, Decode(rest)) == Decode(payload)
      decreases |rest|
    {
      var s := SkipBlank(rest);
      if s[0] == '{' {
        var appended := AppendObject(s, objects);
        if appended.None? {
          InvalidStep(rest);
          return None;
        }
        ObjectStep(rest, objects);
        objects, rest := appended.value.value, appended.value.rest;
      } else if s[0] == '[' {
        var next := PeekElement(s[1..], true);
        ArrayStep(rest);
        while next.Some? && next.value != "" && next.value[0] == '{'
          invariant Prepended(objects, DecodeRest(next)) == Decode(payload)
          invariant next.Some? ==> |next.value| < |rest|
          decreases if next.Some? then |next.value| else 0
        {
          var appended := AppendObject(next.value, objects);
          if appended.None? {
            InvalidElement(next);
            return None;
          }
          ElementStep(next.value, objects);
          objects, next := appended.value.value, PeekElement(appended.value.rest, false);
        }
        if next.None? || next.value == "" || next.value[0] != ']' {
          InvalidElement(next);
          return None;
        }
        LastElement(next.value);
        rest := next.value[1..];
      } else {
        InvalidStep(rest);
        return None;
      }
    }
    NothingLeft(rest, objects);
    return Some(objects);
  }
}

/** What a cronspec means: its documented notation, written out and parsed again. */
module CronMeaning {
  import opened Calendar
  import opened CronHorizon
  import opened CronNext
  import opened CronParse
  import opened CronTimes
  import opened Durations
  import opened Text
  import opened Wrappers

  const DAYS := ["sun", "mon", "tue", "wed", "thu", "fri", "sat"]

  const MONTHS := ["jan", "feb", "mar", "apr", "may", "jun", "jul", "aug", "sep", "oct", "nov", "dec"]

  type DayIndex = i: nat | i < 7

  type MonthIndex = i: nat | i < 12

  function Unsigned(s: string): string {
    if s != [] && (s[0] == '-' || s[0] == '+') then s[1..] else s
  }

  /** Decimal digits, after an optional sign. */
  predicate IsNumeral(s: string) {
    Unsigned(s) != [] && AllDigits(Unsigned(s))
  }

  type Numeral = s: string | IsNumeral(s) witness "0"

  predicate IsNegative(s: Numeral) {
    s[0] == '-'
  }

  function NumeralValue(s: Numeral): int {
    if IsNegative(s) then 0 - DecimalValue(Unsigned(s)) else DecimalValue(Unsigned(s))
  }

  /** A number, or the name of a day of the week or of a month. */
  datatype Ref = Number(text: Numeral) | Day(day: DayIndex) | Month(month: MonthIndex)

  /** The notations for the values of a field. Any of them may be an element of a list. */
  datatype Item =
    | All
    | AllEvery(step: Numeral)
    | One(value: Ref)
    | Range(from: Ref, to: Ref)
    | RangeEvery(from: Ref, to: Ref, step: Numeral)

  function WriteRef(r: Ref): string {
    match r
    case Number(text) => text
    case Day(i) => DAYS[i]
    case Month(i) => MONTHS[i]
  }

  function Write(item: Item): string {
    match item
    case All => "*"
    case AllEvery(n) => "*/" + n
    case One(a) => WriteRef(a)
    case Range(a, b) => WriteRef(a) + "-" + WriteRef(b)
    case RangeEvery(a, b, n) => WriteRef(a) + "-" + WriteRef(b) + "/" + n
  }

  predicate IsValue(f: Field, r: Ref) {
    match r
    case Number(text) =>
      f.First() <= NumeralValue(text) <= f.Last() || (f.DaysOfWeek? && NumeralValue(text) == 7)
    case Day(_) => f.DaysOfWeek?
    case Month(_) => f.Months?
  }

  /** A hyphen at the beginning would separate the ends of a range. */
  predicate IsFirst(r: Ref) {
    r.Number? ==> !IsNegative(r.text)
  }

  predicate IsStep(f: Field, n: Numeral) {
    0 < NumeralValue(n) <= f.Last()
  }

  /** Sunday is both 0 and 7. */
  function Value(f: Field, r: Ref): int {
    match r
    case Number(text) => if f.DaysOfWeek? && NumeralValue(text) == 7 then 0 else NumeralValue(text)
    case Day(i) => i
    case Month(i) => i + 1
  }

  /** The end of a range: Sunday ends a week, unless the range begins with it too. */
  function End(f: Field, a: Ref, b: Ref): int {
    if f.DaysOfWeek? && Value(f, b) == 0 && Value(f, a) > 0 then 7 else Value(f, b)
  }

  predicate IsRange(f: Field, a: Ref, b: Ref) {
    IsFirst(a) && IsValue(f, a) && IsValue(f, b) && Value(f, a) <= End(f, a, b)
  }

  predicate Valid(item: Item, f: Field) {
    match item
    case All => true
    case AllEvery(n) => IsStep(f, n)
    case One(a) => IsFirst(a) && IsValue(f, a)
    case Range(a, b) => IsRange(f, a, b)
    case RangeEvery(a, b, n) => IsRange(f, a, b) && IsStep(f, n)
  }

  /** Whether the range from a to b includes the value v, when it includes only every n-th value. */
  predicate InRange(f: Field, a: int, b: int, n: int, v: int)
    requires n > 0
  {
    || (a <= v <= b && (v - a) % n == 0)
    || (v == 0 && f.DaysOfWeek? && b == 7 && (7 - a) % n == 0)
  }

  predicate Means(item: Item, f: Field, v: int)
    requires Valid(item, f)
  {
    match item
    case All => f.First() <= v <= f.Last()
    case AllEvery(n) => InRange(f, f.First(), f.Last(), NumeralValue(n), v)
    case One(a) => v == Value(f, a)
    case Range(a, b) => InRange(f, Value(f, a), End(f, a, b), 1, v)
    case RangeEvery(a, b, n) => InRange(f, Value(f, a), End(f, a, b), NumeralValue(n), v)
  }

  lemma AtoiOfNumeral(s: string)
    ensures Atoi(s).Some? ==> IsNumeral(s) && Atoi(s).value == NumeralValue(s)
    ensures IsNumeral(s) && -MAX_INT <= NumeralValue(s) <= MAX_INT ==> Atoi(s).Some?
  {}

  lemma NumeralIsPlain(s: Numeral)
    ensures s[0] in "+-" || IsDigit(s[0])
    ensures forall i :: 0 < i < |s| ==> IsDigit(s[i])
  {
    assert forall i :: 0 <= i < |Unsigned(s)| ==> IsDigit(Unsigned(s)[i]);
    assert Unsigned(s) != s ==> forall i :: 0 < i < |s| ==> s[i] == Unsigned(s)[i - 1];
  }

  lemma NumeralsAreNotNames(f: Field, s: Numeral)
    ensures s !in f.Names() && s != "*"
  {
    NumeralIsPlain(s);
    hide IsNumeral;
  }

  predicate IsLetter(c: char) {
    'a' <= c <= 'z'
  }

  /** A reference is written with digits or with letters, and a hyphen can only be its first character. */
  lemma RefIsPlain(r: Ref)
    ensures var s := WriteRef(r);
      && s != [] && (IsDigit(s[0]) || IsLetter(s[0]) || s[0] == '+' || (s[0] == '-' && !IsFirst(r)))
      && (forall i :: 0 < i < |s| ==> IsDigit(s[i]) || IsLetter(s[i]))
  {
    match r
    case Number(text) => NumeralIsPlain(text);
    case Day(i) => assert i == 0 || i == 1 || i == 2 || i == 3 || i == 4 || i == 5 || i == 6;
    case Month(i) =>
      assert i == 0 || i == 1 || i == 2 || i == 3 || i == 4 || i == 5 || i == 6 || i == 7 || i == 8 || i == 9
          || i == 10 || i == 11;
  }

  lemma LettersAreNoNumber(s: string)
    requires s != [] && IsLetter(s[0])
    ensures Atoi(s) == None
  {
    assert !IsDigit(s[0]);
  }

  lemma DayIsName(f: Field, i: DayIndex)
    ensures DAYS[i] in f.Names() <==> f.DaysOfWeek?
    ensures f.DaysOfWeek? ==> f.Names()[DAYS[i]] == i
    ensures Atoi(DAYS[i]) == None
  {
    hide Atoi;
    LettersAreNoNumber(DAYS[i]);
    assert i == 0 || i == 1 || i == 2 || i == 3 || i == 4 || i == 5 || i == 6;
  }

  lemma MonthIsName(f: Field, i: MonthIndex)
    ensures MONTHS[i] in f.Names() <==> f.Months?
    ensures f.Months? ==> f.Names()[MONTHS[i]] == i + 1
    ensures Atoi(MONTHS[i]) == None
  {
    hide Atoi;
    LettersAreNoNumber(MONTHS[i]);
    assert i == 0 || i == 1 || i == 2 || i == 3 || i == 4 || i == 5 || i == 6 || i == 7 || i == 8 || i == 9
        || i == 10 || i == 11;
  }

  /** The names of days and months are the numbers of their positions, and mean nothing in other fields. */
  lemma DayParses(f: Field, i: DayIndex)
    ensures ParseValue(DAYS[i], f) == if f.DaysOfWeek? then Ok(i) else Err(InvalidValue(DAYS[i]))
  {
    DayIsName(f, i);
    hide Atoi, Field.Names;
  }

  lemma MonthParses(f: Field, i: MonthIndex)
    ensures ParseValue(MONTHS[i], f) == if f.Months? then Ok(i + 1) else Err(InvalidValue(MONTHS[i]))
  {
    MonthIsName(f, i);
    hide Atoi, Field.Names;
  }

  lemma NumberParses(f: Field, s: Numeral)
    ensures ParseValue(s, f).Ok? <==> IsValue(f, Number(s))
    ensures IsValue(f, Number(s)) ==> ParseValue(s, f) == Ok(Value(f, Number(s)))
  {
    AtoiOfNumeral(s);
    NumeralsAreNotNames(f, s);
    hide Atoi, Field.Names, IsNumeral, NumeralValue;
  }

  lemma ValueParses(f: Field, r: Ref)
    ensures ParseValue(WriteRef(r), f).Ok? <==> IsValue(f, r)
    ensures IsValue(f, r) ==> ParseValue(WriteRef(r), f) == Ok(Value(f, r))
  {
    hide ParseValue, NumeralValue;
    match r
    case Number(text) => NumberParses(f, text);
    case Day(i) => DayParses(f, i);
    case Month(i) => MonthParses(f, i);
  }

  lemma StepParses(f: Field, n: Numeral)
    ensures ParseStep(n, f) == if IsStep(f, n) then Ok(NumeralValue(n)) else Err(InvalidStep(n))
  {
    AtoiOfNumeral(n);
    hide Atoi, IsNumeral, NumeralValue;
  }

  lemma RangeParses(f: Field, a: Ref, b: Ref, hasStep: bool)
    ensures var text := WriteRef(a) + "-" + WriteRef(b);
            && text != "*" && '/' !in text
            && (IsFirst(a) ==> Cut(text, '-') == (WriteRef(a), WriteRef(b), true))
            && var r := ParseRange(text, hasStep, f);
               && (r.Ok? <==> IsFirst(a) && IsValue(f, a) && IsValue(f, b))
               && (r.Ok? ==> r.value == (Value(f, a), Value(f, b)))
  {
    hide WriteRef, Cut, IsFirst;
    RefIsPlain(a);
    RefIsPlain(b);
    if IsFirst(a) {
      BeginningHasNoHyphen(a);
      CutAtFirst(WriteRef(a), '-', WriteRef(b));
      ValueParses(f, a);
      ValueParses(f, b);
    } else {
      NegativeIsCut(a);
      NegativeFails(WriteRef(a) + "-" + WriteRef(b), hasStep, f);
    }
  }

  lemma BeginningHasNoHyphen(r: Ref)
    requires IsFirst(r)
    ensures '-' !in WriteRef(r)
  {
    RefIsPlain(r);
  }

  lemma NegativeIsCut(r: Ref)
    requires !IsFirst(r)
    ensures WriteRef(r)[0] == '-'
  {}

  lemma NegativeFails(text: string, hasStep: bool, f: Field)
    requires text != [] && text[0] == '-'
    ensures ParseRange(text, hasStep, f).Err?
  {
    assert "" !in f.Names();
    assert Cut(text, '-').0 == "";
  }

  /** Every notation is parsed if and only if it's valid. */
  lemma ItemParses(item: Item, f: Field)
    ensures ParseSpan(Write(item), f).Ok? <==> Valid(item, f)
    ensures Valid(item, f) ==>
              ParseSpan(Write(item), f).value ==
              match item
              case All => Span(f.First(), f.Last(), 1)
              case AllEvery(n) => Span(f.First(), f.Last(), NumeralValue(n))
              case One(a) => Span(Value(f, a), Value(f, a), 1)
              case Range(a, b) => Span(Value(f, a), End(f, a, b), 1)
              case RangeEvery(a, b, n) => Span(Value(f, a), End(f, a, b), NumeralValue(n))
  {
    hide WriteRef, Cut, ParseValue, ParseStep, NumeralValue, IsFirst;
    match item
    case All =>
      CutMissing("*", '/');
    case AllEvery(n) =>
      CutAtFirst("*", '/', n);
      assert "*" + "/" + n == "*/" + n;
      StepParses(f, n);
    case One(a) =>
      RefIsPlain(a);
      CutMissing(WriteRef(a), '/');
      if IsFirst(a) {
        BeginningHasNoHyphen(a);
        CutMissing(WriteRef(a), '-');
        ValueParses(f, a);
      } else {
        NegativeIsCut(a);
        NegativeFails(WriteRef(a), false, f);
      }
    case Range(a, b) =>
      RangeParses(f, a, b, false);
      CutMissing(WriteRef(a) + "-" + WriteRef(b), '/');
    case RangeEvery(a, b, n) =>
      RangeParses(f, a, b, true);
      CutAtFirst(WriteRef(a) + "-" + WriteRef(b), '/', n);
      StepParses(f, n);
  }

  /** ...and then it selects exactly the values that it means. */
  lemma ItemSelects(item: Item, f: Field, v: int)
    requires Valid(item, f) && 0 <= v < f.Size()
    ensures PartSelects(Write(item), f, v) <==> Means(item, f, v)
  {
    hide ParseSpan, Write, InRange, Span.Selects, Value, End;
    ItemParses(item, f);
    ParsedSpanIsIn(Write(item), f);
    var span := ParseSpan(Write(item), f).value;
    SpanSelects(span, f, v);
    if span.step == 1 {
      EveryValue(f, span.from, span.to, v);
    }
    LastIsNotSeven(f);
  }

  lemma LastIsNotSeven(f: Field)
    ensures f.DaysOfWeek? ==> f.Last() == 6
  {}

  lemma SpanSelects(span: Span, f: Field, v: int)
    requires span.IsIn(f) && 0 <= v < f.Size()
    ensures span.step > 0
    ensures span.Selects(f, v) <==> InRange(f, span.from, span.to, span.step, v)
  {}

  lemma EveryValue(f: Field, a: int, b: int, v: int)
    ensures InRange(f, a, b, 1, v) <==> a <= v <= b || (v == 0 && f.DaysOfWeek? && b == 7)
  {}

  function WriteAll(items: seq<Item>): seq<string> {
    seq(|items|, i requires 0 <= i < |items| => Write(items[i]))
  }

  function WriteList(items: seq<Item>): string
    requires items != []
  {
    Join(WriteAll(items), ',')
  }

  predicate AllValid(items: seq<Item>, f: Field) {
    forall i :: 0 <= i < |items| ==> Valid(items[i], f)
  }

  predicate AnyMeans(items: seq<Item>, f: Field, v: int)
    requires AllValid(items, f)
  {
    exists i :: 0 <= i < |items| && Means(items[i], f, v)
  }

  predicate IsPlain(c: char) {
    IsDigit(c) || IsLetter(c) || c in "*+-/"
  }

  predicate ArePlain(s: string) {
    forall i :: 0 <= i < |s| ==> IsPlain(s[i])
  }

  lemma ItemIsPlain(item: Item)
    ensures var s := Write(item); ArePlain(s) && s != [] && (s == "*" <==> item == All)
  {
    match item
    case All =>
    case AllEvery(n) => NumeralIsPlain(n);
    case One(a) => RefIsPlain(a);
    case Range(a, b) => RefIsPlain(a); RefIsPlain(b);
    case RangeEvery(a, b, n) => RefIsPlain(a); RefIsPlain(b); NumeralIsPlain(n);
    hide WriteRef, IsNumeral;
  }

  lemma WriteHasNoCommas(item: Item)
    ensures ',' !in Write(item)
  {
    ItemIsPlain(item);
    hide Write;
  }

  lemma {:induction false} FirstErrorOfWritten(items: seq<Item>, f: Field)
    ensures FirstError(WriteAll(items), f) == None <==> AllValid(items, f)
  {
    hide ParseSpan, Write, Valid;
    if items != [] {
      ItemParses(items[0], f);
      assert WriteAll(items)[1..] == WriteAll(items[1..]);
      FirstErrorOfWritten(items[1..], f);
      assert items == [items[0]] + items[1..];
    }
  }

  /** A list of notations is parsed if and only if they're all valid, into the union of their meanings. */
  lemma ListParses(items: seq<Item>, f: Field)
    requires items != []
    ensures ParseTable(WriteList(items), f).Ok? <==> AllValid(items, f)
    ensures AllValid(items, f) ==>
              forall v :: 0 <= v < f.Size() ==>
                (ParseTable(WriteList(items), f).value[v] <==> AnyMeans(items, f, v))
  {
    hide ParseSpan, Write, Valid, Means, PartSelects;
    var parts := WriteAll(items);
    forall i | 0 <= i < |parts|
      ensures ',' !in parts[i]
    {
      WriteHasNoCommas(items[i]);
    }
    SplitOfJoin(parts, ',');
    FirstErrorOfWritten(items, f);
    if AllValid(items, f) {
      forall v | 0 <= v < f.Size()
        ensures AnySelects(parts, f, v) <==> AnyMeans(items, f, v)
      {
        forall i | 0 <= i < |items|
          ensures PartSelects(parts[i], f, v) <==> Means(items[i], f, v)
        {
          ItemSelects(items[i], f, v);
        }
      }
    }
  }

  lemma ParsedItemIsIn(text: string, f: Field)
    requires ParseSpan(text, f).Ok?
    ensures exists v :: f.First() <= v <= f.Last() && PartSelects(text, f, v)
    ensures text == "*" ==> forall v :: f.First() <= v <= f.Last() ==> PartSelects(text, f, v)
  {
    hide Atoi, Cut, ParseValue, ParseStep;
    ParsedSpanIsIn(text, f);
    var span := ParseSpan(text, f).value;
    assert span.Has(span.from);
    assert PartSelects(text, f, span.from);
    if text == "*" {
      CutMissing(text, '/');
    }
  }

  lemma ParsedFieldIsUsable(text: string, f: Field)
    requires ParseTable(text, f).Ok?
    ensures var table := ParseTable(text, f).value;
            && (exists v :: f.First() <= v <= f.Last() && table[v])
            && (text == "*" ==> forall v :: f.First() <= v <= f.Last() ==> table[v])
  {
    hide ParseSpan, PartSelects;
    var parts := Split(text, ',');
    var table := ParseTable(text, f).value;
    assert FirstError(parts, f) == None && ParseSpan(parts[0], f).Ok?;
    ParsedItemIsIn(parts[0], f);
    var v :| f.First() <= v <= f.Last() && PartSelects(parts[0], f, v);
    assert AnySelects(parts, f, v) && table[v];
    if text == "*" {
      CutMissing(text, ',');
      forall u | f.First() <= u <= f.Last()
        ensures table[u]
      {
        assert PartSelects(parts[0], f, u);
      }
    }
  }

  /** All the fields of any parsed cronspec select something, and "*" selects everything. */
  lemma ParsedTablesAreUsable(fields: seq<string>)
    requires |fields| == 5
    ensures ParseTables(fields).Ok? ==> IsParsed(ParseTables(fields).value)
  {
    hide ParseTable;
    if ParseTables(fields).Ok? {
      ParsedFieldIsUsable(fields[0], Minutes);
      ParsedFieldIsUsable(fields[1], Hours);
      ParsedFieldIsUsable(fields[2], DaysOfMonth);
      ParsedFieldIsUsable(fields[3], Months);
      ParsedFieldIsUsable(fields[4], DaysOfWeek);
    }
  }

  /** `Next` gives up on a parsed cronspec if and only if no date ever matches it. */
  lemma NextGivesUpOnlyWithoutDates(text: string, durationOf: string -> Option<int>, after: int, offset: int)
    requires ParseSpec(text, durationOf).Ok? && ParseSpec(text, durationOf).value.Cron?
    ensures var t := ParseSpec(text, durationOf).value.table;
            NextWall(t, after, offset) == None <==> forall day :: !DateMatches(t, day)
  {
    hide ParseTables, FieldsOf, NextWall, IsParsed, DateMatches;
    var fields := FieldsOf(text);
    ParsedTablesAreUsable(fields);
    HorizonIsComplete(ParseTables(fields).value, after, offset);
  }

  datatype Cronspec = Cronspec(
    minutes: seq<Item>,
    hours: seq<Item>,
    daysOfMonth: seq<Item>,
    months: seq<Item>,
    daysOfWeek: seq<Item>)
  {
    predicate IsComplete() {
      minutes != [] && hours != [] && daysOfMonth != [] && months != [] && daysOfWeek != []
    }

    predicate IsValid() {
      && AllValid(minutes, Minutes) && AllValid(hours, Hours) && AllValid(daysOfMonth, DaysOfMonth)
      && AllValid(months, Months) && AllValid(daysOfWeek, DaysOfWeek)
    }

    function Fields(): seq<string>
      requires IsComplete()
    {
      [WriteList(minutes), WriteList(hours), WriteList(daysOfMonth), WriteList(months), WriteList(daysOfWeek)]
    }

    /** The documented meaning of a cronspec, at a given wall-clock time. */
    predicate Means(w: int)
      requires IsValid()
    {
      DateOfIsReal(DayOf(w));
      var d := DateOf(DayOf(w));
      var dom := AnyMeans(daysOfMonth, DaysOfMonth, d.day);
      var dow := AnyMeans(daysOfWeek, DaysOfWeek, Weekday(DayOf(w)));
      && AnyMeans(minutes, Minutes, MinuteOf(w))
      && AnyMeans(hours, Hours, HourOf(w))
      && AnyMeans(months, Months, d.month)
      && if daysOfMonth != [All] && daysOfWeek != [All] then dom || dow else dom && dow
    }
  }

  /** A field of a cronspec, which may be a list. */
  predicate IsWord(s: string) {
    s != [] && forall i :: 0 <= i < |s| ==> IsPlain(s[i]) || s[i] == ','
  }

  lemma {:induction false} ListIsPlain(items: seq<Item>)
    requires items != []
    ensures IsWord(WriteList(items))
    ensures WriteList(items) == "*" <==> items == [All]
  {
    ItemIsPlain(items[0]);
    hide Write;
    if |items| > 1 {
      assert WriteAll(items)[1..] == WriteAll(items[1..]);
      ListIsPlain(items[1..]);
    }
  }

  lemma PlainTextIsKept(s: string)
    requires s != [] && NoSpaces([s[0], s[|s| - 1]])
    requires forall i :: 0 <= i < |s| ==> !('A' <= s[i] <= 'Z')
    ensures Lower(TrimSpace(s)) == s
  {
    assert !IsSpace([s[0], s[|s| - 1]][0]) && !IsSpace([s[0], s[|s| - 1]][1]);
    assert TrimSpace(s) == s;
  }

  lemma PredefinedBeginWithAt(s: string)
    requires s != [] && s[0] != '@'
    ensures Expand(s) == s
  {}

  lemma {:induction false} JoinOfPlain(words: seq<string>)
    requires words != [] && forall i :: 0 <= i < |words| ==> IsWord(words[i])
    ensures var s := Join(words, ' ');
            && s != [] && words[0] != [] && s[0] == words[0][0] && !IsSpace(s[|s| - 1])
            && forall i :: 0 <= i < |s| ==> !('A' <= s[i] <= 'Z')
  {
    if |words| > 1 {
      JoinOfPlain(words[1..]);
    }
  }

  lemma FieldsOfWritten(fields: seq<string>)
    requires fields != [] && forall i :: 0 <= i < |fields| ==> IsWord(fields[i])
    ensures FieldsOf(Join(fields, ' ')) == fields
  {
    hide Join, Text.Fields, Expand, Lower, TrimSpace;
    var s := Join(fields, ' ');
    JoinOfPlain(fields);
    PlainTextIsKept(s);
    PredefinedBeginWithAt(s);
    FieldsOfJoin(fields);
  }

  lemma WordIsNoAlias(s: string)
    requires IsWord(s)
    ensures s[0] != '@'
  {}

  /** Every cronspec that can be written in the documented notation is
      parsed if and only if all its values, ranges and steps are valid. */
  lemma WrittenSpecParses(s: Cronspec, durationOf: string -> Option<int>)
    requires s.IsComplete()
    ensures var r := ParseSpec(Join(s.Fields(), ' '), durationOf);
            && (r.Ok? <==> s.IsValid())
            && (r.Ok? ==> ParseTables(s.Fields()).Ok? && r.value == Cron(ParseTables(s.Fields()).value))
  {
    hide ParseTable, FieldsOf, Join, WriteList, IsWord, AllValid;
    var fields := s.Fields();
    ListIsPlain(s.minutes);
    WordIsNoAlias(fields[0]);
    ListIsPlain(s.hours);
    ListIsPlain(s.daysOfMonth);
    ListIsPlain(s.months);
    ListIsPlain(s.daysOfWeek);
    FieldsOfWritten(fields);
    ListParses(s.minutes, Minutes);
    ListParses(s.hours, Hours);
    ListParses(s.daysOfMonth, DaysOfMonth);
    ListParses(s.months, Months);
    ListParses(s.daysOfWeek, DaysOfWeek);
  }

  lemma AllMeansEverything(items: seq<Item>, f: Field, v: int)
    requires items == [All] && f.First() <= v <= f.Last()
    ensures AllValid(items, f) && AnyMeans(items, f, v)
  {
    assert Means(items[0], f, v);
  }

  /** ...and then its schedule matches exactly the times that it means. */
  lemma WrittenSpecMatches(s: Cronspec, w: int)
    requires s.IsComplete() && s.IsValid() && ParseTables(s.Fields()).Ok?
    ensures Matches(ParseTables(s.Fields()).value, w) <==> s.Means(w)
  {
    hide ParseTable, DateOf, DayOf, HourOf, MinuteOf, Weekday, WriteList, AllValid, AnyMeans;
    DateOfIsReal(DayOf(w));
    ListParses(s.minutes, Minutes);
    ListParses(s.hours, Hours);
    ListParses(s.daysOfMonth, DaysOfMonth);
    ListParses(s.months, Months);
    ListParses(s.daysOfWeek, DaysOfWeek);
    ListIsPlain(s.daysOfMonth);
    ListIsPlain(s.daysOfWeek);
    if s.daysOfMonth == [All] {
      AllMeansEverything(s.daysOfMonth, DaysOfMonth, DateOf(DayOf(w)).day);
    }
    if s.daysOfWeek == [All] {
      AllMeansEverything(s.daysOfWeek, DaysOfWeek, Weekday(DayOf(w)));
    }
  }

  // ---- The parser accepts nothing else.

  lemma NameIsWritten(name: string, f: Field) returns (r: Ref)
    requires name in f.Names()
    ensures WriteRef(r) == name && IsValue(f, r)
  {
    var i: nat := f.Names()[name] - f.First();
    r := if f.Months? then Month(i) else Day(i);
  }

  lemma ValueIsWritten(text: string, f: Field) returns (r: Ref)
    requires ParseValue(text, f).Ok?
    ensures WriteRef(r) == text && IsValue(f, r)
  {
    if text in f.Names() {
      r := NameIsWritten(text, f);
    } else {
      AtoiOfNumeral(text);
      hide Atoi, IsNumeral, Field.Names, NumeralValue;
      r := Number(text);
    }
  }

  lemma BeginningIsFirst(r: Ref)
    requires '-' !in WriteRef(r)
    ensures IsFirst(r)
  {}

  lemma RangeIsWritten(text: string, f: Field) returns (a: Ref, b: Ref)
    requires var (before, after, found) := Cut(text, '-'); found && ParseValue(before, f).Ok? && ParseValue(after, f).Ok?
    ensures text == WriteRef(a) + "-" + WriteRef(b) && IsFirst(a) && IsValue(f, a) && IsValue(f, b)
  {
    var (before, after, found) := Cut(text, '-');
    CutParts(text, '-');
    hide Cut, ParseValue, IsValue, WriteRef, IsFirst;
    a := ValueIsWritten(before, f);
    b := ValueIsWritten(after, f);
    BeginningIsFirst(a);
  }

  /** Every accepted part of a list is one of the notations. */
  lemma ItemIsWritten(text: string, f: Field) returns (item: Item)
    requires ParseSpan(text, f).Ok?
    ensures Write(item) == text && Valid(item, f)
  {
    var (before, after, hasStep) := Cut(text, '/');
    CutParts(text, '/');
    AtoiOfNumeral(after);
    hide Cut, ParseValue, Atoi, IsNumeral, IsValue, WriteRef, IsFirst, NumeralValue;
    if before == "*" {
      item := if hasStep then AllEvery(after) else All;
      assert "*" + "/" + after == "*/" + after;
    } else {
      var (first, second, isRange) := Cut(before, '-');
      if isRange {
        var a, b := RangeIsWritten(before, f);
        item := if hasStep then RangeEvery(a, b, after) else Range(a, b);
      } else {
        CutParts(before, '-');
        var r := ValueIsWritten(before, f);
        BeginningIsFirst(r);
        item := One(r);
      }
      ItemParses(item, f);
    }
  }

  lemma {:induction false} ItemsAreWritten(parts: seq<string>, f: Field) returns (items: seq<Item>)
    requires FirstError(parts, f) == None
    ensures WriteAll(items) == parts && AllValid(items, f)
  {
    hide ParseSpan, Write, Valid;
    if parts == [] {
      items := [];
    } else {
      var item := ItemIsWritten(parts[0], f);
      var rest := ItemsAreWritten(parts[1..], f);
      items := [item] + rest;
      assert WriteAll(items) == [parts[0]] + WriteAll(rest);
    }
  }

  lemma ListIsWritten(text: string, f: Field) returns (items: seq<Item>)
    requires ParseTable(text, f).Ok?
    ensures items != [] && AllValid(items, f) && WriteList(items) == text
  {
    items := ItemsAreWritten(Split(text, ','), f);
    hide FirstError, AllValid;
    JoinOfSplit(text, ',');
  }

  /** The fields of a cronspec are accepted if and only if they can be written in the documented notation. */
  lemma AcceptedIffWritten(fields: seq<string>)
    requires |fields| == 5
    ensures ParseTables(fields).Ok? <==>
            exists s: Cronspec :: s.IsComplete() && s.IsValid() && s.Fields() == fields
  {
    hide ParseTable, WriteList, AllValid;
    if ParseTables(fields).Ok? {
      var minutes := ListIsWritten(fields[0], Minutes);
      var hours := ListIsWritten(fields[1], Hours);
      var daysOfMonth := ListIsWritten(fields[2], DaysOfMonth);
      var months := ListIsWritten(fields[3], Months);
      var daysOfWeek := ListIsWritten(fields[4], DaysOfWeek);
      var s := Cronspec(minutes, hours, daysOfMonth, months, daysOfWeek);
      assert s.IsComplete() && s.IsValid() && s.Fields() == fields;
    }
    if s: Cronspec :| s.IsComplete() && s.IsValid() && s.Fields() == fields {
      ListParses(s.minutes, Minutes);
      ListParses(s.hours, Hours);
      ListParses(s.daysOfMonth, DaysOfMonth);
      ListParses(s.months, Months);
      ListParses(s.daysOfWeek, DaysOfWeek);
    }
  }

  // ---- From the text to the time.

  /** For a cronspec in the documented notation, and a zone with an offset in whole minutes, `Next` finds the first
      minute after the given time at which the zone's clocks show what the cronspec means, or nothing if there's no such
      time. */
  lemma NextOfWritten(s: Cronspec, after: int, offset: int)
    requires s.IsComplete() && s.IsValid() && ParseTables(s.Fields()).Ok? && IsWholeMinutes(offset)
    ensures var r := NextUtc(ParseTables(s.Fields()).value, after, offset);
      && (r.Some? ==>
            var wall := r.value + offset;
            && after + offset < wall && wall % MINUTE == 0 && s.Means(wall)
            && forall w {:trigger s.Means(w)} :: after + offset < w < wall && w % MINUTE == 0 ==> !s.Means(w))
      && (r == None <==> forall w :: !s.Means(w))
  {
    var t := ParseTables(s.Fields()).value;
    hide ParseTables, NextUtc, Matches, DateMatches, IsParsed, Cronspec.Fields, Cronspec.Means, Cronspec.IsValid;
    ParsedTablesAreUsable(s.Fields());
    NextUtcIsNext(t, after, offset);
    forall w
      ensures s.Means(w) <==> Matches(t, w)
    {
      WrittenSpecMatches(s, w);
    }
    NoDatesIffNoTimes(t);
  }

  lemma DateOfMatch(t: Schedulable, w: int)
    requires Matches(t, w)
    ensures DateMatches(t, DayOf(w))
  {
    hide MonthMatches, DayMatches, DayOf, HourOf, MinuteOf;
  }

  lemma MatchOnDate(t: Schedulable, day: int) returns (w: int)
    requires IsParsed(t) && DateMatches(t, day)
    ensures Matches(t, w)
  {
    hide DateMatches, Matches;
    var h :| 0 <= h < 24 && t.hours[h];
    var m :| 0 <= m < 60 && t.minutes[m];
    MatchAt(t, day, h, m);
    w := DAY * day + HOUR * h + MINUTE * m;
  }

  lemma NoDatesIffNoTimes(t: Schedulable)
    requires IsParsed(t)
    ensures (forall day :: !DateMatches(t, day)) <==> forall w :: !Matches(t, w)
  {
    hide DateMatches, Matches, IsParsed, DayOf;
    if w :| Matches(t, w) {
      DateOfMatch(t, w);
    }
    if day :| DateMatches(t, day) {
      var w := MatchOnDate(t, day);
    }
  }

  predicate IsUpperOf(a: char, b: char) {
    'A' <= a <= 'Z' && a as int + 32 == b as int
  }

  predicate IsSameText(a: string, b: string) {
    |a| == |b| && forall i :: 0 <= i < |a| ==> a[i] == b[i] || IsUpperOf(a[i], b[i]) || IsUpperOf(b[i], a[i])
  }

  /** Neither the case of letters, nor white space before and after a cronspec, makes a difference. */
  lemma CaseAndSpacesDontMatter(before: string, text: string, text': string, after: string)
    requires forall c :: c in before || c in after ==> IsSpace(c)
    requires IsSameText(text, text')
    ensures FieldsOf(before + text' + after) == FieldsOf(text)
  {
    assert Lower(text) == Lower(text');
    hide Text.Fields, Expand, Lower, TrimSpace;
    TrimAround(before, text', after);
    TrimOfLower(text);
    TrimOfLower(text');
  }

  // ---- Predefined schedules.

  const ALIASES: set<string> :=
    {"@minutely", "@hourly", "@daily", "@midnight", "@weekly", "@monthly", "@yearly", "@annually"}

  /** The documented meaning of a predefined schedule, at a given wall-clock time. */
  predicate IsTime(text: string, w: int) {
    DateOfIsReal(DayOf(w));
    var d := DateOf(DayOf(w));
    var newHour := MinuteOf(w) == 0;
    var midnight := newHour && HourOf(w) == 0;
    match text
    case "@minutely" => true
    case "@hourly" => newHour
    case "@daily" => midnight
    case "@midnight" => midnight
    case "@weekly" => midnight && Weekday(DayOf(w)) == 0
    case "@monthly" => midnight && d.day == 1
    case "@yearly" => midnight && d.day == 1 && d.month == 1
    case "@annually" => midnight && d.day == 1 && d.month == 1
    case _ => false
  }

  function Exactly(n: Numeral): seq<Item> {
    [One(Number(n))]
  }

  /** The five fields of a predefined schedule have one character each. */
  function PredefinedValues(text: string): (v: string)
    ensures |v| == 5 && forall i :: 0 <= i < 5 ==> v[i] == '*' || v[i] == '0' || v[i] == '1'
  {
    match text
    case "@minutely" => "*****"
    case "@hourly" => "0****"
    case "@weekly" => "00**0"
    case "@monthly" => "001**"
    case "@yearly" => "0011*"
    case "@annually" => "0011*"
    case _ => "00***"
  }

  function ItemsOf(c: char): seq<Item> {
    if c == '*' then [All] else Exactly(if c == '1' then "1" else "0")
  }

  function Predefined(text: string): Cronspec {
    var v := PredefinedValues(text);
    Cronspec(ItemsOf(v[0]), ItemsOf(v[1]), ItemsOf(v[2]), ItemsOf(v[3]), ItemsOf(v[4]))
  }

  lemma NumeralsAreNumbers()
    ensures NumeralValue("0") == 0 && NumeralValue("1") == 1
  {
    assert "0"[..0] == "" && "1"[..0] == "";
  }

  lemma ExactlyMeans(n: Numeral, f: Field, v: int)
    requires NumeralValue(n) == 0 || NumeralValue(n) == 1
    requires f.First() <= NumeralValue(n) && n[0] != '-' && 1 <= f.Last() && !(f.DaysOfWeek? && NumeralValue(n) == 7)
    ensures AllValid(Exactly(n), f) && (AnyMeans(Exactly(n), f, v) <==> v == NumeralValue(n))
    ensures WriteList(Exactly(n)) == n
  {
    hide NumeralValue;
    assert Valid(Exactly(n)[0], f) && (Means(Exactly(n)[0], f, v) <==> v == NumeralValue(n));
    assert WriteAll(Exactly(n)) == [n];
  }

  lemma ItemsMean(c: char, f: Field, v: int)
    requires c == '*' || c == '1' || (c == '0' && f.First() == 0)
    requires f.First() <= v <= f.Last()
    ensures AllValid(ItemsOf(c), f) && ItemsOf(c) != [] && (ItemsOf(c) == [All] <==> c == '*')
    ensures AnyMeans(ItemsOf(c), f, v) <==> c == '*' || v == if c == '1' then 1 else 0
  {
    NumeralsAreNumbers();
    if c == '*' {
      assert Means([All][0], f, v);
    } else {
      ExactlyMeans(if c == '1' then "1" else "0", f, v);
    }
    hide NumeralValue, AnyMeans, AllValid;
  }

  lemma PredefinedMeans(text: string, w: int)
    requires text in ALIASES
    ensures var s := Predefined(text); s.IsComplete() && s.IsValid() && (s.Means(w) <==> IsTime(text, w))
  {
    DateOfIsReal(DayOf(w));
    var d, v := DateOf(DayOf(w)), PredefinedValues(text);
    hide DateOf, DayOf, HourOf, MinuteOf, Weekday, ItemsOf, AllValid, AnyMeans;
    ItemsMean(v[0], Minutes, MinuteOf(w));
    ItemsMean(v[1], Hours, HourOf(w));
    ItemsMean(v[2], DaysOfMonth, d.day);
    ItemsMean(v[3], Months, d.month);
    ItemsMean(v[4], DaysOfWeek, Weekday(DayOf(w)));
  }

  function PredefinedFields(text: string): (fields: seq<string>)
    ensures |fields| == 5 && forall i :: 0 <= i < 5 ==> fields[i] != [] && NoSpaces(fields[i])
  {
    var v := PredefinedValues(text);
    [[v[0]], [v[1]], [v[2]], [v[3]], [v[4]]]
  }

  lemma JoinFive(a: char, b: char, c: char, d: char, e: char)
    ensures Join([[a], [b], [c], [d], [e]], ' ') == [a, ' ', b, ' ', c, ' ', d, ' ', e]
  {
    assert [[a], [b], [c], [d], [e]][1..] == [[b], [c], [d], [e]] && [[b], [c], [d], [e]][1..] == [[c], [d], [e]];
    assert [[c], [d], [e]][1..] == [[d], [e]] && [[d], [e]][1..] == [[e]];
    assert Join([[d], [e]], ' ') == [d, ' ', e];
    assert Join([[c], [d], [e]], ' ') == [c, ' ', d, ' ', e];
    assert Join([[b], [c], [d], [e]], ' ') == [b, ' ', c, ' ', d, ' ', e];
  }

  lemma ItemsAreOneChar(c: char)
    requires c == '*' || c == '0' || c == '1'
    ensures ItemsOf(c) != [] && WriteList(ItemsOf(c)) == [c]
  {
    assert WriteAll(ItemsOf(c)) == [[c]];
  }

  lemma PredefinedIsWritten(text: string)
    ensures Predefined(text).IsComplete() && Predefined(text).Fields() == PredefinedFields(text)
  {
    var v := PredefinedValues(text);
    hide WriteList, PredefinedValues, ItemsOf;
    ItemsAreOneChar(v[0]);
    ItemsAreOneChar(v[1]);
    ItemsAreOneChar(v[2]);
    ItemsAreOneChar(v[3]);
    ItemsAreOneChar(v[4]);
  }

  lemma PredefinedIsJoined(text: string)
    requires text in ALIASES
    ensures text in PREDEFINED && PREDEFINED[text] == Join(PredefinedFields(text), ' ')
  {
    hide Join;
    var v := PredefinedValues(text);
    JoinFive(v[0], v[1], v[2], v[3], v[4]);
  }

  lemma PredefinedIsPlain(text: string)
    requires text in ALIASES
    ensures Lower(TrimSpace(text)) == text
  {
    hide Lower, TrimSpace;
    PlainTextIsKept(text);
  }

  lemma FieldsOfPredefined(text: string)
    requires text in ALIASES
    ensures FieldsOf(text) == PredefinedFields(text)
  {
    hide Join, Text.Fields, TrimSpace, Lower, PredefinedFields;
    PredefinedIsPlain(text);
    PredefinedIsJoined(text);
    assert Expand(text) == Join(PredefinedFields(text), ' ');
    FieldsOfJoin(PredefinedFields(text));
  }

  /** A predefined schedule matches exactly the times that it's documented to mean. */
  lemma PredefinedMatches(text: string, durationOf: string -> Option<int>, w: int)
    requires text in ALIASES
    ensures var r := ParseSpec(text, durationOf);
      r.Ok? && r.value.Cron? && (Matches(r.value.table, w) <==> IsTime(text, w))
  {
    hide ParseTables, FieldsOf, Predefined, IsTime, Matches, Cronspec.Fields, Cronspec.Means, Cronspec.IsValid;
    PredefinedMeans(text, w);
    PredefinedIsWritten(text);
    FieldsOfPredefined(text);
    WrittenFieldsParse(Predefined(text));
    WrittenSpecMatches(Predefined(text), w);
  }

  lemma WrittenFieldsParse(s: Cronspec)
    requires s.IsComplete() && s.IsValid()
    ensures ParseTables(s.Fields()).Ok?
  {
    hide ParseTable, WriteList, AllValid;
    ListParses(s.minutes, Minutes);
    ListParses(s.hours, Hours);
    ListParses(s.daysOfMonth, DaysOfMonth);
    ListParses(s.months, Months);
    ListParses(s.daysOfWeek, DaysOfWeek);
  }

  /** Schedules that run only once, and those with an interval of at least a second, in whole seconds. */
  lemma OtherSchedules(text: string, durationOf: string -> Option<int>)
    ensures var r, fields := ParseSpec(text, durationOf), FieldsOf(text);
      && (r.Ok? && r.value.Once? <==> fields == ["@reboot"] || fields == ["@startup"] || fields == ["@once"])
      && (|fields| > 1 && fields[0] == "@every" ==>
            var d := durationOf(ConcatAll(fields[1..]));
            && (r.Ok? <==> d.Some? && d.value >= SECOND)
            && (r.Ok? ==> r.value.Every? && IsTruncated(r.value.interval, d.value)))
      && (r.Ok? && r.value.Every? ==> |fields| > 1 && fields[0] == "@every")
  {
    hide FieldsOf, ConcatAll, ParseTables;
  }
}

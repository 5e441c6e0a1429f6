/** Parsing a cronspec into the tables of a schedule. */
module CronParse {
  import opened CronNext
  import opened CronTimes
  import opened Durations
  import opened Text
  import opened Wrappers

  datatype Error =
    | InvalidStep(text: string)
    | InvalidValue(text: string)
    | OutOfRange(value: int)
    | SingleValueWithStep
    | InvertedRange(from: int, to: int)
    | WrongFieldCount(n: nat)
    | InvalidInterval

  const DAY_NAMES: map<string, int> :=
    map["sun" := 0, "mon" := 1, "tue" := 2, "wed" := 3, "thu" := 4, "fri" := 5, "sat" := 6]

  const MONTH_NAMES: map<string, int> :=
    map["jan" := 1, "feb" := 2, "mar" := 3, "apr" := 4, "may" := 5, "jun" := 6,
        "jul" := 7, "aug" := 8, "sep" := 9, "oct" := 10, "nov" := 11, "dec" := 12]

  /** The fields of a cronspec, the sizes of their tables (where index 0 may be unused), and their names. */
  datatype Field = Minutes | Hours | DaysOfMonth | Months | DaysOfWeek
  {
    function Size(): int {
      match this
      case Minutes => 60
      case Hours => 24
      case DaysOfMonth => 32
      case Months => 13
      case DaysOfWeek => 7
    }

    function First(): int { if DaysOfMonth? || Months? then 1 else 0 }

    function Last(): int { Size() - 1 }

    function Names(): map<string, int> {
      if Months? then MONTH_NAMES else if DaysOfWeek? then DAY_NAMES else map[]
    }
  }

  function ParseValue(input: string, f: Field): Result<int, Error> {
    if input in f.Names() then Ok(f.Names()[input])
    else
      var parsed := Atoi(input);
      if parsed == None then Err(InvalidValue(input))
      else
        var v := if f.First() == 0 && f.Last() == 6 && parsed.value == 7 then 0 else parsed.value;
        if v < f.First() || v > f.Last() then Err(OutOfRange(v)) else Ok(v)
  }

  /** The values from, from + step, from + 2 * step, ... up to the given end. */
  datatype Span = Span(from: int, to: int, step: int)
  {
    predicate Has(i: int)
      requires step > 0
    {
      from <= i <= to && (i - from) % step == 0
    }

    predicate IsIn(f: Field) {
      && f.First() <= from <= to && from <= f.Last() && 0 < step
      && (to <= f.Last() || (f.DaysOfWeek? && 0 < from && to == 7))
    }

    /** Whether the value v of a table is selected. Only day 7 of a week wraps around. */
    predicate Selects(f: Field, v: int)
      requires step > 0
    {
      Has(v) || Has(v + f.Size())
    }
  }

  function ParseStep(text: string, f: Field): Result<int, Error> {
    var step := Atoi(text);
    if step == None || step.value <= 0 || step.value > f.Last() then Err(InvalidStep(text)) else Ok(step.value)
  }

  function ParseRange(text: string, hasStep: bool, f: Field): Result<(int, int), Error> {
    if text == "*" then Ok((f.First(), f.Last()))
    else
      var (before, after, isRange) := Cut(text, '-');
      var from := ParseValue(before, f);
      if from.Err? then Err(from.error)
      else if isRange then
        var to := ParseValue(after, f);
        if to.Err? then Err(to.error) else Ok((from.value, to.value))
      else if hasStep then Err(SingleValueWithStep)
      else Ok((from.value, from.value))
  }

  function ParseSpan(text: string, f: Field): Result<Span, Error> {
    var (before, after, hasStep) := Cut(text, '/');
    var step := if hasStep then ParseStep(after, f) else Ok(1);
    if step.Err? then Err(step.error)
    else
      var range := ParseRange(before, hasStep, f);
      if range.Err? then Err(range.error)
      else
        var (from, to) := range.value;
        var toSunday := from > 0 && to == 0 && f.DaysOfWeek?;
        if from > to && !toSunday then Err(InvertedRange(from, to))
        else Ok(Span(from, if toSunday then 7 else to, step.value))
  }

  lemma NamesAreInRange(f: Field, name: string)
    requires name in f.Names()
    ensures f.First() <= f.Names()[name] <= f.Last()
  {}

  lemma ParsedSpanIsIn(text: string, f: Field)
    ensures ParseSpan(text, f).Ok? ==> ParseSpan(text, f).value.IsIn(f)
  {
    hide Atoi, Cut;
    var range := Cut(Cut(text, '/').0, '-');
    if range.0 in f.Names() {
      NamesAreInRange(f, range.0);
    }
    if range.1 in f.Names() {
      NamesAreInRange(f, range.1);
    }
  }

  predicate PartSelects(text: string, f: Field, v: int) {
    var span := ParseSpan(text, f);
    span.Ok? && span.value.step > 0 && span.value.Selects(f, v)
  }

  /** Sets the elements of the table that the text selects, and changes nothing if the text is invalid. */
  method ParsePart(text: string, output: array<bool>, f: Field) returns (error: Option<Error>)
    requires output.Length == f.Size()
    modifies output
    ensures error == (if ParseSpan(text, f).Ok? then None else Some(ParseSpan(text, f).error))
    ensures error.Some? ==> output[..] == old(output[..])
    ensures error == None ==>
              forall v :: 0 <= v < f.Size() ==> (output[v] <==> old(output[v]) || PartSelects(text, f, v))
  {
    hide Atoi, Cut;
    ParsedSpanIsIn(text, f);
    ghost var span := ParseSpan(text, f);
    var input := text;
    var from, to := f.First(), output.Length - 1;
    var step := 1;
    var (before, after, hasStep) := Cut(input, '/');
    if hasStep {
      var n := Atoi(after);
      if n == None || n.value <= 0 || n.value > to {
        return Some(InvalidStep(after));
      }
      step := n.value;
      input := before;
    }
    if input != "*" {
      var (first, second, isRange) := Cut(input, '-');
      var value := ParseValue(first, f);
      if value.Err? {
        return Some(value.error);
      }
      from := value.value;
      if isRange {
        value := ParseValue(second, f);
        if value.Err? {
          return Some(value.error);
        }
        to := value.value;
      } else if hasStep {
        return Some(SingleValueWithStep);
      } else {
        to := from;
      }
    }
    var toSunday := from > 0 && to == 0 && f.DaysOfWeek?;
    if from > to && !toSunday {
      return Some(InvertedRange(from, to));
    }
    if toSunday {
      to := 7;
    }
    assert span == Ok(Span(from, to, step));
    SetSpan(Span(from, to, step), output, f);
    return None;
  }

  method SetSpan(span: Span, output: array<bool>, f: Field)
    requires output.Length == f.Size() && span.IsIn(f)
    modifies output
    ensures forall v :: 0 <= v < f.Size() ==> (output[v] <==> old(output[v]) || span.Selects(f, v))
  {
    hide SelectedBefore, Span.Has, Span.Selects, Span.IsIn, Field.Size;
    SelectedAtEnds(span, f);
    StepIsPositive(span, f);
    var i := span.from;
    while i <= span.to
      invariant span.from <= i && (i - span.from) % span.step == 0
      invariant forall v {:trigger output[v]} :: 0 <= v < f.Size() ==>
                  (output[v] <==> old(output[v]) || SelectedBefore(span, f, v, i))
      decreases span.to - i
    {
      var at := i % output.Length;
      Position(span, f, i);
      HasNext(span, i);
      SelectNext(span, f, i, at, i + span.step);
      output[at] := true;
      i := i + span.step;
    }
  }

  lemma StepIsPositive(span: Span, f: Field)
    requires span.IsIn(f)
    ensures span.step > 0 && 0 <= span.from && f.Size() > 0 && span.from <= span.to
  {}

  lemma Position(span: Span, f: Field, i: int)
    requires span.IsIn(f) && span.from <= i <= span.to
    ensures i % f.Size() == if i < f.Size() then i else i - f.Size()
  {}

  predicate SelectedBefore(span: Span, f: Field, v: int, i: int)
    requires span.step > 0
  {
    (v < i && span.Has(v)) || (v + f.Size() < i && span.Has(v + f.Size()))
  }

  lemma HasNext(span: Span, i: int)
    requires span.step > 0 && span.from <= i <= span.to && (i - span.from) % span.step == 0
    ensures span.Has(i)
  {}

  lemma SelectedAtEnds(span: Span, f: Field)
    requires span.IsIn(f)
    ensures forall v :: 0 <= v < f.Size() ==> !SelectedBefore(span, f, v, span.from)
    ensures forall v, i :: 0 <= v < f.Size() && i > span.to ==>
              (SelectedBefore(span, f, v, i) <==> span.Selects(f, v))
  {}

  lemma SelectNext(span: Span, f: Field, i: int, at: int, end: int)
    requires span.IsIn(f) && span.Has(i) && end == i + span.step
    requires at == if i < f.Size() then i else i - f.Size()
    ensures (end - span.from) % span.step == 0
    ensures forall v :: 0 <= v < f.Size() ==>
              (SelectedBefore(span, f, v, end) <==> SelectedBefore(span, f, v, i) || v == at)
  {
    assert 0 <= i < 2 * f.Size();
    StepForward(span, i);
    hide Span.Has, Span.IsIn, Field.Size;
    forall v | 0 <= v < f.Size()
      ensures SelectedBefore(span, f, v, end) <==> SelectedBefore(span, f, v, i) || v == at
    {
      var w := v + f.Size();
      assert v != i && i <= v < end ==> !span.Has(v);
      assert w != i && i <= w < end ==> !span.Has(w);
    }
  }

  lemma Multiples(n: int, k: int)
    requires n > 0
    ensures k >= 1 ==> n * k >= n
    ensures k <= -1 ==> n * k <= -n
  {}

  lemma ModOfSum(x: int, n: int, d: int)
    requires n > 0 && x % n == 0 && 0 <= d < n
    ensures (x + d) % n == d && (x + n) % n == 0
  {
    assert x == n * (x / n);
    assert n * ((x + d) / n - x / n) == d - (x + d) % n;
    Multiples(n, (x + d) / n - x / n);
    assert n * ((x + n) / n - x / n - 1) == -((x + n) % n);
    Multiples(n, (x + n) / n - x / n - 1);
  }

  lemma StepForward(span: Span, i: int)
    requires span.step > 0 && span.from <= i && (i - span.from) % span.step == 0
    ensures (i + span.step - span.from) % span.step == 0
    ensures forall j {:trigger span.Has(j)} :: i < j < i + span.step ==> !span.Has(j)
  {
    ModOfSum(i - span.from, span.step, 0);
    forall j | i < j < i + span.step
      ensures !span.Has(j)
    {
      ModOfSum(i - span.from, span.step, j - i);
      assert i - span.from + (j - i) == j - span.from;
    }
  }

  predicate AnySelects(parts: seq<string>, f: Field, v: int) {
    exists j :: 0 <= j < |parts| && PartSelects(parts[j], f, v)
  }

  function FirstError(parts: seq<string>, f: Field): Option<Error> {
    if parts == [] then None
    else if ParseSpan(parts[0], f).Err? then Some(ParseSpan(parts[0], f).error)
    else FirstError(parts[1..], f)
  }

  /** The table of a field: a value is selected if any part of the list selects it. */
  function ParseTable(text: string, f: Field): (r: Result<seq<bool>, Error>)
    ensures r.Ok? ==> |r.value| == f.Size()
  {
    var parts := Split(text, ',');
    var error := FirstError(parts, f);
    if error.Some? then Err(error.value) else Ok(seq(f.Size(), v => AnySelects(parts, f, v)))
  }

  method ParseField(text: string, output: array<bool>, f: Field) returns (error: Option<Error>)
    requires output.Length == f.Size() && forall v :: 0 <= v < f.Size() ==> !output[v]
    modifies output
    ensures ParseTable(text, f) == if error == None then Ok(output[..]) else Err(error.value)
  {
    hide ParseSpan;
    var parts := Split(text, ',');
    var i := 0;
    while i < |parts|
      invariant 0 <= i <= |parts|
      invariant FirstError(parts, f) == FirstError(parts[i..], f)
      invariant forall v :: 0 <= v < f.Size() ==> (output[v] <==> AnySelects(parts[..i], f, v))
    {
      error := ParsePart(parts[i], output, f);
      if error.Some? {
        return;
      }
      forall v
        ensures AnySelects(parts[..i + 1], f, v) <==> AnySelects(parts[..i], f, v) || PartSelects(parts[i], f, v)
      {
        AnySelectsMore(parts, i, f, v);
      }
      assert parts[i..][1..] == parts[i + 1..];
      i := i + 1;
    }
    assert parts[..i] == parts && parts[i..] == [];
    error := None;
    assert forall v :: 0 <= v < f.Size() ==> ParseTable(text, f).value[v] == AnySelects(parts, f, v);
    assert output[..] == ParseTable(text, f).value;
  }

  lemma AnySelectsMore(parts: seq<string>, i: nat, f: Field, v: int)
    requires i < |parts|
    ensures AnySelects(parts[..i + 1], f, v) <==> AnySelects(parts[..i], f, v) || PartSelects(parts[i], f, v)
  {
    hide PartSelects;
    var more := parts[..i + 1];
    assert forall j :: 0 <= j < i ==> more[j] == parts[..i][j];
    if PartSelects(parts[i], f, v) {
      assert more[i] == parts[i];
    }
    if j :| 0 <= j < |more| && PartSelects(more[j], f, v) {
      assert j == i || PartSelects(parts[..i][j], f, v);
    }
  }

  const PREDEFINED: map<string, string> :=
    map["@minutely" := "* * * * *",
        "@hourly" := "0 * * * *",
        "@daily" := "0 0 * * *",
        "@midnight" := "0 0 * * *",
        "@weekly" := "0 0 * * 0",
        "@monthly" := "0 0 1 * *",
        "@yearly" := "0 0 1 1 *",
        "@annually" := "0 0 1 1 *"]

  function Expand(spec: string): string {
    if spec in PREDEFINED then PREDEFINED[spec] else spec
  }

  datatype Parsed = Once | Every(interval: int) | Cron(table: Schedulable)

  function ConcatAll(parts: seq<string>): string {
    if parts == [] then "" else parts[0] + ConcatAll(parts[1..])
  }

  function ParseTables(fields: seq<string>): Result<Schedulable, Error>
    requires |fields| == 5
  {
    var minutes := ParseTable(fields[0], Minutes);
    if minutes.Err? then Err(minutes.error) else
    var hours := ParseTable(fields[1], Hours);
    if hours.Err? then Err(hours.error) else
    var dom := ParseTable(fields[2], DaysOfMonth);
    if dom.Err? then Err(dom.error) else
    var months := ParseTable(fields[3], Months);
    if months.Err? then Err(months.error) else
    var dow := ParseTable(fields[4], DaysOfWeek);
    if dow.Err? then Err(dow.error) else
    Ok(Table(minutes.value, hours.value, dom.value, months.value, dow.value, fields[2] != "*", fields[4] != "*"))
  }

  /** The fields of a cronspec, in lower case, after the replacement of predefined schedules. */
  function FieldsOf(text: string): seq<string> {
    Fields(Expand(Lower(TrimSpace(text))))
  }

  function ParseSpec(text: string, durationOf: string -> Option<int>): Result<Parsed, Error> {
    var fields := FieldsOf(text);
    if |fields| == 1 && fields[0] in ["@reboot", "@startup", "@once"] then Ok(Once)
    else if |fields| > 1 && fields[0] == "@every" then
      var d := durationOf(ConcatAll(fields[1..]));
      if d == None || d.value < SECOND then Err(InvalidInterval) else Ok(Every(d.value - d.value % SECOND))
    else if |fields| != 5 then Err(WrongFieldCount(|fields|))
    else
      var tables := ParseTables(fields);
      if tables.Err? then Err(tables.error) else Ok(Cron(tables.value))
  }

  ghost predicate Represents(s: Schedule, p: Parsed, zone: Option<int>)
    reads s
  {
    match p
    case Once => s.oneTime && s.oneTimeLeft && s.interval == 0 && s.offset == None
    case Every(d) => !s.oneTime && !s.oneTimeLeft && s.interval == d && s.offset == None
    case Cron(t) => !s.oneTime && !s.oneTimeLeft && s.interval == 0 && s.table == t &&
                    s.offset == Some(if zone == None then 0 else zone.value)
  }

  /** Durations are parsed by the given function, and a missing zone is UTC. */
  method Parse(text: string, durationOf: string -> Option<int>, zone: Option<int>)
      returns (r: Result<Schedule, Error>)
    ensures r.Err? <==> ParseSpec(text, durationOf).Err?
    ensures r.Err? ==> r.error == ParseSpec(text, durationOf).error
    ensures r.Ok? ==> fresh(r.value) && Represents(r.value, ParseSpec(text, durationOf).value, zone)
    ensures r.Ok? && r.value.offset.Some? ==> r.value.offset == if zone.Some? then zone else Some(0)
  {
    hide ParseTable, FieldsOf;
    var fields := FieldsOf(text);
    if |fields| == 1 && fields[0] in ["@reboot", "@startup", "@once"] {
      var s := new Schedule(true, 0, NoTable(), None);
      return Ok(s);
    } else if |fields| > 1 && fields[0] == "@every" {
      var d := durationOf(ConcatAll(fields[1..]));
      if d == None || d.value < SECOND {
        return Err(InvalidInterval);
      }
      var s := new Schedule(false, d.value - d.value % SECOND, NoTable(), None);
      return Ok(s);
    } else if |fields| != 5 {
      return Err(WrongFieldCount(|fields|));
    }
    var tables := ParseFields(fields);
    if tables.Err? {
      return Err(tables.error);
    }
    var offset := Some(if zone == None then 0 else zone.value);
    var s := new Schedule(false, 0, tables.value, offset);
    return Ok(s);
  }

  method ParseFields(fields: seq<string>) returns (r: Result<Schedulable, Error>)
    requires |fields| == 5
    ensures r == ParseTables(fields)
  {
    hide ParseTable;
    var minutes := new bool[60](_ => false);
    var error := ParseField(fields[0], minutes, Minutes);
    if error.Some? {
      return Err(error.value);
    }
    var hours := new bool[24](_ => false);
    error := ParseField(fields[1], hours, Hours);
    if error.Some? {
      return Err(error.value);
    }
    var daysOfMonth := new bool[32](_ => false);
    error := ParseField(fields[2], daysOfMonth, DaysOfMonth);
    if error.Some? {
      return Err(error.value);
    }
    var months := new bool[13](_ => false);
    error := ParseField(fields[3], months, Months);
    if error.Some? {
      return Err(error.value);
    }
    var daysOfWeek := new bool[7](_ => false);
    error := ParseField(fields[4], daysOfWeek, DaysOfWeek);
    if error.Some? {
      return Err(error.value);
    }
    return Ok(Table(minutes[..], hours[..], daysOfMonth[..], months[..], daysOfWeek[..],
                    fields[2] != "*", fields[4] != "*"));
  }

  function NoTable(): Schedulable {
    Table(seq(60, _ => false), seq(24, _ => false), seq(32, _ => false), seq(13, _ => false), seq(7, _ => false),
          false, false)
  }
}

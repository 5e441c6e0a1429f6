/** The few functions on strings that the parsers need, with the meaning they have in Go. */
module Text {
  import opened Wrappers

  predicate IsDigit(c: char) {
    '0' <= c <= '9'
  }

  predicate AllDigits(s: string) {
    forall i :: 0 <= i < |s| ==> IsDigit(s[i])
  }

  function DigitValue(c: char): (d: nat)
    requires IsDigit(c)
    ensures d < 10
  {
    c as int - '0' as int
  }

  function Digit(d: nat): (c: char)
    requires d < 10
    ensures IsDigit(c) && DigitValue(c) == d
  {
    '0' + d as char
  }

  function DecimalValue(s: string): nat
    requires AllDigits(s)
  {
    if s == [] then 0 else 10 * DecimalValue(s[..|s| - 1]) + DigitValue(s[|s| - 1])
  }

  const MAX_INT: int := 0x7fff_ffff_ffff_ffff

  /** `strconv.Atoi`: an optional sign and decimal digits, within the range of a 64-bit integer. */
  function Atoi(s: string): Option<int> {
    var signed := s != [] && (s[0] == '-' || s[0] == '+');
    var digits := if signed then s[1..] else s;
    if digits == [] || !AllDigits(digits) then None
    else
      var v: int := DecimalValue(digits);
      if signed && s[0] == '-' then (if v <= MAX_INT + 1 then Some(-v) else None)
      else if v <= MAX_INT then Some(v) else None
  }

  /** `strconv.Itoa`, of non-negative numbers. */
  function Itoa(n: nat): (s: string)
    ensures s != [] && AllDigits(s) && (s[0] == '0' <==> n == 0)
  {
    if n < 10 then [Digit(n)] else Itoa(n / 10) + [Digit(n % 10)]
  }

  lemma {:induction false} DecimalValueOfItoa(n: nat)
    ensures DecimalValue(Itoa(n)) == n
  {
    if n >= 10 {
      var s := Itoa(n);
      assert s[..|s| - 1] == Itoa(n / 10);
      DecimalValueOfItoa(n / 10);
    }
  }

  /** The first position of c in s, or the length of s. */
  function Find(s: string, c: char): (i: nat)
    ensures i <= |s| && c !in s[..i] && (i < |s| ==> s[i] == c)
  {
    if s == [] || s[0] == c then 0
    else
      var i := Find(s[1..], c);
      assert s[..i + 1] == [s[0]] + s[1..][..i];
      i + 1
  }

  /** `strings.Cut`, around the first c. */
  function Cut(s: string, c: char): (r: (string, string, bool))
    ensures !r.2 ==> r.0 == s
  {
    var i := Find(s, c);
    if i == |s| then (s, "", false) else (s[..i], s[i + 1..], true)
  }

  lemma {:induction false} FindAtFirst(a: string, c: char, b: string)
    requires c !in a
    ensures Find(a + [c] + b, c) == |a|
  {
    if a == [] {
      assert (a + [c] + b)[0] == c;
    } else {
      assert (a + [c] + b)[1..] == a[1..] + [c] + b;
      FindAtFirst(a[1..], c, b);
    }
  }

  lemma CutAtFirst(a: string, c: char, b: string)
    requires c !in a
    ensures Cut(a + [c] + b, c) == (a, b, true)
  {
    var s := a + [c] + b;
    FindAtFirst(a, c, b);
    assert s[..|a|] == a && s[|a| + 1..] == b;
  }

  lemma CutMissing(s: string, c: char)
    requires c !in s
    ensures Cut(s, c) == (s, "", false)
  {}

  lemma CutParts(s: string, c: char)
    ensures var (before, after, found) := Cut(s, c);
      c !in before && s == if found then before + [c] + after else before
  {}

  /** `strings.Split`. */
  function Split(s: string, c: char): (parts: seq<string>)
    ensures parts != []
    decreases |s|
  {
    var i := Find(s, c);
    if i == |s| then [s] else [s[..i]] + Split(s[i + 1..], c)
  }

  function Join(parts: seq<string>, c: char): string
    requires parts != []
  {
    if |parts| == 1 then parts[0] else parts[0] + [c] + Join(parts[1..], c)
  }

  lemma {:induction false} SplitOfJoin(parts: seq<string>, c: char)
    requires parts != [] && forall i :: 0 <= i < |parts| ==> c !in parts[i]
    ensures Split(Join(parts, c), c) == parts
  {
    if |parts| == 1 {
      CutMissing(parts[0], c);
    } else {
      var rest := Join(parts[1..], c);
      CutAtFirst(parts[0], c, rest);
      SplitOfJoin(parts[1..], c);
      var s := parts[0] + [c] + rest;
      assert s == Join(parts, c);
      assert Split(s, c) == [parts[0]] + Split(rest, c);
    }
  }

  lemma JoinFirst(part: string, rest: seq<string>, c: char)
    requires rest != []
    ensures Join([part] + rest, c) == part + [c] + Join(rest, c)
  {}

  lemma {:induction false} JoinOfSplit(s: string, c: char)
    ensures Join(Split(s, c), c) == s
    decreases |s|
  {
    hide Join;
    var i := Find(s, c);
    if i < |s| {
      var rest := Split(s[i + 1..], c);
      JoinOfSplit(s[i + 1..], c);
      JoinFirst(s[..i], rest, c);
      assert s == s[..i] + [c] + s[i + 1..];
    } else {
      JoinOne(s, c);
    }
  }

  lemma JoinOne(part: string, c: char)
    ensures Join([part], c) == part
  {}

  predicate IsSpace(c: char) {
    c == ' ' || c == '\t' || c == '\n' || c == '\r' || c as int == 11 || c as int == 12
  }

  predicate NoSpaces(s: string) {
    forall i :: 0 <= i < |s| ==> !IsSpace(s[i])
  }

  /** The length of the prefix of s without spaces. */
  function WordLength(s: string): (n: nat)
    ensures n <= |s| && NoSpaces(s[..n]) && (n < |s| ==> IsSpace(s[n]))
  {
    if s == [] || IsSpace(s[0]) then 0
    else
      var n := WordLength(s[1..]);
      assert s[..n + 1] == [s[0]] + s[1..][..n];
      n + 1
  }

  lemma {:induction false} WordLengthAt(w: string, rest: string)
    requires NoSpaces(w) && (rest != [] ==> IsSpace(rest[0]))
    ensures WordLength(w + rest) == |w|
  {
    if w != [] {
      assert (w + rest)[1..] == w[1..] + rest;
      WordLengthAt(w[1..], rest);
    } else {
      assert w + rest == rest;
    }
  }

  /** `strings.Fields`. */
  function Fields(s: string): seq<string>
    decreases |s|
  {
    if s == [] then []
    else if IsSpace(s[0]) then Fields(s[1..])
    else var n := WordLength(s); [s[..n]] + Fields(s[n..])
  }

  lemma {:induction false} FieldsOfJoin(words: seq<string>)
    requires words != [] && forall i :: 0 <= i < |words| ==> words[i] != [] && NoSpaces(words[i])
    ensures Fields(Join(words, ' ')) == words
  {
    var w := words[0];
    if |words| == 1 {
      WordLengthAt(w, []);
      assert w + [] == w && w[..|w|] == w && w[|w|..] == [];
    } else {
      var rest := Join(words[1..], ' ');
      var s := w + [' '] + rest;
      assert s == Join(words, ' ');
      WordLengthAt(w, [' '] + rest);
      assert s == w + ([' '] + rest);
      var n := |w|;
      assert s[..n] == w && s[n..] == [' '] + rest;
      assert s[n..][1..] == rest;
      FieldsOfJoin(words[1..]);
      assert Fields(s) == [w] + Fields(rest);
    }
  }

  function LowerChar(c: char): char {
    if 'A' <= c <= 'Z' then c + ('a' - 'A') else c
  }

  function Lower(s: string): string {
    seq(|s|, i requires 0 <= i < |s| => LowerChar(s[i]))
  }

  /** `strings.TrimSpace`. */
  function TrimSpace(s: string): string
    decreases |s|
  {
    if s != [] && IsSpace(s[0]) then TrimSpace(s[1..])
    else if s != [] && IsSpace(s[|s| - 1]) then TrimSpace(s[..|s| - 1])
    else s
  }

  /** Any white space separates fields, however much of it there is. */
  lemma {:induction false} FieldsAtSpace(a: string, c: char, b: string)
    requires c in " \t\n\r"
    ensures Fields(a + [c] + b) == Fields(a) + Fields(b)
    decreases |a|
  {
    var s := a + [c] + b;
    if a == [] {
      assert s[1..] == b;
    } else if IsSpace(a[0]) {
      assert s[1..] == a[1..] + [c] + b;
      FieldsAtSpace(a[1..], c, b);
    } else {
      var n := WordLength(a);
      var rest := a[n..] + [c] + b;
      assert s == a[..n] + rest && a == a[..n] + a[n..];
      WordLengthAt(a[..n], rest);
      assert s[..n] == a[..n] && s[n..] == rest;
      FieldsAtSpace(a[n..], c, b);
      hide Fields, WordLength;
      assert [a[..n]] + (Fields(a[n..]) + Fields(b)) == ([a[..n]] + Fields(a[n..])) + Fields(b);
      FieldsFrom(s);
      FieldsFrom(a);
    }
  }

  lemma FieldsFrom(s: string)
    requires s != [] && !IsSpace(s[0])
    ensures WordLength(s) > 0 && Fields(s) == [s[..WordLength(s)]] + Fields(s[WordLength(s)..])
  {}

  lemma {:induction false} TrimOfLower(s: string)
    ensures Lower(TrimSpace(Lower(s))) == Lower(TrimSpace(s))
    decreases |s|
  {
    assert forall c :: IsSpace(LowerChar(c)) <==> IsSpace(c);
    if s != [] && IsSpace(s[0]) {
      assert Lower(s)[1..] == Lower(s[1..]);
      TrimOfLower(s[1..]);
    } else if s != [] && IsSpace(s[|s| - 1]) {
      assert Lower(s)[..|s| - 1] == Lower(s[..|s| - 1]);
      TrimOfLower(s[..|s| - 1]);
    } else {
      assert Lower(Lower(s)) == Lower(s);
    }
  }

  lemma {:induction false} TrimAround(before: string, s: string, after: string)
    requires forall c :: c in before || c in after ==> IsSpace(c)
    ensures TrimSpace(before + s + after) == TrimSpace(s)
    decreases |before| + |s| + |after|
  {
    var t := before + s + after;
    if before != [] {
      assert t[1..] == before[1..] + s + after;
      TrimAround(before[1..], s, after);
    } else if s != [] && IsSpace(s[0]) {
      assert t[1..] == [] + s[1..] + after;
      TrimAround([], s[1..], after);
    } else if after != [] {
      var n := |after| - 1;
      assert t[..|t| - 1] == [] + s + after[..n];
      TrimAround([], s, after[..n]);
      if t[1..] != [] || s == [] {
        TrimFromEnd(t);
      }
    } else {
      assert t == s;
    }
  }

  lemma TrimFromEnd(t: string)
    requires t != [] && IsSpace(t[|t| - 1])
    ensures TrimSpace(t) == TrimSpace(t[..|t| - 1])
    decreases |t|
  {
    if IsSpace(t[0]) && |t| > 1 {
      TrimFromEnd(t[1..]);
      assert t[1..][..|t| - 2] == t[..|t| - 1][1..];
    } else if |t| == 1 {
      assert t[1..] == t[..0] == [];
    }
  }
}

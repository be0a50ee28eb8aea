/** The length-prefixed text that audit hashes are computed over, and a parser that undoes it. */
module Canonical {
  import opened Options

  const ENTRY_PREFIX := "audit-chain-entry-v1"
  const LINK_PREFIX := "audit-chain-link-v1"

  // ---- Decimal numbers ----

  function Digit(d: nat): char
    requires d < 10
  {
    "0123456789"[d]
  }

  predicate IsDigit(c: char) { '0' <= c <= '9' }

  function DigitValue(c: char): nat
    requires IsDigit(c)
  {
    c as int - '0' as int
  }

  function Decimal(n: nat): string {
    if n < 10 then [Digit(n)] else Decimal(n / 10) + [Digit(n % 10)]
  }

  /** `str(n)` for an integer. */
  function IntText(n: int): string {
    if n < 0 then "-" + Decimal(-n) else Decimal(n)
  }

  predicate AllDigits(s: string) {
    forall i :: 0 <= i < |s| ==> IsDigit(s[i])
  }

  function Value(s: string): nat
    requires AllDigits(s)
  {
    if s == [] then 0 else Value(s[..|s| - 1]) * 10 + DigitValue(s[|s| - 1])
  }

  lemma DigitRoundTrip(d: nat)
    requires d < 10
    ensures IsDigit(Digit(d)) && DigitValue(Digit(d)) == d
  {
  }

  lemma {:induction false} DecimalRoundTrip(n: nat)
    ensures Decimal(n) != [] && AllDigits(Decimal(n)) && Value(Decimal(n)) == n
  {
    if n < 10 {
      DigitRoundTrip(n);
      assert [Digit(n)][..0] == [];
    } else {
      DecimalRoundTrip(n / 10);
      DigitRoundTrip(n % 10);
      var s := Decimal(n / 10) + [Digit(n % 10)];
      assert s[..|s| - 1] == Decimal(n / 10);
    }
  }

  lemma IntTextInjective(a: int, b: int)
    requires IntText(a) == IntText(b)
    ensures a == b
  {
    DecimalRoundTrip(if a < 0 then -a else a);
    DecimalRoundTrip(if b < 0 then -b else b);
    assert a < 0 ==> IntText(a)[0] == '-' && IntText(a)[1..] == Decimal(-a);
    assert b < 0 ==> IntText(b)[0] == '-' && IntText(b)[1..] == Decimal(-b);
  }

  // ---- One field ----

  /** A value as its length, a colon and the value; a missing value as the length -1. */
  function Field(v: Option<string>): string {
    match v
    case None => "-1:"
    case Some(s) => Decimal(|s|) + ":" + s
  }

  function ColonAt(s: string): nat {
    if s == [] || s[0] == ':' then 0 else 1 + ColonAt(s[1..])
  }

  lemma {:induction false} ColonAtInRange(s: string)
    ensures ColonAt(s) <= |s|
  {
    if s != [] && s[0] != ':' {
      ColonAtInRange(s[1..]);
    }
  }

  lemma {:induction false} ColonAfter(front: string, rest: string)
    requires forall i :: 0 <= i < |front| ==> front[i] != ':'
    ensures ColonAt(front + ":" + rest) == |front|
  {
    var s := front + ":" + rest;
    if front == [] {
      assert s[0] == ':';
    } else {
      assert s[0] == front[0];
      assert s[1..] == front[1..] + ":" + rest;
      ColonAfter(front[1..], rest);
    }
  }

  /** Reads one field off the front of a text. */
  function ParseField(s: string): Option<(Option<string>, string)> {
    ColonAtInRange(s);
    var k := ColonAt(s);
    if k == |s| then None
    else
      var length, rest := s[..k], s[k + 1..];
      if length == "-1" then Some((None, rest))
      else if AllDigits(length) && Value(length) <= |rest| then
        Some((Some(rest[..Value(length)]), rest[Value(length)..]))
      else None
  }

  /** Reading a field returns exactly the value written and exactly what follows it, whatever
      characters the value holds. */
  lemma FieldRoundTrip(v: Option<string>, rest: string)
    ensures ParseField(Field(v) + rest) == Some((v, rest))
  {
    match v
    case None =>
      ColonAfter("-1", rest);
      assert Field(v) + rest == "-1" + ":" + rest;
    case Some(s) => ValueRoundTrip(s, rest);
  }

  lemma ValueRoundTrip(s: string, rest: string)
    ensures ParseField(Field(Some(s)) + rest) == Some((Some(s), rest))
  {
    var length := Decimal(|s|);
    var text := length + ":" + (s + rest);
    assert Field(Some(s)) + rest == text;
    DecimalRoundTrip(|s|);
    ColonAfter(length, s + rest);
    assert text[..|length|] == length;
    assert text[|length| + 1..] == s + rest;
    assert (s + rest)[..|s|] == s && (s + rest)[|s|..] == rest;
    assert length[0] != '-';
  }

  // ---- A whole text ----

  /** `"\n".join(parts)`. */
  function Join(parts: seq<string>): string {
    if parts == [] then ""
    else if |parts| == 1 then parts[0]
    else parts[0] + "\n" + Join(parts[1..])
  }

  function Fields(values: seq<Option<string>>): seq<string> {
    seq(|values|, i requires 0 <= i < |values| => Field(values[i]))
  }

  function Text(prefix: string, values: seq<Option<string>>): string {
    Join([prefix] + Fields(values))
  }

  /** The same text without the prefix: every field on a line of its own. */
  function Lines(values: seq<Option<string>>): string {
    if values == [] then "" else "\n" + Field(values[0]) + Lines(values[1..])
  }

  /** Every part on a line of its own. */
  function OnLines(parts: seq<string>): string {
    if parts == [] then "" else "\n" + parts[0] + OnLines(parts[1..])
  }

  lemma {:induction false} JoinIsOnLines(first: string, parts: seq<string>)
    ensures Join([first] + parts) == first + OnLines(parts)
    decreases |parts|
  {
    if parts != [] {
      JoinIsOnLines(parts[0], parts[1..]);
      assert parts == [parts[0]] + parts[1..];
      assert ([first] + parts)[1..] == parts;
      assert first + "\n" + (parts[0] + OnLines(parts[1..])) == first + ("\n" + parts[0] + OnLines(parts[1..]));
    }
  }

  lemma {:induction false} FieldsOnLines(values: seq<Option<string>>)
    ensures OnLines(Fields(values)) == Lines(values)
  {
    if values != [] {
      FieldsOnLines(values[1..]);
      assert Fields(values)[1..] == Fields(values[1..]);
    }
  }

  lemma TextIsLines(prefix: string, values: seq<Option<string>>)
    ensures Text(prefix, values) == prefix + Lines(values)
  {
    JoinIsOnLines(prefix, Fields(values));
    FieldsOnLines(values);
  }

  function ParseLines(s: string): Option<seq<Option<string>>>
    decreases |s|
  {
    if s == [] then Some([])
    else if s[0] != '\n' then None
    else
      match ParseField(s[1..])
      case None => None
      case Some((v, rest)) =>
        if |rest| >= |s| then None
        else
          match ParseLines(rest)
          case None => None
          case Some(vs) => Some([v] + vs)
  }

  lemma ParseLine(field: string, rest: string, v: Option<string>, vs: seq<Option<string>>)
    requires ParseField(field + rest) == Some((v, rest))
    requires ParseLines(rest) == Some(vs)
    ensures ParseLines("\n" + field + rest) == Some([v] + vs)
  {
    var s := "\n" + field + rest;
    assert s[1..] == field + rest;
  }

  lemma {:induction false} LinesRoundTrip(values: seq<Option<string>>)
    ensures ParseLines(Lines(values)) == Some(values)
  {
    if values != [] {
      LinesRoundTrip(values[1..]);
      FieldRoundTrip(values[0], Lines(values[1..]));
      ParseLine(Field(values[0]), Lines(values[1..]), values[0], values[1..]);
      assert [values[0]] + values[1..] == values;
    }
  }

  /** The rendering is injective: equal texts under one prefix come from equal tuples. */
  lemma TextInjective(prefix: string, a: seq<Option<string>>, b: seq<Option<string>>)
    requires Text(prefix, a) == Text(prefix, b)
    ensures a == b
  {
    TextIsLines(prefix, a);
    TextIsLines(prefix, b);
    assert (prefix + Lines(a))[|prefix|..] == Lines(a);
    assert (prefix + Lines(b))[|prefix|..] == Lines(b);
    LinesRoundTrip(a);
    LinesRoundTrip(b);
  }

  /** No entry text is ever a link text, so an entry hash cannot be passed off as a link hash. */
  lemma EntryTextIsNotLinkText(a: seq<Option<string>>, b: seq<Option<string>>)
    ensures Text(ENTRY_PREFIX, a) != Text(LINK_PREFIX, b)
  {
    TextIsLines(ENTRY_PREFIX, a);
    TextIsLines(LINK_PREFIX, b);
    assert Text(ENTRY_PREFIX, a)[12] == 'e';
    assert Text(LINK_PREFIX, b)[12] == 'l';
  }
}

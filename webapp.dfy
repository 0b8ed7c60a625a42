/** The elapsed-time text shown by the web front end. */
module WebApp {
  import opened Wrappers
  import opened Text

  const SecondsPerDay: int := 86400
  const SecondsPerHour: int := 3600
  const SecondsPerMinute: int := 60

  /**
   * Successive floor divisions into days, hours, minutes and seconds (Python's
   * `divmod` by a positive divisor floors, as Dafny's `/` and `%` do). The
   * parts add up to the total, and all but the days are in range.
   */
  function Decompose(totalSeconds: int): (r: (int, int, int, int))
    ensures totalSeconds == r.0 * SecondsPerDay + r.1 * SecondsPerHour + r.2 * SecondsPerMinute + r.3
    ensures 0 <= r.1 < 24 && 0 <= r.2 < 60 && 0 <= r.3 < 60
    ensures totalSeconds >= 0 ==> r.0 >= 0
  {
    var dayRest := totalSeconds % SecondsPerDay;
    var hourRest := dayRest % SecondsPerHour;
    (totalSeconds / SecondsPerDay, dayRest / SecondsPerHour, hourRest / SecondsPerMinute, hourRest % SecondsPerMinute)
  }

  /** One amount of one unit of time. */
  datatype Part = Part(amount: int, unit: string)

  /** `plural`: the amount and the unit, with an "s" when the amount exceeds one. */
  function Plural(amount: int, unit: string): string {
    IntToString(amount) + " " + UnitWord(amount, unit)
  }

  function UnitWord(amount: int, unit: string): string {
    if amount > 1 then unit + "s" else unit
  }

  function Render(p: Part): string {
    Plural(p.amount, p.unit)
  }

  function RenderAll(parts: seq<Part>): (r: seq<string>)
    ensures |r| == |parts| && forall i :: 0 <= i < |parts| ==> r[i] == Render(parts[i])
  {
    seq(|parts|, i requires 0 <= i < |parts| => Render(parts[i]))
  }

  /** A part for an amount that is not zero, and none for zero. */
  function PartIf(amount: int, unit: string): (r: seq<Part>)
    ensures amount == 0 <==> r == []
  {
    if amount != 0 then [Part(amount, unit)] else []
  }

  /** The parts `format_timedelta` writes, days first, zero amounts left out. */
  function Parts(d: (int, int, int, int)): seq<Part> {
    PartIf(d.0, "day") + PartIf(d.1, "hour") + PartIf(d.2, "minute") + PartIf(d.3, "second")
  }

  /** Rendering one more part, or none for a zero amount, extends the rendered list by it. */
  lemma RenderPartIf(before: seq<Part>, amount: int, unit: string)
    ensures RenderAll(before + PartIf(amount, unit))
      == RenderAll(before) + (if amount != 0 then [Plural(amount, unit)] else [])
  {
    if amount == 0 {
      assert before + PartIf(amount, unit) == before;
    }
  }

  /** `format_timedelta` on the whole number of seconds of the interval. */
  method FormatTimedelta(totalSeconds: int) returns (r: string)
    ensures r == Join(" ", RenderAll(Parts(Decompose(totalSeconds))))
  {
    var parts: seq<string> := [];
    ghost var written: seq<Part> := [];
    var days := totalSeconds / SecondsPerDay;
    var remainder := totalSeconds % SecondsPerDay;
    var hours := remainder / SecondsPerHour;
    remainder := remainder % SecondsPerHour;
    var minutes := remainder / SecondsPerMinute;
    var seconds := remainder % SecondsPerMinute;
    assert (days, hours, minutes, seconds) == Decompose(totalSeconds);
    assert parts == RenderAll(written);
    RenderPartIf(written, days, "day");
    if days != 0 {
      parts := parts + [Plural(days, "day")];
    }
    written := written + PartIf(days, "day");
    assert parts == RenderAll(written);
    RenderPartIf(written, hours, "hour");
    if hours != 0 {
      parts := parts + [Plural(hours, "hour")];
    }
    written := written + PartIf(hours, "hour");
    assert parts == RenderAll(written);
    RenderPartIf(written, minutes, "minute");
    if minutes != 0 {
      parts := parts + [Plural(minutes, "minute")];
    }
    written := written + PartIf(minutes, "minute");
    assert parts == RenderAll(written);
    RenderPartIf(written, seconds, "second");
    if seconds != 0 {
      parts := parts + [Plural(seconds, "second")];
    }
    written := written + PartIf(seconds, "second");
    assert parts == RenderAll(written);
    assert written == Parts((days, hours, minutes, seconds));
    r := Join(" ", parts);
  }

  /** The seconds a unit word stands for, singular or plural. */
  function UnitSeconds(word: string): Option<int> {
    if word == "day" || word == "days" then Some(SecondsPerDay)
    else if word == "hour" || word == "hours" then Some(SecondsPerHour)
    else if word == "minute" || word == "minutes" then Some(SecondsPerMinute)
    else if word == "second" || word == "seconds" then Some(1)
    else None
  }

  /** The seconds the parts stand for. */
  function Value(parts: seq<Part>): int {
    if parts == [] then 0 else parts[0].amount * UnitSeconds(parts[0].unit).GetOr(0) + Value(parts[1..])
  }

  lemma {:induction false} ValueAppend(a: seq<Part>, b: seq<Part>)
    ensures Value(a + b) == Value(a) + Value(b)
  {
    if a == [] {
      assert a + b == b;
    } else {
      assert (a + b)[1..] == a[1..] + b;
      ValueAppend(a[1..], b);
    }
  }

  /** Whatever the sign of the interval, the parts stand for exactly its seconds. */
  lemma PartsValue(totalSeconds: int)
    ensures Value(Parts(Decompose(totalSeconds))) == totalSeconds
  {
    var d := Decompose(totalSeconds);
    var a, b, c, e := PartIf(d.0, "day"), PartIf(d.1, "hour"), PartIf(d.2, "minute"), PartIf(d.3, "second");
    assert UnitSeconds("day") == Some(86400) && UnitSeconds("hour") == Some(3600);
    assert UnitSeconds("minute") == Some(60) && UnitSeconds("second") == Some(1);
    assert Value(a) == d.0 * 86400;
    assert Value(b) == d.1 * 3600;
    assert Value(c) == d.2 * 60;
    assert Value(e) == d.3;
    ValueAppend(a, b);
    ValueAppend(a + b, c);
    ValueAppend(a + b + c, e);
  }

  function ReadPair(amount: string, word: string): Option<int> {
    if amount != [] && AllDigits(amount) && UnitSeconds(word).Some? then
      Some(ParseNat(amount) * UnitSeconds(word).value)
    else None
  }

  /** Reads a list of words as amount-unit pairs and adds them up. */
  function ReadTokens(tokens: seq<string>): Option<int> {
    if tokens == [] then Some(0)
    else if |tokens| < 2 then None
    else
      match (ReadPair(tokens[0], tokens[1]), ReadTokens(tokens[2..]))
      case (Some(x), Some(y)) => Some(x + y)
      case _ => None
  }

  /** Reads an elapsed-time text back as a number of seconds. */
  function ReadDuration(text: string): Option<int> {
    if text == [] then Some(0) else ReadTokens(SplitOn(text, ' '))
  }

  /** A part splits into its digits and its unit word. */
  lemma PartTokens(amount: nat, word: string)
    requires ' ' !in word
    ensures SplitOn(NatToString(amount) + " " + word, ' ') == [NatToString(amount), word]
  {
    DigitsHaveNoSpace(amount);
    assert NatToString(amount) + " " + word == NatToString(amount) + [' '] + word;
    SplitOnAppend(NatToString(amount), ' ', word);
    SplitOnAbsent(NatToString(amount), ' ');
    SplitOnAbsent(word, ' ');
  }

  /** A part with a positive amount of one of the four units. */
  predicate ReadablePart(p: Part) {
    p.amount > 0 && (p.unit == "day" || p.unit == "hour" || p.unit == "minute" || p.unit == "second")
  }

  predicate Readable(parts: seq<Part>) {
    forall i :: 0 <= i < |parts| ==> ReadablePart(parts[i])
  }

  lemma UnitWordReads(amount: int, unit: string)
    requires unit == "day" || unit == "hour" || unit == "minute" || unit == "second"
    ensures ' ' !in UnitWord(amount, unit)
    ensures UnitSeconds(UnitWord(amount, unit)) == UnitSeconds(unit) && UnitSeconds(unit).Some?
  {
  }

  /** A part for a positive amount splits into its two words. */
  lemma PartSplits(p: Part)
    requires ReadablePart(p)
    ensures SplitOn(Render(p), ' ') == [NatToString(p.amount), UnitWord(p.amount, p.unit)]
  {
    UnitWordReads(p.amount, p.unit);
    PartTokens(p.amount, UnitWord(p.amount, p.unit));
  }

  /** The two words of a part for a positive amount read back as that many units. */
  lemma PartReads(p: Part)
    requires ReadablePart(p)
    ensures ReadPair(NatToString(p.amount), UnitWord(p.amount, p.unit)) == Some(p.amount * UnitSeconds(p.unit).GetOr(0))
  {
    UnitWordReads(p.amount, p.unit);
    ParseNatToString(p.amount);
  }

  lemma ReadTokensPair(x: string, y: string, rest: seq<string>, a: int, b: int)
    requires ReadPair(x, y) == Some(a) && ReadTokens(rest) == Some(b)
    ensures ReadTokens([x, y] + rest) == Some(a + b)
  {
    assert ([x, y] + rest)[2..] == rest;
  }

  /** The first part, then the rest. */
  lemma RenderTail(parts: seq<Part>)
    requires parts != []
    ensures RenderAll(parts) == [Render(parts[0])] + RenderAll(parts[1..])
  {
    var l, tail := RenderAll(parts), RenderAll(parts[1..]);
    var r := [Render(parts[0])] + tail;
    assert |l| == |r|;
    forall i | 0 <= i < |l| ensures l[i] == r[i] {
      if i > 0 {
        assert r[i] == tail[i - 1] == Render(parts[1..][i - 1]);
        assert parts[1..][i - 1] == parts[i];
      }
    }
    assert l == r;
  }

  /** The words of the joined text are the first part's two words, then the words of the rest. */
  lemma JoinedTokens(parts: seq<Part>)
    requires |parts| >= 2 && ReadablePart(parts[0])
    ensures SplitOn(Join(" ", RenderAll(parts)), ' ')
            == [NatToString(parts[0].amount), UnitWord(parts[0].amount, parts[0].unit)] + SplitOn(Join(" ", RenderAll(parts[1..])), ' ')
  {
    var p := parts[0];
    PartSplits(p);
    RenderTail(parts);
    var rendered := RenderAll(parts);
    assert rendered[1..] == RenderAll(parts[1..]);
    assert Join(" ", rendered) == Render(p) + [' '] + Join(" ", RenderAll(parts[1..]));
    SplitOnAppend(Render(p), ' ', Join(" ", RenderAll(parts[1..])));
  }

  lemma ReadableTail(parts: seq<Part>)
    requires parts != [] && Readable(parts)
    ensures ReadablePart(parts[0]) && Readable(parts[1..])
  {
    forall i | 0 <= i < |parts| - 1 ensures ReadablePart(parts[1..][i]) {
      assert parts[1..][i] == parts[i + 1];
    }
  }

  /** The words the rendered parts consist of: the digits and the unit word of each. */
  function Words(parts: seq<Part>): seq<string>
    requires Readable(parts)
  {
    if parts == [] then []
    else [NatToString(parts[0].amount), UnitWord(parts[0].amount, parts[0].unit)] + Words(parts[1..])
  }

  /** Splitting the joined text on spaces gives the words of the parts. */
  lemma {:induction false} SplitJoined(parts: seq<Part>)
    requires parts != [] && Readable(parts)
    ensures SplitOn(Join(" ", RenderAll(parts)), ' ') == Words(parts)
  {
    ReadableTail(parts);
    var p := parts[0];
    PartSplits(p);
    if |parts| == 1 {
      RenderTail(parts);
      assert Join(" ", RenderAll(parts)) == Render(p);
      assert Words(parts[1..]) == [];
    } else {
      SplitJoined(parts[1..]);
      JoinedTokens(parts);
    }
  }

  /** Reading the words pairwise gives the value of the parts. */
  lemma {:induction false} ReadWords(parts: seq<Part>)
    requires Readable(parts)
    ensures ReadTokens(Words(parts)) == Some(Value(parts))
  {
    if parts != [] {
      ReadableTail(parts);
      var p := parts[0];
      PartReads(p);
      ReadWords(parts[1..]);
      assert Words(parts) == [NatToString(p.amount), UnitWord(p.amount, p.unit)] + Words(parts[1..]);
      assert Value(parts) == p.amount * UnitSeconds(p.unit).GetOr(0) + Value(parts[1..]);
      ReadTokensPair(NatToString(p.amount), UnitWord(p.amount, p.unit), Words(parts[1..]),
                     p.amount * UnitSeconds(p.unit).GetOr(0), Value(parts[1..]));
    }
  }

  /** Joining the rendered parts with spaces and reading the words back pairwise gives their value. */
  lemma ReadJoined(parts: seq<Part>)
    requires parts != [] && Readable(parts)
    ensures ReadTokens(SplitOn(Join(" ", RenderAll(parts)), ' ')) == Some(Value(parts))
  {
    SplitJoined(parts);
    ReadWords(parts);
  }

  lemma FormatReadsBack(totalSeconds: nat)
    ensures ReadDuration(Join(" ", RenderAll(Parts(Decompose(totalSeconds))))) == Some(totalSeconds)
  {
    var parts := Parts(Decompose(totalSeconds));
    PartsValue(totalSeconds);
    if parts == [] {
      assert Value(parts) == 0;
    } else {
      assert Readable(parts);
      JoinNonEmpty(" ", RenderAll(parts));
      ReadJoined(parts);
    }
  }

  /** The text is empty exactly for an interval of under one second. */
  lemma EmptyIffZero(totalSeconds: int)
    ensures Join(" ", RenderAll(Parts(Decompose(totalSeconds)))) == [] <==> totalSeconds == 0
  {
    var parts := Parts(Decompose(totalSeconds));
    PartsValue(totalSeconds);
    if parts != [] {
      JoinNonEmpty(" ", RenderAll(parts));
    }
  }
}

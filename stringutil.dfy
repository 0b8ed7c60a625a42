/** Label clean-up and the integer branches of the size and time formatters. */
module StringUtil {
  import opened Wrappers
  import opened Text

  const EmDash: char := '\U{2014}'
  const EnDash: char := '\U{2013}'

  function DashToHyphen(c: char): char {
    if c == EmDash || c == EnDash then '-' else c
  }

  function TranslateDashes(s: string): (r: string)
    ensures |r| == |s| && forall i :: 0 <= i < |s| ==> r[i] == DashToHyphen(s[i])
  {
    if s == [] then [] else [DashToHyphen(s[0])] + TranslateDashes(s[1..])
  }

  /**
   * `unicodeDashNormalization`: EM DASH and EN DASH become HYPHEN-MINUS and
   * surrounding whitespace is dropped.
   */
  function UnicodeDashNormalization(lbl: string): (r: string)
    ensures EmDash !in r && EnDash !in r
    ensures r == [] || (!IsSpace(r[0]) && !IsSpace(r[|r| - 1]))
  {
    var t := TranslateDashes(lbl);
    assert EmDash !in t && EnDash !in t by {
      forall i | 0 <= i < |t| ensures t[i] != EmDash && t[i] != EnDash {
        assert t[i] == DashToHyphen(lbl[i]);
      }
    }
    StripChars(t);
    Strip(t)
  }

  /** Normalising a normalised lbl changes nothing. */
  lemma DashNormalizationIdempotent(lbl: string)
    ensures UnicodeDashNormalization(UnicodeDashNormalization(lbl)) == UnicodeDashNormalization(lbl)
  {
    var r := UnicodeDashNormalization(lbl);
    assert TranslateDashes(r) == r;
    StripUnchanged(r);
  }

  /** The sixteen space separators (Unicode category Zs) other than SPACE itself. */
  const SpaceSeparators: seq<char> := [
    '\U{A0}', '\U{1680}', '\U{2000}', '\U{2001}', '\U{2002}', '\U{2003}', '\U{2004}', '\U{2005}',
    '\U{2006}', '\U{2007}', '\U{2008}', '\U{2009}', '\U{200A}', '\U{202F}', '\U{205F}', '\U{3000}'
  ]

  function SpaceChar(c: char): char {
    if c in SpaceSeparators then ' ' else c
  }

  /** `unicodeSpaceNormalize`: each listed space separator becomes a plain space. */
  function UnicodeSpaceNormalize(text: string): (r: string)
    ensures |r| == |text|
    ensures forall i :: 0 <= i < |text| && text[i] in SpaceSeparators ==> r[i] == ' '
    ensures forall i :: 0 <= i < |text| && text[i] !in SpaceSeparators ==> r[i] == text[i]
  {
    if text == [] then [] else [SpaceChar(text[0])] + UnicodeSpaceNormalize(text[1..])
  }

  /** The result holds no special space, so normalising twice is normalising once. */
  lemma SpaceNormalizeIdempotent(text: string)
    ensures forall c :: c in UnicodeSpaceNormalize(text) ==> c !in SpaceSeparators
    ensures UnicodeSpaceNormalize(UnicodeSpaceNormalize(text)) == UnicodeSpaceNormalize(text)
  {
    var r := UnicodeSpaceNormalize(text);
    assert ' ' !in SpaceSeparators;
    assert forall i :: 0 <= i < |r| ==> r[i] !in SpaceSeparators;
  }

  const KiB: nat := 1024
  const MiB: nat := 1048576
  const GiB: nat := 1073741824

  /**
   * `format_bytes`. The GiB branch formats a float and is not modelled: it
   * gives None.
   */
  function FormatBytes(n: int): (r: Option<string>)
    ensures r.None? <==> n >= GiB
  {
    if n < KiB then Some(IntToString(n) + " " + "B")
    else if n < MiB then Some(IntToString(n / KiB) + " " + "KiB")
    else if n < GiB then Some(IntToString(n / MiB) + " " + "MiB")
    else None
  }

  const US: nat := 1000
  const MS: nat := 1000000
  const S: nat := 1000000000

  /**
   * `format_time_ns`. The branches from one second up format a float and are
   * not modelled: they give None.
   */
  function FormatTimeNs(n: int): (r: Option<string>)
    ensures r.None? <==> n >= S
  {
    if n < US then Some(IntToString(n) + " " + "ns")
    else if n < MS then Some(IntToString(n / US) + " " + "\U{B5}s")
    else if n < S then Some(IntToString(n / MS) + " " + "ms")
    else None
  }

  /** Reads "<digits> <unit>" back as the amount and the size of the unit, given the known units. */
  function ReadAmount(s: string, units: seq<(string, nat)>): Option<(nat, nat)> {
    var num := BeforeFirst(s, ' ');
    if num == [] || |num| == |s| || !AllDigits(num) then None
    else
      match UnitScale(s[|num| + 1..], units)
      case None => None
      case Some(scale) => Some((ParseNat(num), scale))
  }

  function UnitScale(unit: string, units: seq<(string, nat)>): Option<nat> {
    if units == [] then None
    else if units[0].0 == unit then Some(units[0].1)
    else UnitScale(unit, units[1..])
  }

  const ByteUnits: seq<(string, nat)> := [("B", 1), ("KiB", KiB), ("MiB", MiB)]
  const TimeUnits: seq<(string, nat)> := [("ns", 1), ("\U{B5}s", US), ("ms", MS)]

  lemma ReadRendered(a: nat, unit: string, units: seq<(string, nat)>, scale: nat)
    requires UnitScale(unit, units) == Some(scale)
    ensures ReadAmount(NatToString(a) + " " + unit, units) == Some((a, scale))
  {
    var digits := NatToString(a);
    var s := digits + " " + unit;
    assert s == digits + [' '] + unit;
    BeforeFirstAt(digits, ' ', unit);
    assert s[|digits| + 1..] == unit;
    ParseNatToString(a);
  }

  lemma {:induction false} BeforeFirstAt(x: string, sep: char, y: string)
    requires sep !in x
    ensures BeforeFirst(x + [sep] + y, sep) == x
  {
    if x != [] {
      assert (x + [sep] + y)[1..] == x[1..] + [sep] + y;
      BeforeFirstAt(x[1..], sep, y);
    }
  }

  lemma UnitTables()
    ensures UnitScale("B", ByteUnits) == Some(1)
    ensures UnitScale("KiB", ByteUnits) == Some(KiB)
    ensures UnitScale("MiB", ByteUnits) == Some(MiB)
    ensures UnitScale("ns", TimeUnits) == Some(1)
    ensures UnitScale("\U{B5}s", TimeUnits) == Some(US)
    ensures UnitScale("ms", TimeUnits) == Some(MS)
  {
    assert ByteUnits[1..] == [("KiB", KiB), ("MiB", MiB)];
    assert ByteUnits[2..] == [("MiB", MiB)];
    assert TimeUnits[1..] == [("\U{B5}s", US), ("ms", MS)];
    assert TimeUnits[2..] == [("ms", MS)];
    assert "B" != "KiB" && "B" != "MiB" && "KiB" != "MiB";
    assert "ns" != "\U{B5}s" && "ns" != "ms" && "\U{B5}s" != "ms";
    assert ByteUnits[1..][1..] == ByteUnits[2..];
    assert TimeUnits[1..][1..] == TimeUnits[2..];
    assert UnitScale("MiB", ByteUnits[2..]) == Some(MiB);
    assert UnitScale("MiB", ByteUnits[1..]) == Some(MiB);
    assert UnitScale("ms", TimeUnits[2..]) == Some(MS);
    assert UnitScale("ms", TimeUnits[1..]) == Some(MS);
  }

  lemma DivBounds(n: nat, d: nat)
    requires d > 0
    ensures (n / d) * d <= n < (n / d + 1) * d
  {
    assert n == (n / d) * d + n % d;
  }

  lemma DivBelow(n: nat, d: nat, k: nat)
    requires d > 0 && n < k * d
    ensures n / d < k
  {
    DivBounds(n, d);
  }

  /** `s` reads back as an amount below `limit` of a unit that does not exceed `n`. */
  predicate ReadsBackAs(s: string, units: seq<(string, nat)>, n: nat, limit: nat) {
    match ReadAmount(s, units)
    case None => false
    case Some((amount, scale)) =>
      && amount * scale <= n < (amount + 1) * scale
      && amount < limit
      && (amount > 0 || scale == 1)
  }

  lemma {:induction false} ScaledReadsBack(n: nat, unit: string, units: seq<(string, nat)>, scale: nat, limit: nat)
    requires UnitScale(unit, units) == Some(scale)
    requires scale > 0 && n < limit * scale
    requires scale == 1 || n >= scale
    ensures ReadsBackAs(IntToString(n / scale) + " " + unit, units, n, limit)
  {
    DigitsHaveNoSpace(n / scale);
    ReadRendered(n / scale, unit, units, scale);
    DivBounds(n, scale);
    DivBelow(n, scale, limit);
  }

  /**
   * Below 1 GiB a non-negative size reads back as an amount below 1024 of the
   * largest unit that fits, rounded down: the unit amount times the unit size
   * is at most the size, and one more unit exceeds it.
   */
  lemma FormatBytesReadsBack(n: nat)
    requires n < GiB
    ensures FormatBytes(n).Some? && ReadsBackAs(FormatBytes(n).value, ByteUnits, n, 1024)
  {
    UnitTables();
    if n < KiB {
      assert n / 1 == n;
      ScaledReadsBack(n, "B", ByteUnits, 1, 1024);
    } else if n < MiB {
      ScaledReadsBack(n, "KiB", ByteUnits, KiB, 1024);
    } else {
      ScaledReadsBack(n, "MiB", ByteUnits, MiB, 1024);
    }
  }

  /** The same for nanoseconds below one second, in steps of 1000. */
  lemma FormatTimeNsReadsBack(n: nat)
    requires n < S
    ensures FormatTimeNs(n).Some? && ReadsBackAs(FormatTimeNs(n).value, TimeUnits, n, 1000)
  {
    UnitTables();
    if n < US {
      assert n / 1 == n;
      ScaledReadsBack(n, "ns", TimeUnits, 1, 1000);
    } else if n < MS {
      ScaledReadsBack(n, "\U{B5}s", TimeUnits, US, 1000);
    } else {
      ScaledReadsBack(n, "ms", TimeUnits, MS, 1000);
    }
  }
}

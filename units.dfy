/**
 * How the JSON processor settles the unit of a numeric fact: cleaning the
 * unit text, reading candidate unit ids out of it, and the priority chain
 * that picks a simple or a complex unit.
 */
module Units {
  import opened Wrappers
  import opened Text
  import opened QNames
  import opened Concepts
  import opened StringUtil
  import opened Utr
  import opened Labels

  // Cleaning unit text.

  /** The replacements one after another, in mapping order. */
  function ApplyReplacements(s: string, replacements: seq<(string, string)>): string
    decreases |replacements|
  {
    if replacements == [] then s
    else ApplyReplacements(Replace(s, replacements[0].0, replacements[0].1), replacements[1..])
  }

  /** `cleanUnitTextFromJson`. */
  method CleanUnitTextFromJson(unitText: string, replacements: seq<(string, string)>) returns (r: string)
    ensures r == ApplyReplacements(unitText, replacements)
    ensures replacements == [] ==> r == unitText
  {
    r := unitText;
    var i := 0;
    while i < |replacements|
      invariant 0 <= i <= |replacements|
      invariant ApplyReplacements(r, replacements[i..]) == ApplyReplacements(unitText, replacements)
    {
      assert replacements[i..][0] == replacements[i] && replacements[i..][1..] == replacements[i + 1..];
      var (original, replacement) := replacements[i];
      r := Replace(r, original, replacement);
      i := i + 1;
    }
  }

  /** Applying two mappings in turn is applying the first and then the second. */
  lemma {:induction false} ApplyReplacementsAppend(s: string, a: seq<(string, string)>, b: seq<(string, string)>)
    ensures ApplyReplacements(s, a + b) == ApplyReplacements(ApplyReplacements(s, a), b)
    decreases |a|
  {
    if a != [] {
      assert (a + b)[0] == a[0] && (a + b)[1..] == a[1..] + b;
      ApplyReplacementsAppend(Replace(s, a[0].0, a[0].1), a[1..], b);
    } else {
      assert a + b == b;
    }
  }

  /** Replacements whose texts do not occur change nothing. */
  lemma {:induction false} ApplyReplacementsAbsent(s: string, replacements: seq<(string, string)>)
    requires forall i :: 0 <= i < |replacements| ==> replacements[i].0 != [] && !Contains(s, replacements[i].0)
    ensures ApplyReplacements(s, replacements) == s
    decreases |replacements|
  {
    if replacements != [] {
      ReplaceAbsent(s, replacements[0].0, replacements[0].1);
      assert forall i :: 0 < i < |replacements| ==> replacements[i] == replacements[1..][i - 1];
      ApplyReplacementsAbsent(s, replacements[1..]);
    }
  }

  /** Replacing texts by themselves changes nothing. */
  lemma {:induction false} ApplyReplacementsSelf(s: string, replacements: seq<(string, string)>)
    requires forall i :: 0 <= i < |replacements| ==> replacements[i].0 != [] && replacements[i].1 == replacements[i].0
    ensures ApplyReplacements(s, replacements) == s
    decreases |replacements|
  {
    if replacements != [] {
      ReplaceSelf(s, replacements[0].0);
      assert forall i :: 0 < i < |replacements| ==> replacements[i] == replacements[1..][i - 1];
      ApplyReplacementsSelf(s, replacements[1..]);
    }
  }

  // Candidate unit ids.

  /** A `)` follows, with no line break before it (`.` does not match a line break). */
  predicate ClosesOnLine(s: string) {
    ')' in s && '\n' !in BeforeFirst(s, ')')
  }

  /**
   * `re.findall(r"\((.*?)\)", s)`: scanning left to right, each `(` that a
   * `)` closes on the same line gives the text up to the first such `)`,
   * and the scan resumes after it.
   */
  function ParenGroups(s: string): (r: seq<string>)
    ensures forall g :: g in r ==> ')' !in g && '\n' !in g
    decreases |s|
  {
    if s == [] then []
    else if s[0] == '(' && ClosesOnLine(s[1..]) then
      var g := BeforeFirst(s[1..], ')');
      [g] + ParenGroups(s[1..][|g| + 1..])
    else ParenGroups(s[1..])
  }

  lemma {:induction false} ParenGroupsNone(s: string)
    requires '(' !in s
    ensures ParenGroups(s) == []
  {
    if s != [] {
      assert '(' !in s[1..];
      ParenGroupsNone(s[1..]);
    }
  }

  /** The first `(`, closed on its line, gives its group; the scan goes on after the `)`. */
  lemma {:induction false} ParenGroupsFirst(pre: string, g: string, post: string)
    requires '(' !in pre && ')' !in g && '\n' !in g
    ensures ParenGroups(pre + ['('] + g + [')'] + post) == [g] + ParenGroups(post)
  {
    var s := pre + ['('] + g + [')'] + post;
    if pre == [] {
      assert s[1..] == g + [')'] + post;
      BeforeFirstAt(g, ')', post);
      assert s[1..][|g| + 1..] == post;
    } else {
      assert s[1..] == pre[1..] + ['('] + g + [')'] + post;
      ParenGroupsFirst(pre[1..], g, post);
    }
  }

  /** `unit_text.split(":")[-1]` after a last colon. */
  lemma {:induction false} AfterLastColon(prefix: string, id: string)
    requires ':' !in id
    ensures AfterLast(prefix + [':'] + id, ':') == id
    decreases |id|
  {
    var s := prefix + [':'] + id;
    if id != [] {
      assert s[..|s| - 1] == prefix + [':'] + id[..|id| - 1];
      assert s[|s| - 1] == id[|id| - 1];
      AfterLastColon(prefix, id[..|id| - 1]);
      assert id == id[..|id| - 1] + [id[|id| - 1]];
    }
  }

  /** The stripped text, each parenthesised group, and the part after the last colon if any. */
  function UnitCandidates(text: string): seq<string> {
    var stripped := Strip(text);
    [stripped] + ParenGroups(stripped) + (if ':' in stripped then [AfterLast(stripped, ':')] else [])
  }

  /** The units the candidates name, in order and with repeats. */
  function UnitHits(utr: Utr, candidates: seq<string>): (r: seq<QName>)
    ensures |r| <= |candidates|
    ensures r == [] <==> forall c :: c in candidates ==> utr.QNameForUnitId(c).None?
    ensures forall q :: q in r ==> exists c :: c in candidates && utr.QNameForUnitId(c) == Some(q)
  {
    if candidates == [] then []
    else
      var rest := UnitHits(utr, candidates[1..]);
      assert forall c :: c in candidates ==> c == candidates[0] || c in candidates[1..];
      match utr.QNameForUnitId(candidates[0])
      case Some(q) => [q] + rest
      case None => rest
  }

  /** The hits of two lists of candidates, one after the other, are the hits of each in turn. */
  lemma {:induction false} UnitHitsAppend(utr: Utr, a: seq<string>, b: seq<string>)
    ensures UnitHits(utr, a + b) == UnitHits(utr, a) + UnitHits(utr, b)
  {
    if a != [] {
      var ab := a + b;
      assert ab[0] == a[0] && ab[1..] == a[1..] + b;
      UnitHitsAppend(utr, a[1..], b);
      match utr.QNameForUnitId(a[0])
      case Some(q) =>
        assert UnitHits(utr, ab) == [q] + UnitHits(utr, ab[1..]);
        assert UnitHits(utr, a) == [q] + UnitHits(utr, a[1..]);
      case None =>
        assert UnitHits(utr, ab) == UnitHits(utr, ab[1..]);
        assert UnitHits(utr, a) == UnitHits(utr, a[1..]);
    } else {
      assert a + b == b;
    }
  }

  /** A candidate that names a unit adds exactly that unit; one that names none adds nothing. */
  lemma UnitHitsOne(utr: Utr, c: string)
    ensures UnitHits(utr, [c]) == if utr.QNameForUnitId(c).Some? then [utr.QNameForUnitId(c).value] else []
  {
    assert [c][1..] == [];
  }

  lemma {:induction false} UnitHitsNone(utr: Utr, candidates: seq<string>)
    requires forall j :: 0 <= j < |candidates| ==> utr.QNameForUnitId(candidates[j]).None?
    ensures UnitHits(utr, candidates) == []
  {
    if candidates != [] {
      assert forall j :: 0 <= j < |candidates[1..]| ==> candidates[1..][j] == candidates[j + 1];
      UnitHitsNone(utr, candidates[1..]);
    }
  }

  /** When only one candidate names a unit, that unit is the only hit. */
  lemma UnitHitsOnly(utr: Utr, candidates: seq<string>, i: nat, q: QName)
    requires i < |candidates| && utr.QNameForUnitId(candidates[i]) == Some(q)
    requires forall j :: 0 <= j < |candidates| && j != i ==> utr.QNameForUnitId(candidates[j]).None?
    ensures UnitHits(utr, candidates) == [q]
  {
    var before, after := candidates[..i], candidates[i + 1..];
    assert candidates == before + [candidates[i]] + after;
    assert forall j :: 0 <= j < |before| ==> before[j] == candidates[j];
    UnitHitsNone(utr, before);
    assert forall j :: 0 <= j < |after| ==> after[j] == candidates[i + 1 + j];
    UnitHitsNone(utr, after);
    UnitHitsAppend(utr, before + [candidates[i]], after);
    UnitHitsAppend(utr, before, [candidates[i]]);
    UnitHitsOne(utr, candidates[i]);
  }

  /** Two candidates that name units, even the same unit, give two hits or more. */
  lemma UnitHitsTwo(utr: Utr, candidates: seq<string>, i: nat, j: nat)
    requires i < j < |candidates|
    requires utr.QNameForUnitId(candidates[i]).Some? && utr.QNameForUnitId(candidates[j]).Some?
    ensures |UnitHits(utr, candidates)| >= 2
  {
    var before, after := candidates[..j], candidates[j..];
    assert candidates == before + after;
    assert before[i] in before;
    assert after == [candidates[j]] + after[1..];
    UnitHitsAppend(utr, [candidates[j]], after[1..]);
    UnitHitsOne(utr, candidates[j]);
    UnitHitsAppend(utr, before, after);
  }

  function CleanAll(candidates: seq<string>, replacements: seq<(string, string)>): (r: seq<string>)
    ensures |r| == |candidates| && forall i :: 0 <= i < |candidates| ==> r[i] == ApplyReplacements(candidates[i], replacements)
  {
    seq(|candidates|, i requires 0 <= i < |candidates| => ApplyReplacements(candidates[i], replacements))
  }

  /** A candidate, as it is or cleaned, names the unit. */
  predicate Names(utr: Utr, replacements: seq<(string, string)>, c: string, q: QName) {
    utr.QNameForUnitId(c) == Some(q) || utr.QNameForUnitId(ApplyReplacements(c, replacements)) == Some(q)
  }

  /** The hits of the candidates, or, when they have none, of the cleaned candidates. */
  function PossibleUnits(utr: Utr, replacements: seq<(string, string)>, text: string): (r: seq<QName>)
    ensures forall q :: q in r ==> exists c :: c in UnitCandidates(text) && Names(utr, replacements, c, q)
  {
    var candidates := UnitCandidates(text);
    var hits := UnitHits(utr, candidates);
    if hits != [] then hits
    else
      var cleaned := CleanAll(candidates, replacements);
      var again := UnitHits(utr, cleaned);
      assert forall q :: q in again ==> exists c :: c in candidates && Names(utr, replacements, c, q) by {
        forall q | q in again
          ensures exists c :: c in candidates && Names(utr, replacements, c, q)
        {
          var c' :| c' in cleaned && utr.QNameForUnitId(c') == Some(q);
          var i :| 0 <= i < |cleaned| && cleaned[i] == c';
          assert Names(utr, replacements, candidates[i], q);
        }
      }
      again
  }

  /**
   * `getSimpleUnit`: exactly one possible unit is the unit; none, or
   * several (a unit found twice counts twice), is no unit.
   */
  function GetSimpleUnit(utr: Utr, replacements: seq<(string, string)>, text: string): (r: Option<QName>)
    ensures text == [] ==> r.None?
    ensures r.Some? <==> text != [] && |PossibleUnits(utr, replacements, text)| == 1
    ensures r.Some? ==> PossibleUnits(utr, replacements, text) == [r.value]
    ensures r.Some? ==> exists c :: c in UnitCandidates(text) && Names(utr, replacements, c, r.value)
  {
    if text == [] then None
    else
      var possible := PossibleUnits(utr, replacements, text);
      if |possible| == 1 then
        assert possible[0] in possible;
        Some(possible[0])
      else None
  }

  /** When exactly one candidate names a unit, as it is, that unit is the unit. */
  lemma OneCandidateNamesTheUnit(utr: Utr, replacements: seq<(string, string)>, text: string, i: nat, q: QName)
    requires text != [] && i < |UnitCandidates(text)|
    requires utr.QNameForUnitId(UnitCandidates(text)[i]) == Some(q)
    requires forall j :: 0 <= j < |UnitCandidates(text)| && j != i ==> utr.QNameForUnitId(UnitCandidates(text)[j]).None?
    ensures GetSimpleUnit(utr, replacements, text) == Some(q)
  {
    UnitHitsOnly(utr, UnitCandidates(text), i, q);
  }

  /** Two candidates that name units, as they are, leave the unit undecided. */
  lemma TwoCandidatesGiveNone(utr: Utr, replacements: seq<(string, string)>, text: string, i: nat, j: nat)
    requires i < j < |UnitCandidates(text)|
    requires utr.QNameForUnitId(UnitCandidates(text)[i]).Some? && utr.QNameForUnitId(UnitCandidates(text)[j]).Some?
    ensures GetSimpleUnit(utr, replacements, text).None?
  {
    UnitHitsTwo(utr, UnitCandidates(text), i, j);
  }

  /**
   * When no candidate names a unit as it is, and exactly one cleaned
   * candidate does, that unit is the unit.
   */
  lemma OneCleanedCandidateNamesTheUnit(utr: Utr, replacements: seq<(string, string)>, text: string, i: nat, q: QName)
    requires text != [] && i < |UnitCandidates(text)|
    requires forall c :: c in UnitCandidates(text) ==> utr.QNameForUnitId(c).None?
    requires utr.QNameForUnitId(ApplyReplacements(UnitCandidates(text)[i], replacements)) == Some(q)
    requires forall j :: 0 <= j < |UnitCandidates(text)| && j != i ==>
      utr.QNameForUnitId(ApplyReplacements(UnitCandidates(text)[j], replacements)).None?
    ensures GetSimpleUnit(utr, replacements, text) == Some(q)
  {
    UnitHitsOnly(utr, CleanAll(UnitCandidates(text), replacements), i, q);
  }

  /** The cleaned candidates are consulted only when the candidates themselves name no unit. */
  lemma FirstPassDecides(utr: Utr, replacements: seq<(string, string)>, others: seq<(string, string)>, text: string)
    requires UnitHits(utr, UnitCandidates(text)) != []
    ensures GetSimpleUnit(utr, replacements, text) == GetSimpleUnit(utr, others, text)
  {
  }

  /** Two or more possible units, even the same one twice, give no unit. */
  lemma SeveralUnitsGiveNone(utr: Utr, replacements: seq<(string, string)>, text: string)
    requires |PossibleUnits(utr, replacements, text)| >= 2
    ensures GetSimpleUnit(utr, replacements, text).None?
  {
  }

  /** A bare unit id is its unit. */
  lemma BareUnitId(utr: Utr, replacements: seq<(string, string)>, text: string, q: QName)
    requires text != [] && '(' !in Strip(text) && ':' !in Strip(text)
    requires utr.QNameForUnitId(Strip(text)) == Some(q)
    ensures GetSimpleUnit(utr, replacements, text) == Some(q)
  {
    ParenGroupsNone(Strip(text));
    assert UnitCandidates(text) == [Strip(text)];
  }

  /** A prefixed unit id whose whole text is no unit id is read by its part after the colon. */
  lemma PrefixedUnitId(utr: Utr, replacements: seq<(string, string)>, text: string, prefix: string, id: string, q: QName)
    requires text != [] && Strip(text) == prefix + [':'] + id && ':' !in id && '(' !in Strip(text)
    requires utr.QNameForUnitId(Strip(text)).None? && utr.QNameForUnitId(id) == Some(q)
    ensures GetSimpleUnit(utr, replacements, text) == Some(q)
  {
    ParenGroupsNone(Strip(text));
    AfterLastColon(prefix, id);
    assert ':' in Strip(text) by {
      assert Strip(text)[|prefix|] == ':';
    }
    var candidates := [Strip(text), id];
    assert UnitCandidates(text) == candidates;
    assert UnitHits(utr, candidates) == [q] by {
      assert candidates[1..] == [id];
      assert UnitHits(utr, [id]) == [q];
    }
    assert PossibleUnits(utr, replacements, text) == [q];
  }

  /** A text in parentheses. */
  function Parenthesised(g: string): string {
    ['('] + g + [')']
  }

  lemma ParenGroupsLead(g: string, post: string)
    requires ')' !in g && '\n' !in g
    ensures ParenGroups(Parenthesised(g) + post) == [g] + ParenGroups(post)
  {
    var s := Parenthesised(g) + post;
    assert s[0] == '(';
    assert s[1..] == g + [')'] + post;
    BeforeFirstAt(g, ')', post);
    assert ClosesOnLine(s[1..]);
    assert s[1..][|g| + 1..] == post;
  }

  lemma RepeatedGroups(g: string)
    requires ')' !in g && '\n' !in g
    ensures ParenGroups(Parenthesised(g) + Parenthesised(g)) == [g, g]
  {
    ParenGroupsLead(g, Parenthesised(g));
    ParenGroupsLead(g, []);
    assert Parenthesised(g) + [] == Parenthesised(g);
  }

  lemma RepeatedStrip(g: string)
    ensures Strip(Parenthesised(g) + Parenthesised(g)) == Parenthesised(g) + Parenthesised(g)
  {
    var text := Parenthesised(g) + Parenthesised(g);
    assert text[0] == '(' && text[|text| - 1] == ')';
    StripUnchanged(text);
  }

  lemma RepeatedCandidates(g: string)
    requires '(' !in g && ')' !in g && '\n' !in g && ':' !in g
    ensures UnitCandidates(Parenthesised(g) + Parenthesised(g)) == [Parenthesised(g) + Parenthesised(g), g, g]
  {
    var text := Parenthesised(g) + Parenthesised(g);
    RepeatedStrip(g);
    RepeatedGroups(g);
    assert ':' !in text;
    assert [text] + [g, g] + [] == [text, g, g];
  }

  lemma HitsTwice(utr: Utr, text: string, g: string, q: QName)
    requires utr.QNameForUnitId(text).None? && utr.QNameForUnitId(g) == Some(q)
    ensures UnitHits(utr, [text, g, g]) == [q, q]
  {
    assert UnitHits(utr, [g]) == [q];
    assert UnitHits(utr, [g, g]) == [q, q] by {
      assert [g, g][1..] == [g];
    }
    assert [text, g, g][1..] == [g, g];
  }

  /** A unit id written twice in parentheses is found twice, so no unit results. */
  lemma RepeatedUnitIsAmbiguous(utr: Utr, replacements: seq<(string, string)>, g: string, q: QName)
    requires '(' !in g && ')' !in g && '\n' !in g && ':' !in g
    requires utr.QNameForUnitId(Parenthesised(g) + Parenthesised(g)).None? && utr.QNameForUnitId(g) == Some(q)
    ensures GetSimpleUnit(utr, replacements, Parenthesised(g) + Parenthesised(g)).None?
  {
    var text := Parenthesised(g) + Parenthesised(g);
    RepeatedCandidates(g);
    HitsTwice(utr, text, g, q);
    assert PossibleUnits(utr, replacements, text) == [q, q];
    SeveralUnitsGiveNone(utr, replacements, text);
  }

  // Choosing the unit.

  datatype ComplexUnit = ComplexUnit(numerator: seq<QName>, denominator: seq<QName>)

  /** The unit set on the fact builder. */
  datatype UnitChoice = Simple(unit: QName) | Complex(measures: ComplexUnit)

  /** The unit configuration of the processor. */
  datatype UnitConfig = UnitConfig(
    conceptToUnit: map<QName, QName>,
    unitIdsToMeasures: map<string, ComplexUnit>,
    dataTypeToUnit: map<QName, QName>,
    unitReplacements: seq<(string, string)>)

  /** The measures of the first unit id that has configured measures. */
  function FirstComplex(ids: seq<string>, measures: map<string, ComplexUnit>): (r: Option<ComplexUnit>)
    ensures r.None? <==> forall i :: 0 <= i < |ids| ==> ids[i] !in measures
    ensures r.Some? ==> exists i :: 0 <= i < |ids| && ids[i] in measures && measures[ids[i]] == r.value
                                   && forall j :: 0 <= j < i ==> ids[j] !in measures
  {
    if ids == [] then None
    else if ids[0] in measures then Some(measures[ids[0]])
    else
      var r := FirstComplex(ids[1..], measures);
      assert forall i :: 0 < i < |ids| ==> ids[i] == ids[1..][i - 1];
      assert r.Some? ==> exists i :: 0 <= i < |ids| && ids[i] in measures && measures[ids[i]] == r.value
                                    && forall j :: 0 <= j < i ==> ids[j] !in measures by {
        if r.Some? {
          var i :| 0 <= i < |ids[1..]| && ids[1..][i] in measures && measures[ids[1..][i]] == r.value
                   && forall j :: 0 <= j < i ==> ids[1..][j] !in measures;
          assert forall j :: 0 < j < i + 1 ==> ids[j] == ids[1..][j - 1];
        }
      }
      r
  }

  /**
   * `setFallbackUnitForName`: nothing for a non-numeric concept; otherwise
   * the configured unit of the data type if the UTR accepts it, else the
   * first UTR unit of the data type, else `xbrli:pure`.
   */
  function SetFallbackUnitForName(config: UnitConfig, utr: Utr, c: Concept): (r: Option<UnitChoice>)
    ensures r.None? <==> !c.isNumeric
    ensures r.Some? ==> r.value.Simple?
    ensures r.Some? && c.dataType in config.dataTypeToUnit && utr.Valid(c.dataType, config.dataTypeToUnit[c.dataType]) ==>
      r.value.unit == config.dataTypeToUnit[c.dataType]
    ensures c.isNumeric && !(c.dataType in config.dataTypeToUnit && utr.Valid(c.dataType, config.dataTypeToUnit[c.dataType])) ==>
      (utr.UnitsForDataType(c.dataType) != [] ==> r.value.unit in utr.UnitsForDataType(c.dataType))
      && (utr.UnitsForDataType(c.dataType) == [] ==> r == Some(Simple(Pure)))
    ensures r.Some? && r.value.unit != Pure ==>
      utr.Valid(c.dataType, r.value.unit) || r.value.unit in utr.UnitsForDataType(c.dataType)
    ensures r.Some? && r.value.unit == Pure ==>
      utr.Valid(c.dataType, Pure) || Pure in utr.UnitsForDataType(c.dataType) || utr.UnitsForDataType(c.dataType) == []
  {
    if !c.isNumeric then None
    else if c.dataType in config.dataTypeToUnit && utr.Valid(c.dataType, config.dataTypeToUnit[c.dataType]) then
      Some(Simple(config.dataTypeToUnit[c.dataType]))
    else if utr.UnitsForDataType(c.dataType) != [] then Some(Simple(utr.UnitsForDataType(c.dataType)[0]))
    else Some(Simple(Pure))
  }

  /** The explicit unit of the holder, read as a simple unit when the text is not empty. */
  function ExplicitUnit(config: UnitConfig, utr: Utr, unitText: string): Option<QName> {
    if unitText == [] then None else GetSimpleUnit(utr, config.unitReplacements, unitText)
  }

  /** Step 1 of `setUnitForName` applies: the explicit unit is read and the UTR accepts it. */
  predicate ExplicitValid(config: UnitConfig, utr: Utr, unitText: string, c: Concept) {
    var explicit := ExplicitUnit(config, utr, unitText);
    explicit.Some? && utr.Valid(c.dataType, explicit.value)
  }

  /** Step 2 applies: the concept has a configured unit and the UTR accepts it. */
  predicate ConfiguredValid(config: UnitConfig, utr: Utr, c: Concept) {
    c.qname in config.conceptToUnit && utr.Valid(c.dataType, config.conceptToUnit[c.qname])
  }

  lemma SingletonSet<T>(s: set<T>, u: T)
    requires |s| == 1 && u in s
    ensures s == {u}
  {
    assert |s - {u}| == 0;
  }

  /**
   * `setUnitForName`: a valid explicit unit; else a valid configured unit of
   * the concept; else the units the concept requires, if exactly one (any
   * other number is no unit); else the complex unit of the first UTR unit
   * id with configured measures; else the fallback.
   */
  ghost function SetUnitForName(config: UnitConfig, utr: Utr, unitText: string, c: Concept, required: Option<set<QName>>)
    : (r: Option<UnitChoice>)
    ensures ExplicitValid(config, utr, unitText, c) ==>
      r == Some(Simple(ExplicitUnit(config, utr, unitText).value))
    ensures !ExplicitValid(config, utr, unitText, c) && ConfiguredValid(config, utr, c) ==>
      r == Some(Simple(config.conceptToUnit[c.qname]))
    ensures !ExplicitValid(config, utr, unitText, c) && !ConfiguredValid(config, utr, c) && required.Some? ==>
      && (r.Some? <==> |required.value| == 1)
      && (r.Some? ==> r.value.Simple? && required.value == {r.value.unit})
    ensures !ExplicitValid(config, utr, unitText, c) && !ConfiguredValid(config, utr, c) && required.None? ==>
      r == match FirstComplex(utr.UnitIdsForDataType(c.dataType), config.unitIdsToMeasures)
           case Some(measures) => Some(Complex(measures))
           case None => SetFallbackUnitForName(config, utr, c)
    ensures required.Some? && r.Some? && r.value.Simple? ==>
      r.value.unit in required.value || utr.Valid(c.dataType, r.value.unit)
    ensures required.None? && r.None? ==> !c.isNumeric
  {
    if ExplicitValid(config, utr, unitText, c) then Some(Simple(ExplicitUnit(config, utr, unitText).value))
    else if ConfiguredValid(config, utr, c) then Some(Simple(config.conceptToUnit[c.qname]))
    else if required.Some? then
      if |required.value| == 1 then
        var u :| u in required.value;
        SingletonSet(required.value, u);
        Some(Simple(u))
      else None
    else
      match FirstComplex(utr.UnitIdsForDataType(c.dataType), config.unitIdsToMeasures)
      case Some(measures) => Some(Complex(measures))
      case None => SetFallbackUnitForName(config, utr, c)
  }

  /**
   * Whatever simple unit is chosen, with the required units as the concept
   * computes them, is accepted by the UTR for the data type, listed by it
   * for the data type, or `xbrli:pure` when it lists none.
   */
  lemma ChosenUnitIsForTheDataType(config: UnitConfig, utr: Utr, unitText: string, c: Concept, defaultLanguage: Option<string>,
                                   qnameText: string, asQName: Option<QName>, recognised: set<QName>)
    requires var r := SetUnitForName(config, utr, unitText, c, RequiredUnitQNames(c, defaultLanguage, qnameText, utr, asQName, recognised));
      r.Some? && r.value.Simple?
    ensures var u := SetUnitForName(config, utr, unitText, c, RequiredUnitQNames(c, defaultLanguage, qnameText, utr, asQName, recognised)).value.unit;
      utr.Valid(c.dataType, u) || u in utr.UnitsForDataType(c.dataType) || (u == Pure && utr.UnitsForDataType(c.dataType) == [])
  {
  }

  /** A numeric concept whose guidance requires no unit always gets a unit. */
  lemma NumericConceptGetsUnit(config: UnitConfig, utr: Utr, unitText: string, c: Concept)
    requires c.isNumeric
    ensures SetUnitForName(config, utr, unitText, c, None).Some?
  {
  }
}

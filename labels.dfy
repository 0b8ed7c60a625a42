/**
 * Label resolution for a concept: exact language, base language, any
 * language with the default first, the caller's fallback, the QName; then
 * the optional removal of a trailing `[…]` suffix.
 */
module Labels {
  import opened Wrappers
  import opened Text
  import opened Dicts
  import opened QNames
  import opened Concepts
  import opened Utr

  const StandardLabelRole: string := "http://www.xbrl.org/2003/role/label"
  const DocumentationLabelRole: string := "http://www.xbrl.org/2003/role/documentation"
  const MeasurementGuidanceLabelRole: string := "http://www.xbrl.org/2003/role/measurementGuidance"

  /** A label Python treats as true: present and not empty. */
  predicate Truthy(o: Option<string>) {
    o.Some? && o.value != []
  }

  /** `tag.partition("-")[0]`. */
  function LangBase(tag: string): string {
    BeforeFirst(tag, '-')
  }

  /** `x` is the label for `role` in one of the language buckets. */
  predicate InSomeBucket(labels: LabelMap, role: string, x: string) {
    exists i :: 0 <= i < |labels| && Get(labels[i].1, role) == Some(x)
  }

  /**
   * The base-language loop: every language whose base matches is tried in
   * order; its label is kept, and the loop stops at the first non-empty one.
   */
  function BaseScan(labels: LabelMap, role: string, wanted: string, acc: Option<string>): Option<string> {
    if labels == [] then acc
    else if LangBase(labels[0].0) == wanted then
      var v := Get(labels[0].1, role);
      if Truthy(v) then v else BaseScan(labels[1..], role, wanted, v)
    else BaseScan(labels[1..], role, wanted, acc)
  }

  /** The exact bucket when the requested language is a key, otherwise the base-language loop. */
  function PrimaryLabel(labels: LabelMap, role: string, requested: string): Option<string> {
    if HasKey(labels, requested) then Get(Get(labels, requested).value, role)
    else BaseScan(labels, role, LangBase(requested), None)
  }

  /** All buckets in order, preceded by the default one when it exists and was not the request. */
  function AnyLangBuckets(labels: LabelMap, requested: string, defaultLanguage: string): seq<Bucket> {
    (if requested != defaultLanguage && HasKey(labels, defaultLanguage)
     then [Get(labels, defaultLanguage).value] else [])
    + Values(labels)
  }

  /** The first non-empty label for `role` among `buckets`. */
  function FirstTruthy(buckets: seq<Bucket>, role: string): (r: Option<string>)
    ensures r.None? || Truthy(r)
  {
    if buckets == [] then None
    else
      var v := Get(buckets[0], role);
      if Truthy(v) then v else FirstTruthy(buckets[1..], role)
  }

  /** The keyword arguments of `_getLabelForRole`. */
  datatype LabelQuery = LabelQuery(
    role: string,
    requested: Option<string>,
    fallbackLabel: Option<string>,
    anyLang: bool,
    toQName: bool,
    removeSuffix: bool)

  /** `getStandardLabel` and `getDocumentationLabel` fix the role. */
  function StandardLabelQuery(lang: Option<string>, fallback: Option<string>, removeSuffix: bool, anyLang: bool, toQName: bool): LabelQuery {
    LabelQuery(StandardLabelRole, lang, fallback, anyLang, toQName, removeSuffix)
  }

  function DocumentationLabelQuery(lang: Option<string>, fallback: Option<string>, removeSuffix: bool, anyLang: bool, toQName: bool): LabelQuery {
    LabelQuery(DocumentationLabelRole, lang, fallback, anyLang, toQName, removeSuffix)
  }

  /** The requested language, the default when none or an empty one is given, lower-cased. */
  function Requested(q: LabelQuery, defaultLanguage: string): string {
    Lower(if q.requested.None? || q.requested.value == [] then defaultLanguage else q.requested.value)
  }

  function WithAnyLang(labels: LabelMap, role: string, requested: string, defaultLanguage: string,
                       d: Option<string>, anyLang: bool): Option<string> {
    if !Truthy(d) && anyLang then
      var f := FirstTruthy(AnyLangBuckets(labels, requested, defaultLanguage), role);
      if f.Some? then f else d
    else d
  }

  function WithFallbacks(d: Option<string>, fallbackLabel: Option<string>, toQName: bool, qnameText: string): Option<string> {
    var d3 := if d.None? && fallbackLabel.Some? then fallbackLabel else d;
    if d3.None? && toQName then Some(qnameText) else d3
  }

  /** The label before suffix removal. */
  function Unsuffixed(labels: LabelMap, defaultLanguage: string, qnameText: string, q: LabelQuery): Option<string> {
    var requested := Requested(q, defaultLanguage);
    var d1 := PrimaryLabel(labels, q.role, requested);
    var d2 := WithAnyLang(labels, q.role, requested, defaultLanguage, d1, q.anyLang);
    WithFallbacks(d2, q.fallbackLabel, q.toQName, qnameText)
  }

  /** The specification of `_getLabelForRole`. */
  function LabelFor(labels: LabelMap, defaultLanguage: Option<string>, qnameText: string, q: LabelQuery): Option<string> {
    if defaultLanguage.None? then None
    else
      var d := Unsuffixed(labels, defaultLanguage.value, qnameText, q);
      if !Truthy(d) || !q.removeSuffix then d else Some(StripLabelSuffix(d.value))
  }

  /** The exact-language lookup, else the base-language loop with its early exit. */
  method LookupPrimary(labels: LabelMap, role: string, requested: string) returns (desired: Option<string>)
    ensures desired == PrimaryLabel(labels, role, requested)
  {
    desired := None;
    if HasKey(labels, requested) {
      desired := Get(Get(labels, requested).value, role);
      return;
    }
    var wanted := LangBase(requested);
    var i := 0;
    while i < |labels|
      invariant 0 <= i <= |labels|
      invariant BaseScan(labels[i..], role, wanted, desired) == BaseScan(labels, role, wanted, None)
    {
      if LangBase(labels[i].0) == wanted {
        desired := Get(labels[i].1, role);
        if Truthy(desired) {
          assert labels[i..][0] == labels[i];
          return;
        }
      }
      assert labels[i..][1..] == labels[i + 1..];
      i := i + 1;
    }
  }

  /** The any-language loop: the first non-empty label for the role wins. */
  method LookupAnyLang(labels: LabelMap, role: string, requested: string, defaultLanguage: string)
    returns (found: Option<string>)
    ensures found == FirstTruthy(AnyLangBuckets(labels, requested, defaultLanguage), role)
  {
    var buckets := Values(labels);
    if requested != defaultLanguage && HasKey(labels, defaultLanguage) {
      buckets := [Get(labels, defaultLanguage).value] + buckets;
    }
    assert buckets == AnyLangBuckets(labels, requested, defaultLanguage);
    var j := 0;
    while j < |buckets|
      invariant 0 <= j <= |buckets|
      invariant FirstTruthy(buckets[j..], role) == FirstTruthy(buckets, role)
    {
      var hit := Get(buckets[j], role);
      if Truthy(hit) {
        assert buckets[j..][0] == buckets[j];
        return hit;
      }
      assert buckets[j..][1..] == buckets[j + 1..];
      j := j + 1;
    }
    return None;
  }

  /**
   * `_getLabelForRole`. `qnameText` is `str(self.qname)` and
   * `defaultLanguage` the taxonomy's default language.
   */
  method GetLabelForRole(labels: LabelMap, defaultLanguage: Option<string>, qnameText: string, q: LabelQuery)
    returns (r: Option<string>)
    ensures r == LabelFor(labels, defaultLanguage, qnameText, q)
    ensures defaultLanguage.None? ==> r.None?
  {
    if defaultLanguage.None? {
      return None;
    }
    var requested := if q.requested.None? || q.requested.value == [] then defaultLanguage.value else q.requested.value;
    requested := Lower(requested);
    var desired := LookupPrimary(labels, q.role, requested);
    if !Truthy(desired) && q.anyLang {
      var hit := LookupAnyLang(labels, q.role, requested, defaultLanguage.value);
      if hit.Some? {
        desired := hit;
      }
    }
    if desired.None? && q.fallbackLabel.Some? {
      desired := q.fallbackLabel;
    }
    if desired.None? && q.toQName {
      desired := Some(qnameText);
    }
    if !Truthy(desired) || !q.removeSuffix {
      return desired;
    }
    return Some(StripLabelSuffix(desired.value));
  }

  // Suffix removal: `LABEL_SUFFIX_PATTERN.sub("", label)` with the pattern
  // `\s*\[[a-z ]+\]\s*$`.

  predicate SuffixChar(c: char) {
    'a' <= c <= 'z' || c == ' '
  }

  predicate AllSuffixChars(s: string) {
    forall i :: 0 <= i < |s| ==> SuffixChar(s[i])
  }

  /**
   * The pattern matches at most once, anchored at the end: the text, with
   * trailing whitespace ignored, must end in `]`, and the characters between
   * the last `[` and that `]` must be one or more lower-case ASCII letters
   * or spaces. The match starts at the whitespace before that `[`.
   */
  function StripLabelSuffix(s: string): (r: string)
    ensures |r| <= |s| && r == s[..|r|]
    ensures r != s ==> r == [] || !IsSpace(r[|r| - 1])
  {
    var t := TrimEnd(s);
    if t == [] || t[|t| - 1] != ']' then s
    else
      var body := t[..|t| - 1];
      var k := LastIndex(body, '[');
      if k < 0 || k + 1 == |body| || !AllSuffixChars(body[k + 1..]) then s
      else TrimEnd(body[..k])
  }

  /**
   * A label made of a text, a bracketed lower-case tag and whitespace around
   * the tag loses the tag and all whitespace before it.
   */
  lemma StripLabelSuffixRemovesTag(text: string, before: string, tag: string, after: string)
    requires forall i :: 0 <= i < |before| ==> IsSpace(before[i])
    requires forall i :: 0 <= i < |after| ==> IsSpace(after[i])
    requires tag != [] && AllSuffixChars(tag)
    ensures StripLabelSuffix(text + before + "[" + tag + "]" + after) == TrimEnd(text)
  {
    assert text + before + "[" + tag + "]" + after == (text + before) + "[" + tag + "]" + after;
    StripBracketed(text + before, tag, after);
    TrimEndAppendSpaces(text, before);
  }

  lemma StripBracketed(p: string, tag: string, after: string)
    requires forall i :: 0 <= i < |after| ==> IsSpace(after[i])
    requires tag != [] && AllSuffixChars(tag)
    ensures StripLabelSuffix(p + "[" + tag + "]" + after) == TrimEnd(p)
  {
    var x := p + "[" + tag + "]";
    TrimEndUnique(x + after, x);
    var body := p + ['['] + tag;
    assert x[..|x| - 1] == body;
    assert '[' !in tag by {
      forall i | 0 <= i < |tag| ensures tag[i] != '[' {
        assert SuffixChar(tag[i]);
      }
    }
    LastIndexAt(p, '[', tag);
    assert body[|p| + 1..] == tag;
    assert body[..|p|] == p;
  }

  /** A label that does not end in a bracketed group, trailing whitespace aside, is kept. */
  lemma StripLabelSuffixKeeps(s: string)
    requires TrimEnd(s) == [] || TrimEnd(s)[|TrimEnd(s)| - 1] != ']'
    ensures StripLabelSuffix(s) == s
  {
  }

  // The fallback chain.

  /** The loop stops at the first base-matching language with a non-empty label. */
  lemma {:induction false} BaseScanHit(labels: LabelMap, role: string, wanted: string, acc: Option<string>, k: nat)
    requires k < |labels| && LangBase(labels[k].0) == wanted && Truthy(Get(labels[k].1, role))
    requires forall j :: 0 <= j < k && LangBase(labels[j].0) == wanted ==> !Truthy(Get(labels[j].1, role))
    ensures BaseScan(labels, role, wanted, acc) == Get(labels[k].1, role)
  {
    if k > 0 {
      var v := if LangBase(labels[0].0) == wanted then Get(labels[0].1, role) else acc;
      assert labels[1..][k - 1] == labels[k];
      BaseScanHit(labels[1..], role, wanted, v, k - 1);
    }
  }

  /** Without a non-empty base-matching label the loop ends with an empty or absent one. */
  lemma {:induction false} BaseScanMiss(labels: LabelMap, role: string, wanted: string, acc: Option<string>)
    requires !Truthy(acc)
    requires forall j :: 0 <= j < |labels| && LangBase(labels[j].0) == wanted ==> !Truthy(Get(labels[j].1, role))
    ensures !Truthy(BaseScan(labels, role, wanted, acc))
  {
    if labels != [] {
      var v := if LangBase(labels[0].0) == wanted then Get(labels[0].1, role) else acc;
      BaseScanMiss(labels[1..], role, wanted, v);
    }
  }

  /**
   * When the requested language is a key only its bucket is tried: what
   * follows it in the label map cannot change the primary label.
   */
  lemma ExactLanguageOnly(labels: LabelMap, more: LabelMap, role: string, requested: string)
    requires HasKey(labels, requested)
    ensures PrimaryLabel(labels + more, role, requested) == Get(Get(labels, requested).value, role)
  {
    assert HasKey(labels + more, requested) by {
      var i :| 0 <= i < |labels| && labels[i].0 == requested;
      assert (labels + more)[i].0 == requested;
    }
    GetAppend(labels, more, requested);
  }

  /**
   * When the requested language is not a key, the primary label is the
   * label of the first language with the same base that has a non-empty one,
   * and empty or absent when there is none.
   */
  lemma BaseLanguageFallback(labels: LabelMap, role: string, requested: string)
    requires !HasKey(labels, requested)
    ensures (exists k :: 0 <= k < |labels| && LangBase(labels[k].0) == LangBase(requested) && Truthy(Get(labels[k].1, role)))
      ==> Truthy(PrimaryLabel(labels, role, requested))
          && InSomeBucket(labels, role, PrimaryLabel(labels, role, requested).value)
    ensures (forall k :: 0 <= k < |labels| && LangBase(labels[k].0) == LangBase(requested) ==> !Truthy(Get(labels[k].1, role)))
      ==> !Truthy(PrimaryLabel(labels, role, requested))
  {
    var wanted := LangBase(requested);
    if exists k :: 0 <= k < |labels| && LangBase(labels[k].0) == wanted && Truthy(Get(labels[k].1, role)) {
      var k := FirstMatch(labels, role, wanted);
      BaseScanHit(labels, role, wanted, None, k);
    } else {
      BaseScanMiss(labels, role, wanted, None);
    }
  }

  /** The first base-matching language with a non-empty label. */
  lemma FirstMatch(labels: LabelMap, role: string, wanted: string) returns (k: nat)
    requires exists k :: 0 <= k < |labels| && LangBase(labels[k].0) == wanted && Truthy(Get(labels[k].1, role))
    ensures k < |labels| && LangBase(labels[k].0) == wanted && Truthy(Get(labels[k].1, role))
    ensures forall j :: 0 <= j < k && LangBase(labels[j].0) == wanted ==> !Truthy(Get(labels[j].1, role))
  {
    var m :| 0 <= m < |labels| && LangBase(labels[m].0) == wanted && Truthy(Get(labels[m].1, role));
    k := 0;
    while !(LangBase(labels[k].0) == wanted && Truthy(Get(labels[k].1, role)))
      invariant k <= m
      invariant forall j :: 0 <= j < k && LangBase(labels[j].0) == wanted ==> !Truthy(Get(labels[j].1, role))
      decreases m - k
    {
      k := k + 1;
    }
  }

  /**
   * The any-language step, when the request missed and is not the default:
   * a non-empty default-language label wins over every other bucket.
   */
  lemma DefaultLanguageFirst(labels: LabelMap, defaultLanguage: string, qnameText: string, q: LabelQuery)
    requires q.anyLang && Requested(q, defaultLanguage) != defaultLanguage
    requires !Truthy(PrimaryLabel(labels, q.role, Requested(q, defaultLanguage)))
    requires HasKey(labels, defaultLanguage) && Truthy(Get(Get(labels, defaultLanguage).value, q.role))
    ensures Unsuffixed(labels, defaultLanguage, qnameText, q) == Get(Get(labels, defaultLanguage).value, q.role)
  {
  }

  /** When the request is the default language the buckets are tried in map order. */
  lemma RequestedDefaultInOrder(labels: LabelMap, defaultLanguage: string, qnameText: string, q: LabelQuery)
    requires q.anyLang && Requested(q, defaultLanguage) == defaultLanguage
    requires !Truthy(PrimaryLabel(labels, q.role, defaultLanguage))
    requires FirstTruthy(Values(labels), q.role).Some?
    ensures Unsuffixed(labels, defaultLanguage, qnameText, q) == FirstTruthy(Values(labels), q.role)
  {
    assert AnyLangBuckets(labels, defaultLanguage, defaultLanguage) == Values(labels);
  }

  /**
   * The caller's fallback and then the QName are used only when no label,
   * not even an empty one, was found.
   */
  lemma FallbacksOnlyWhenNone(d: Option<string>, fallbackLabel: Option<string>, toQName: bool, qnameText: string)
    ensures d.Some? ==> WithFallbacks(d, fallbackLabel, toQName, qnameText) == d
    ensures d.None? && fallbackLabel.Some? ==> WithFallbacks(d, fallbackLabel, toQName, qnameText) == fallbackLabel
    ensures d.None? && fallbackLabel.None? ==>
      WithFallbacks(d, fallbackLabel, toQName, qnameText) == (if toQName then Some(qnameText) else None)
  {
  }

  /** A label found by the first-hit scan comes from one of the buckets scanned. */
  lemma {:induction false} FirstTruthyFrom(buckets: seq<Bucket>, role: string)
    requires FirstTruthy(buckets, role).Some?
    ensures exists i :: 0 <= i < |buckets| && Get(buckets[i], role) == FirstTruthy(buckets, role)
  {
    if !Truthy(Get(buckets[0], role)) {
      FirstTruthyFrom(buckets[1..], role);
      var i :| 0 <= i < |buckets[1..]| && Get(buckets[1..][i], role) == FirstTruthy(buckets[1..], role);
      assert buckets[i + 1] == buckets[1..][i];
    }
  }

  /** A label kept by the base-language loop comes from one of the buckets, unless it is the initial one. */
  lemma {:induction false} BaseScanFrom(labels: LabelMap, role: string, wanted: string, acc: Option<string>)
    requires BaseScan(labels, role, wanted, acc).Some? && BaseScan(labels, role, wanted, acc) != acc
    ensures InSomeBucket(labels, role, BaseScan(labels, role, wanted, acc).value)
  {
    var r := BaseScan(labels, role, wanted, acc);
    if LangBase(labels[0].0) == wanted && (Truthy(Get(labels[0].1, role)) || r == Get(labels[0].1, role)) {
      assert Get(labels[0].1, role) == r;
    } else {
      var v := if LangBase(labels[0].0) == wanted then Get(labels[0].1, role) else acc;
      BaseScanFrom(labels[1..], role, wanted, v);
      var i :| 0 <= i < |labels[1..]| && Get(labels[1..][i].1, role) == Some(r.value);
      assert labels[i + 1] == labels[1..][i];
    }
  }

  /**
   * Whatever the label before suffix removal is, it is a label of the
   * concept for the role, the caller's fallback, or the QName text.
   */
  lemma LabelProvenance(labels: LabelMap, defaultLanguage: string, qnameText: string, q: LabelQuery)
    requires Unsuffixed(labels, defaultLanguage, qnameText, q).Some?
    ensures
      var x := Unsuffixed(labels, defaultLanguage, qnameText, q).value;
      InSomeBucket(labels, q.role, x) || q.fallbackLabel == Some(x) || (q.toQName && x == qnameText)
  {
    var requested := Requested(q, defaultLanguage);
    var d1 := PrimaryLabel(labels, q.role, requested);
    var d2 := WithAnyLang(labels, q.role, requested, defaultLanguage, d1, q.anyLang);
    if d2.Some? {
      if d2 == d1 {
        if HasKey(labels, requested) {
          var b := Get(labels, requested).value;
          var i :| 0 <= i < |labels| && labels[i] == (requested, b);
          assert Get(labels[i].1, q.role) == Some(d1.value);
        } else {
          BaseScanFrom(labels, q.role, LangBase(requested), None);
        }
      } else {
        var buckets := AnyLangBuckets(labels, requested, defaultLanguage);
        FirstTruthyFrom(buckets, q.role);
        var i :| 0 <= i < |buckets| && Get(buckets[i], q.role) == d2;
        var pre := if requested != defaultLanguage && HasKey(labels, defaultLanguage) then 1 else 0;
        if i < pre {
          var b := Get(labels, defaultLanguage).value;
          var j :| 0 <= j < |labels| && labels[j] == (defaultLanguage, b);
          assert Get(labels[j].1, q.role) == Some(d2.value);
        } else {
          assert buckets[i] == labels[i - pre].1;
          assert Get(labels[i - pre].1, q.role) == Some(d2.value);
        }
      }
    }
  }

  /** The measurement-guidance label in the default language, any language accepted. */
  const MeasurementQuery: LabelQuery := LabelQuery(MeasurementGuidanceLabelRole, None, None, true, false, false)

  /**
   * `getRequiredUnitQNames`. The label is read by `_getLabelForRole`; what
   * the regular expressions of the source make of it is given: `asQName` is
   * the label read as a QName when it is one, `recognised` the QNames and
   * unit ids the bracket and delimiter scans find in it. A non-numeric
   * concept, a missing or empty label, or a data type without UTR units
   * require nothing; a label that is a unit id or a unit QName allowed for
   * the data type requires that unit alone.
   */
  function RequiredUnitQNames(c: Concept, defaultLanguage: Option<string>, qnameText: string,
                              utr: Utr, asQName: Option<QName>, recognised: set<QName>): (r: Option<set<QName>>)
    ensures !c.isNumeric || utr.UnitsForDataType(c.dataType) == [] ==> r.None?
    ensures !Truthy(LabelFor(c.labels, defaultLanguage, qnameText, MeasurementQuery)) ==> r.None?
    ensures r.Some? ==> r.value != {} && forall u :: u in r.value ==> u in utr.UnitsForDataType(c.dataType)
    ensures r.Some? && |r.value| >= 2 ==> r.value <= recognised
  {
    var measurement := LabelFor(c.labels, defaultLanguage, qnameText, MeasurementQuery);
    if !c.isNumeric || !Truthy(measurement) then None
    else
      var allValid := set u | u in utr.UnitsForDataType(c.dataType);
      var text := measurement.value;
      if allValid == {} then None
      else if utr.QNameForUnitId(text).Some? && utr.QNameForUnitId(text).value in allValid then
        Some({utr.QNameForUnitId(text).value})
      else if asQName.Some? && asQName.value in allValid then Some({asQName.value})
      else
        var valid := recognised * allValid;
        if valid == {} then None else Some(valid)
  }

  /** A label that is a unit id the data type allows requires exactly that unit. */
  lemma UnitIdLabelRequiresIt(c: Concept, defaultLanguage: Option<string>, qnameText: string,
                              utr: Utr, asQName: Option<QName>, recognised: set<QName>, q: QName)
    requires c.isNumeric && Truthy(LabelFor(c.labels, defaultLanguage, qnameText, MeasurementQuery))
    requires utr.QNameForUnitId(LabelFor(c.labels, defaultLanguage, qnameText, MeasurementQuery).value) == Some(q)
    requires q in utr.UnitsForDataType(c.dataType)
    ensures RequiredUnitQNames(c, defaultLanguage, qnameText, utr, asQName, recognised) == Some({q})
  {
    assert q in set u | u in utr.UnitsForDataType(c.dataType);
  }
}

/** Concepts: their construction from JSON, the one-time reification and the classification flags. */
module Concepts {
  import opened Wrappers
  import opened QNames
  import opened Errors

  datatype PeriodType = Duration | Instant

  /** The JSON spelling of a period type. */
  function PeriodTypeText(p: PeriodType): string {
    match p
    case Duration => "duration"
    case Instant => "instant"
  }

  /** `PeriodType(s)`: the enumeration accepts exactly its two spellings. */
  function ParsePeriodType(s: string): (r: Result<PeriodType, Error>)
    ensures r.Ok? ==> PeriodTypeText(r.value) == s
    ensures r.Err? ==> r.error == ValueError(s) && s != "duration" && s != "instant"
  {
    if s == "duration" then Ok(Duration)
    else if s == "instant" then Ok(Instant)
    else Err(ValueError(s))
  }

  /** Role URI to label text, for one language. */
  type Bucket = seq<(string, string)>
  /** Language to bucket, in the order of the JSON object. */
  type LabelMap = seq<(string, Bucket)>

  /**
   * The JSON description of a concept. The optional members are `None`
   * when absent; the flags are already defaulted to false and read as
   * booleans.
   */
  datatype ConceptJson = ConceptJson(
    labels: Option<LabelMap>,
    isAbstract: bool,
    isDimension: bool,
    isHypercube: bool,
    isNillable: bool,
    isNumeric: bool,
    periodType: Option<string>,
    dataType: Option<QName>,
    baseDataType: Option<QName>,
    typedElement: Option<QName>,
    eeDomainMembers: Option<seq<QName>>)

  /**
   * The enumeration domain before and after reification: the member names
   * as written, then the members found in the taxonomy.
   */
  datatype EEDomain =
    | Unresolved(memberNames: Option<seq<QName>>)
    | Resolved(members: Option<seq<QName>>)

  datatype Concept = Concept(
    qname: QName,
    labels: LabelMap,
    isAbstract: bool,
    isDimension: bool,
    isHypercube: bool,
    isNillable: bool,
    isNumeric: bool,
    periodType: PeriodType,
    dataType: QName,
    baseDataType: QName,
    typedElement: Option<QName>,
    ee: EEDomain)

  /** The three required members, checked in the order the constructor checks them. */
  predicate HasRequiredMembers(details: ConceptJson) {
    details.periodType.Some? && details.dataType.Some? && details.baseDataType.Some?
  }

  /**
   * `Concept.__init__`. Missing labels raise `KeyError`; a missing period
   * type, data type or base data type raises `TaxonomyException`; a period
   * type outside the enumeration raises `ValueError` before the data types
   * are looked at.
   */
  function NewConcept(qname: QName, details: ConceptJson): (r: Result<Concept, Error>)
    ensures details.labels.None? ==> r == Err(KeyError("labels"))
    ensures r.Ok? <==>
      details.labels.Some? && HasRequiredMembers(details)
      && ParsePeriodType(details.periodType.value).Ok?
    ensures r.Ok? ==>
      && r.value.qname == qname
      && r.value.labels == details.labels.value
      && PeriodTypeText(r.value.periodType) == details.periodType.value
      && r.value.dataType == details.dataType.value
      && r.value.baseDataType == details.baseDataType.value
      && r.value.typedElement == details.typedElement
      && r.value.ee == Unresolved(details.eeDomainMembers)
      && r.value.isAbstract == details.isAbstract
      && r.value.isDimension == details.isDimension
      && r.value.isHypercube == details.isHypercube
      && r.value.isNillable == details.isNillable
      && r.value.isNumeric == details.isNumeric
  {
    if details.labels.None? then Err(KeyError("labels"))
    else if details.periodType.None? then Err(TaxonomyException(NoPeriodType))
    else
      var period :- ParsePeriodType(details.periodType.value);
      if details.dataType.None? then Err(TaxonomyException(NoDataType))
      else if details.baseDataType.None? then Err(TaxonomyException(NoBaseDataType))
      else Ok(Concept(qname, details.labels.value, details.isAbstract, details.isDimension,
                      details.isHypercube, details.isNillable, details.isNumeric, period,
                      details.dataType.value, details.baseDataType.value,
                      details.typedElement, Unresolved(details.eeDomainMembers)))
  }

  /**
   * With labels present and a valid period type if one is given, building a
   * concept raises `TaxonomyException` exactly when one of the three
   * required members is missing.
   */
  lemma MissingMemberIsTaxonomyException(qname: QName, details: ConceptJson)
    requires details.labels.Some?
    requires details.periodType.Some? ==> details.periodType.value in {"duration", "instant"}
    ensures NewConcept(qname, details).Err? <==> !HasRequiredMembers(details)
    ensures NewConcept(qname, details).Err? ==> NewConcept(qname, details).error.TaxonomyException?
  {
  }

  /** The first name in `names` that `known` lacks. */
  function FirstMissing(names: seq<QName>, known: set<QName>): (r: Option<QName>)
    ensures r.None? <==> forall i :: 0 <= i < |names| ==> names[i] in known
    ensures r.Some? ==> r.value in names && r.value !in known
  {
    if names == [] then None
    else if names[0] !in known then Some(names[0])
    else FirstMissing(names[1..], known)
  }

  /**
   * `_reifyUsingTaxonomy`: resolves the enumeration member names against the
   * concepts of the taxonomy, once. A second attempt raises
   * `TaxonomyException`, a member the taxonomy lacks raises `KeyError`.
   */
  function Reify(c: Concept, known: set<QName>): (r: Result<Concept, Error>)
    ensures c.ee.Resolved? ==> r == Err(TaxonomyException(AlreadyReified))
    ensures r.Ok? <==>
      c.ee.Unresolved? &&
      (c.ee.memberNames.Some? ==> forall i :: 0 <= i < |c.ee.memberNames.value| ==> c.ee.memberNames.value[i] in known)
    ensures r.Ok? ==> r.value == c.(ee := Resolved(c.ee.memberNames))
    ensures r.Err? && c.ee.Unresolved? ==>
      r.error.ConceptKeyError? && r.error.qname in c.ee.memberNames.value && r.error.qname !in known
  {
    match c.ee
    case Resolved(_) => Err(TaxonomyException(AlreadyReified))
    case Unresolved(None) => Ok(c.(ee := Resolved(None)))
    case Unresolved(Some(names)) =>
      match FirstMissing(names, known)
      case Some(m) => Err(ConceptKeyError(m))
      case None => Ok(c.(ee := Resolved(Some(names))))
  }

  /** Reification happens at most once. */
  lemma ReifyOnce(c: Concept, known: set<QName>, again: set<QName>)
    requires Reify(c, known).Ok?
    ensures Reify(Reify(c, known).value, again) == Err(TaxonomyException(AlreadyReified))
  {
  }

  /** `getEEDomain`: the resolved members, or none. */
  function EEDomainOf(c: Concept): seq<QName> {
    match c.ee
    case Resolved(Some(ms)) => ms
    case _ => []
  }

  /** After reification every domain member is a concept of the taxonomy, in the order written. */
  lemma ReifiedDomainKnown(c: Concept, known: set<QName>)
    requires Reify(c, known).Ok?
    ensures EEDomainOf(Reify(c, known).value) == (if c.ee.memberNames.Some? then c.ee.memberNames.value else [])
    ensures forall i :: 0 <= i < |EEDomainOf(Reify(c, known).value)| ==> EEDomainOf(Reify(c, known).value)[i] in known
  {
  }

  // The classification properties.

  predicate IsTypedDimension(c: Concept) {
    c.isDimension && c.typedElement.Some?
  }

  predicate IsExplicitDimension(c: Concept) {
    c.isDimension && !IsTypedDimension(c)
  }

  predicate IsReportable(c: Concept) {
    !c.isAbstract
  }

  predicate IsMonetary(c: Concept) {
    c.baseDataType == QName(XbrliNs, "monetaryItemType")
  }

  predicate IsTextblock(c: Concept) {
    c.dataType.localName == "textBlockItemType"
  }

  predicate IsDate(c: Concept) {
    c.baseDataType == QName(XbrliNs, "dateItemType")
  }

  predicate IsBoolean(c: Concept) {
    c.baseDataType == QName(XbrliNs, "booleanItemType")
  }

  predicate IsEnumerationSingle(c: Concept) {
    c.dataType == QName(Enum2Ns, "enumerationItemType")
  }

  predicate IsEnumerationSet(c: Concept) {
    c.dataType == QName(Enum2Ns, "enumerationSetItemType")
  }

  /** A new concept's classification is read off the JSON details it was built from. */
  lemma ClassifiedFromJson(qname: QName, details: ConceptJson)
    requires NewConcept(qname, details).Ok?
    ensures var c := NewConcept(qname, details).value;
      && (IsTypedDimension(c) <==> details.isDimension && details.typedElement.Some?)
      && (IsExplicitDimension(c) <==> details.isDimension && details.typedElement.None?)
      && (IsReportable(c) <==> !details.isAbstract)
      && (IsMonetary(c) <==> details.baseDataType == Some(QName(XbrliNs, "monetaryItemType")))
      && (IsTextblock(c) <==> details.dataType.Some? && details.dataType.value.localName == "textBlockItemType")
      && (IsDate(c) <==> details.baseDataType == Some(QName(XbrliNs, "dateItemType")))
      && (IsBoolean(c) <==> details.baseDataType == Some(QName(XbrliNs, "booleanItemType")))
      && (IsEnumerationSingle(c) <==> details.dataType == Some(QName(Enum2Ns, "enumerationItemType")))
      && (IsEnumerationSet(c) <==> details.dataType == Some(QName(Enum2Ns, "enumerationSetItemType")))
  {
  }

  /** Reification resolves the enumeration domain only, so no classification changes. */
  lemma ReifyKeepsClassification(c: Concept, known: set<QName>)
    requires Reify(c, known).Ok?
    ensures var r := Reify(c, known).value;
      && IsTypedDimension(r) == IsTypedDimension(c) && IsExplicitDimension(r) == IsExplicitDimension(c)
      && IsReportable(r) == IsReportable(c) && IsMonetary(r) == IsMonetary(c) && IsTextblock(r) == IsTextblock(c)
      && IsDate(r) == IsDate(c) && IsBoolean(r) == IsBoolean(c)
      && IsEnumerationSingle(r) == IsEnumerationSingle(c) && IsEnumerationSet(r) == IsEnumerationSet(c)
  {
  }
}

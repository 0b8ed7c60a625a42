/**
 * The lookups a built taxonomy answers: concepts by QName, name and label,
 * the dimensional queries, the default language; and what they promise
 * about the taxonomy they were built from.
 */
module TaxonomyQueries {
  import opened Wrappers
  import opened Dicts
  import opened Text
  import opened QNames
  import opened Errors
  import opened Concepts
  import opened Presentation
  import opened StringUtil
  import opened TaxonomyInfo
  import opened LanguageCounts
  import opened Taxonomies
  import Localise

  function ListAt<K, V>(m: map<K, seq<V>>, k: K): seq<V> {
    if k in m then m[k] else []
  }

  function SetAt<K, V>(m: map<K, set<V>>, k: K): set<V> {
    if k in m then m[k] else {}
  }

  /** `getConcept`: a QName the taxonomy lacks raises `KeyError`. */
  function GetConcept(t: Taxonomy, q: QName): (r: Result<Concept, Error>)
    ensures r.Err? <==> q !in t.concepts
    ensures r.Err? ==> r.error == ConceptKeyError(q)
  {
    if q in t.concepts then Ok(t.concepts[q]) else Err(ConceptKeyError(q))
  }

  /** The `match len(possible)` of a lookup by name: none, the one listed, or ambiguous. */
  function OneOfList(possible: seq<QName>): (r: Result<Option<QName>, Error>)
    ensures r == Ok(None) <==> possible == []
    ensures r.Ok? && r.value.Some? <==> |possible| == 1
    ensures r.Ok? && r.value.Some? ==> r.value.value == possible[0]
    ensures r.Err? ==> r.error == AmbiguousComponentException(set q | q in possible) && |possible| >= 2
  {
    if |possible| == 0 then Ok(None)
    else if |possible| == 1 then Ok(Some(possible[0]))
    else Err(AmbiguousComponentException(set q | q in possible))
  }

  /** The `match len(possible)` of a lookup by label: none, the only member, or ambiguous. */
  function OneOfSet(possible: set<QName>): (r: Result<Option<QName>, Error>)
    ensures r == Ok(None) <==> possible == {}
    ensures r.Ok? && r.value.Some? <==> |possible| == 1
    ensures r.Ok? && r.value.Some? ==> possible == {r.value.value}
    ensures r.Err? ==> r.error == AmbiguousComponentException(possible) && |possible| >= 2
  {
    if |possible| == 0 then Ok(None)
    else if |possible| == 1 then
      var q :| q in possible;
      assert possible - {q} == {} by {
        assert |possible - {q}| == 0;
      }
      Ok(Some(q))
    else Err(AmbiguousComponentException(possible))
  }

  /** `getConceptForName`: the concepts listed under the local name, duplicates counted. */
  function GetConceptForName(t: Taxonomy, name: string): (r: Result<Option<QName>, Error>)
    ensures r == Ok(None) <==> ListAt(t.byName, name) == []
    ensures r.Ok? && r.value.Some? ==> ListAt(t.byName, name) == [r.value.value]
    ensures |ListAt(t.byName, name)| == 1 ==> r == Ok(Some(ListAt(t.byName, name)[0]))
    ensures r.Err? <==> |ListAt(t.byName, name)| >= 2
  {
    OneOfList(ListAt(t.byName, name))
  }

  /**
   * The candidates `getConceptForLabel` settles on: those with the label as
   * standard label; failing that, those with the dash-normalised label as a
   * pretend key; failing that, the lower-cased one.
   */
  function LabelCandidates(t: Taxonomy, text: string): set<QName> {
    var exact := SetAt(t.byStandardLabel, text);
    if exact != {} then exact
    else
      var normalised := UnicodeDashNormalization(text);
      var pretend := SetAt(t.byPretendLabel, normalised);
      if pretend != {} then pretend else SetAt(t.byPretendLabel, Lower(normalised))
  }

  /** `getConceptForLabel`: none, the only candidate, or ambiguous. */
  function GetConceptForLabel(t: Taxonomy, text: string): (r: Result<Option<QName>, Error>)
    ensures r == Ok(None) <==> LabelCandidates(t, text) == {}
    ensures r.Ok? && r.value.Some? ==> LabelCandidates(t, text) == {r.value.value}
    ensures |LabelCandidates(t, text)| == 1 ==> r.Ok? && r.value.Some?
    ensures r.Err? <==> |LabelCandidates(t, text)| >= 2
  {
    OneOfSet(LabelCandidates(t, text))
  }

  // The dimensional queries. A base set is looked up in `baseSets` as the
  // source indexes `self._baseSets[b]`.

  function CubesOf(t: Taxonomy, b: BaseSet): seq<Cube> {
    if b in t.baseSets then t.baseSets[b] else []
  }

  function TypedDimensionsForHypercube(t: Taxonomy, hc: QName): set<QName> {
    set b, cube, td | b in ListAt(t.byCube, hc) && cube in CubesOf(t, b) && td in cube.typedDimensions :: td
  }

  function ExplicitDimensionsForHypercube(t: Taxonomy, hc: QName): set<QName> {
    set b, cube, ed | b in ListAt(t.byCube, hc) && cube in CubesOf(t, b) && ed in Keys(cube.explicitDimensions) :: ed
  }

  /** `getDimensionsForHypercube`: the explicit and the typed dimensions of every cube of the hypercube's base sets. */
  function DimensionsForHypercube(t: Taxonomy, hc: QName): set<QName> {
    set b, cube, d | b in ListAt(t.byCube, hc) && cube in CubesOf(t, b)
                     && d in Keys(cube.explicitDimensions) + cube.typedDimensions :: d
  }

  /** `getPrimaryItemsForHypercube`: the primary items of every cube of the base sets using the hypercube. */
  function PrimaryItemsForHypercube(t: Taxonomy, hc: QName): (r: set<QName>)
    ensures hc !in t.byCube ==> r == {}
  {
    set b, cube, p | b in ListAt(t.byCube, hc) && cube in CubesOf(t, b) && p in Values(cube.primaryItems) :: p
  }

  /** `_getHypercubesForPrimaryItem`: every hypercube of the base sets the primary item appears in. */
  function HypercubesForPrimaryItem(t: Taxonomy, p: QName): (r: set<QName>)
    ensures p !in t.byPrimaryItem ==> r == {}
  {
    set b, hc | b in ListAt(t.byPrimaryItem, p) && hc in b.hypercubes :: hc
  }

  function ExplicitDimensionsForPrimaryItem(t: Taxonomy, p: QName): (r: set<QName>)
    ensures p !in t.byPrimaryItem ==> r == {}
  {
    set hc, ed | hc in HypercubesForPrimaryItem(t, p) && ed in ExplicitDimensionsForHypercube(t, hc) :: ed
  }

  function TypedDimensionsForPrimaryItem(t: Taxonomy, p: QName): (r: set<QName>)
    ensures p !in t.byPrimaryItem ==> r == {}
  {
    set hc, td | hc in HypercubesForPrimaryItem(t, p) && td in TypedDimensionsForHypercube(t, hc) :: td
  }

  /** The explicit dimensions, across the primary item's base sets, whose domain holds the member. */
  function DomainCandidates(t: Taxonomy, p: QName, member: QName): set<QName> {
    set b, cube, i | b in ListAt(t.byPrimaryItem, p) && cube in CubesOf(t, b)
                     && 0 <= i < |cube.explicitDimensions| && member in cube.explicitDimensions[i].1
                     :: cube.explicitDimensions[i].0
  }

  /** `getExplicitDimensionForDomainMember`. */
  function ExplicitDimensionForDomainMember(t: Taxonomy, p: QName, member: QName): (r: Result<Option<QName>, Error>)
    ensures p !in t.byPrimaryItem ==> r == Ok(None)
    ensures p in t.byPrimaryItem ==> (r == Ok(None) <==> DomainCandidates(t, p, member) == {})
    ensures r.Ok? && r.value.Some? ==> p in t.byPrimaryItem && DomainCandidates(t, p, member) == {r.value.value}
    ensures p in t.byPrimaryItem && |DomainCandidates(t, p, member)| == 1 ==> r.Ok? && r.value.Some?
    ensures r.Err? <==> p in t.byPrimaryItem && |DomainCandidates(t, p, member)| >= 2
  {
    if p !in t.byPrimaryItem then Ok(None) else OneOfSet(DomainCandidates(t, p, member))
  }

  /** `getDomainMembersForExplicitDimension`: an unknown dimension has an empty domain. */
  function DomainMembersForExplicitDimension(t: Taxonomy, d: QName): (r: set<QName>)
    ensures d !in t.domains ==> r == {}
  {
    SetAt(t.domains, d)
  }

  function DimensionDefault(t: Taxonomy, d: QName): Option<QName> {
    if d in t.dimensionDefaults then Some(t.dimensionDefaults[d]) else None
  }

  function DefaultedDimensions(t: Taxonomy): set<QName> {
    t.dimensionDefaults.Keys
  }

  /** `emptyHypercubes`: the hypercube concepts no base set uses. */
  function EmptyHypercubes(t: Taxonomy): set<QName> {
    set q | q in t.concepts && t.concepts[q].isHypercube && q !in t.hypercubes
  }

  // Languages.

  function DefaultLanguage(t: Taxonomy): Option<string> {
    DefaultLanguageOf(t.groups, t.conceptOrder, t.concepts)
  }

  /** `supportedLanguages`: every label language, each once. */
  function SupportedLanguages(t: Taxonomy): seq<string> {
    UniqueList(LanguageStream(t.groups, t.conceptOrder, t.concepts))
  }

  /** `Taxonomy.getBestSupportedLanguage`: negotiation against the taxonomy's own languages. */
  function BestSupportedLanguage(t: Taxonomy, requested: string): Result<Option<string>, Localise.LanguageError> {
    Localise.GetBestSupportedLanguage(requested, SupportedLanguages(t), DefaultLanguage(t))
  }

  /**
   * The default language is one of the supported ones, so negotiating
   * against the taxonomy never fails; it is `None` only without labels.
   */
  lemma BestSupportedLanguageTotal(t: Taxonomy, requested: string)
    ensures BestSupportedLanguage(t, requested).Ok?
    ensures DefaultLanguage(t).None? <==> SupportedLanguages(t) == []
  {
    var stream := LanguageStream(t.groups, t.conceptOrder, t.concepts);
    if DefaultLanguage(t).Some? {
      var i :| 0 <= i < |stream| && stream[i] == DefaultLanguage(t).value;
    }
  }

  /** `getDimensionsForHypercube` is the union of the explicit and the typed ones. */
  lemma DimensionsForHypercubeUnion(t: Taxonomy, hc: QName)
    ensures DimensionsForHypercube(t, hc) == ExplicitDimensionsForHypercube(t, hc) + TypedDimensionsForHypercube(t, hc)
  {
    forall d | d in DimensionsForHypercube(t, hc)
      ensures d in ExplicitDimensionsForHypercube(t, hc) + TypedDimensionsForHypercube(t, hc)
    {
      var b, cube :| b in ListAt(t.byCube, hc) && cube in CubesOf(t, b) && d in Keys(cube.explicitDimensions) + cube.typedDimensions;
      if d !in Keys(cube.explicitDimensions) {
        assert d in cube.typedDimensions;
      }
    }
    forall d | d in ExplicitDimensionsForHypercube(t, hc) + TypedDimensionsForHypercube(t, hc)
      ensures d in DimensionsForHypercube(t, hc)
    {
      var b, cube :| b in ListAt(t.byCube, hc) && cube in CubesOf(t, b) && (d in Keys(cube.explicitDimensions) || d in cube.typedDimensions);
      assert d in Keys(cube.explicitDimensions) + cube.typedDimensions;
    }
  }
}

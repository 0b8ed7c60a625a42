/**
 * The taxonomy as `Taxonomy.__init__` leaves it: reified concepts,
 * presentation groups, the name and label indices and the dimensional
 * tables. This module holds the data model and the specification of the
 * construction, one step at a time; `TaxonomyBuild` performs it.
 */
module Taxonomies {
  import opened Wrappers
  import opened Dicts
  import opened Text
  import opened QNames
  import opened Errors
  import opened Concepts
  import opened Labels
  import opened Presentation
  import opened StringUtil
  import opened Utr
  import opened TaxonomyInfo
  import opened LanguageCounts

  /** `DimensionContainerType`. */
  datatype Container = Segment | Scenario

  function ContainerText(c: Container): string {
    match c
    case Segment => "segment"
    case Scenario => "scenario"
  }

  /** `DimensionContainerType(s)`: the enumeration accepts exactly its two values. */
  function ParseContainer(s: string): (r: Result<Container, Error>)
    ensures r.Ok? ==> ContainerText(r.value) == s
    ensures r.Err? ==> r.error == ValueError(s) && s != "segment" && s != "scenario"
  {
    if s == "segment" then Ok(Segment)
    else if s == "scenario" then Ok(Scenario)
    else Err(ValueError(s))
  }

  /** A base set: an extended link role and the hypercubes its cubes name. */
  datatype BaseSet = BaseSet(roleUri: string, hypercubes: set<QName>)

  /**
   * One cube of the `dimensions` JSON. The optional members are `None`
   * when absent; `closed` is already read as a boolean.
   */
  datatype CubeJson = CubeJson(
    closed: Option<bool>,
    contextElement: Option<string>,
    primaryItems: Option<seq<(int, QName)>>,
    explicitDimensions: Option<seq<(QName, seq<QName>)>>,
    typedDimensions: Option<seq<QName>>)

  /** A cube once read: its primary items with their depths, and each explicit dimension with its domain. */
  datatype Cube = Cube(
    closed: bool,
    container: Container,
    primaryItems: seq<(int, QName)>,
    explicitDimensions: seq<(QName, set<QName>)>,
    typedDimensions: seq<QName>)

  /** The `dimensions` JSON: the popped `_defaults` member, then the cubes of each role in order. */
  datatype DimensionsJson = DimensionsJson(
    defaults: Option<seq<(QName, QName)>>,
    roles: seq<(string, seq<(QName, CubeJson)>)>)

  predicate AllKnown(names: seq<QName>, known: set<QName>) {
    forall i :: 0 <= i < |names| ==> names[i] in known
  }

  /** Every concept a cube names is known. */
  predicate CubeKnown(cube: Cube, known: set<QName>) {
    AllKnown(Values(cube.primaryItems), known)
    && (forall i :: 0 <= i < |cube.explicitDimensions| ==>
          cube.explicitDimensions[i].0 in known && cube.explicitDimensions[i].1 <= known)
    && AllKnown(cube.typedDimensions, known)
  }

  /** The explicit-dimension comprehension: per item the dimension, then its members, are looked up. */
  function ExplicitDimensionsOf(known: set<QName>, dims: seq<(QName, seq<QName>)>): (r: Result<seq<(QName, set<QName>)>, Error>)
    ensures r.Ok? <==> forall i :: 0 <= i < |dims| ==> dims[i].0 in known && AllKnown(dims[i].1, known)
    ensures r.Ok? ==> |r.value| == |dims| && forall i :: 0 <= i < |dims| ==>
      r.value[i].0 == dims[i].0 && forall m :: m in r.value[i].1 <==> m in dims[i].1
    ensures r.Err? ==> r.error.ConceptKeyError? && r.error.qname !in known
  {
    if dims == [] then Ok([])
    else if dims[0].0 !in known then Err(ConceptKeyError(dims[0].0))
    else
      match FirstMissing(dims[0].1, known)
      case Some(m) => Err(ConceptKeyError(m))
      case None =>
        var rest := ExplicitDimensionsOf(known, dims[1..]);
        assert (forall i :: 0 <= i < |dims| ==> dims[i].0 in known && AllKnown(dims[i].1, known))
          <==> (forall i :: 0 <= i < |dims[1..]| ==> dims[1..][i].0 in known && AllKnown(dims[1..][i].1, known)) by {
          assert forall i :: 0 < i < |dims| ==> dims[i] == dims[1..][i - 1];
        }
        if rest.Err? then rest
        else
          var r := [(dims[0].0, set m | m in dims[0].1)] + rest.value;
          assert forall i :: 0 < i < |dims| ==> r[i] == rest.value[i - 1] && dims[i] == dims[1..][i - 1];
          Ok(r)
  }

  /**
   * One cube of a base set, read in the order the constructor pops its
   * members: `xbrldt:closed`, `xbrldt:contextElement`, the primary items,
   * the explicit dimensions, the typed dimensions.
   */
  function ReadCube(known: set<QName>, details: CubeJson): (r: Result<Cube, Error>)
    ensures details.closed.None? ==> r == Err(KeyError("xbrldt:closed"))
    ensures details.closed.Some? && details.contextElement.None? ==> r == Err(KeyError("xbrldt:contextElement"))
    ensures r.Ok? ==>
      && r.value.closed == details.closed.value
      && ContainerText(r.value.container) == details.contextElement.value
      && r.value.primaryItems == details.primaryItems.GetOr([])
      && r.value.typedDimensions == details.typedDimensions.GetOr([])
      && |r.value.explicitDimensions| == |details.explicitDimensions.GetOr([])|
      && CubeKnown(r.value, known)
    ensures r.Err? ==> r.error.KeyError? || r.error.ValueError? || (r.error.ConceptKeyError? && r.error.qname !in known)
  {
    if details.closed.None? then Err(KeyError("xbrldt:closed"))
    else if details.contextElement.None? then Err(KeyError("xbrldt:contextElement"))
    else
      var container :- ParseContainer(details.contextElement.value);
      var items := details.primaryItems.GetOr([]);
      match FirstMissing(Values(items), known)
      case Some(q) => Err(ConceptKeyError(q))
      case None =>
        var dims :- ExplicitDimensionsOf(known, details.explicitDimensions.GetOr([]));
        var typed := details.typedDimensions.GetOr([]);
        match FirstMissing(typed, known)
        case Some(q) => Err(ConceptKeyError(q))
        case None => Ok(Cube(details.closed.value, container, items, dims, typed))
  }

  /** The dictionaries and sets the dimension loop of the constructor fills. */
  datatype DimState = DimState(
    baseSets: map<BaseSet, seq<Cube>>,
    byCube: map<QName, seq<BaseSet>>,
    byPrimaryItem: map<QName, seq<BaseSet>>,
    domains: map<QName, set<QName>>,
    containers: set<Container>,
    openHypercubes: set<(string, QName)>)

  const NoDimensions: DimState := DimState(map[], map[], map[], map[], {}, {})

  /** `d[k].append(v)` on a `defaultdict(list)`. */
  function AppendTo<K, V>(m: map<K, seq<V>>, k: K, v: V): (r: map<K, seq<V>>)
    ensures r.Keys == m.Keys + {k}
    ensures r[k] == (if k in m then m[k] else []) + [v]
    ensures forall j :: j in m && j != k ==> r[j] == m[j]
  {
    m[k := (if k in m then m[k] else []) + [v]]
  }

  /** The loop over the primary items: each one gets the base set appended. */
  function AddPrimaryItems(m: map<QName, seq<BaseSet>>, items: seq<(int, QName)>, b: BaseSet): map<QName, seq<BaseSet>>
    decreases |items|
  {
    if items == [] then m else AddPrimaryItems(AppendTo(m, items[0].1, b), items[1..], b)
  }

  /** The loop over the explicit dimensions: each domain is added to its dimension's. */
  function AddDomains(m: map<QName, set<QName>>, dims: seq<(QName, set<QName>)>): map<QName, set<QName>>
    decreases |dims|
  {
    if dims == [] then m
    else AddDomains(m[dims[0].0 := (if dims[0].0 in m then m[dims[0].0] else {}) + dims[0].1], dims[1..])
  }

  /** What reading one cube of a base set adds to the tables. */
  function AddCube(s: DimState, role: string, b: BaseSet, hc: QName, cube: Cube): DimState {
    DimState(
      AppendTo(s.baseSets, b, cube),
      AppendTo(s.byCube, hc, b),
      AddPrimaryItems(s.byPrimaryItem, cube.primaryItems, b),
      AddDomains(s.domains, cube.explicitDimensions),
      s.containers + {cube.container},
      if cube.closed then s.openHypercubes else s.openHypercubes + {(role, hc)})
  }

  /** The inner loop over the cubes of one role. */
  function CubesFrom(known: set<QName>, s: DimState, role: string, b: BaseSet, cubes: seq<(QName, CubeJson)>)
    : Result<DimState, Error>
    decreases |cubes|
  {
    if cubes == [] then Ok(s)
    else
      var cube :- ReadCube(known, cubes[0].1);
      CubesFrom(known, AddCube(s, role, b, cubes[0].0, cube), role, b, cubes[1..])
  }

  function BaseSetOf(role: string, cubes: seq<(QName, CubeJson)>): BaseSet {
    BaseSet(role, set q | q in Keys(cubes))
  }

  /** The outer loop over the roles: the cube concepts are looked up first, then each cube is read. */
  function RolesFrom(known: set<QName>, s: DimState, roles: seq<(string, seq<(QName, CubeJson)>)>)
    : Result<DimState, Error>
    decreases |roles|
  {
    if roles == [] then Ok(s)
    else
      var role := roles[0].0;
      var cubes := roles[0].1;
      match FirstMissing(Keys(cubes), known)
      case Some(q) => Err(ConceptKeyError(q))
      case None =>
        var s' :- CubesFrom(known, s, role, BaseSetOf(role, cubes), cubes);
        RolesFrom(known, s', roles[1..])
  }

  /** The `_defaults` comprehension: dimension then member are looked up; a later entry wins. */
  function DefaultsFrom(known: set<QName>, m: map<QName, QName>, pairs: seq<(QName, QName)>): Result<map<QName, QName>, Error>
    decreases |pairs|
  {
    if pairs == [] then Ok(m)
    else if pairs[0].0 !in known then Err(ConceptKeyError(pairs[0].0))
    else if pairs[0].1 !in known then Err(ConceptKeyError(pairs[0].1))
    else DefaultsFrom(known, m[pairs[0].0 := pairs[0].1], pairs[1..])
  }

  /** The dimension container: the one asked for, or `Scenario` when no cube asks. */
  function ContainerOf(containers: set<Container>): Container {
    if Segment in containers then Segment else Scenario
  }

  // Concepts and their indices.

  function QNamesOf(cs: seq<Concept>): (r: seq<QName>)
    ensures |r| == |cs| && forall i :: 0 <= i < |cs| ==> r[i] == cs[i].qname
  {
    seq(|cs|, i requires 0 <= i < |cs| => cs[i].qname)
  }

  /** `{concept.qname: concept for concept in concepts.values()}`: a later concept wins. */
  function ConceptMap(cs: seq<Concept>): (m: map<QName, Concept>)
    ensures m.Keys == set i | 0 <= i < |cs| :: cs[i].qname
    ensures forall q :: q in m ==> m[q].qname == q
  {
    if cs == [] then map[]
    else
      var front := ConceptMap(cs[..|cs| - 1]);
      assert forall i :: 0 <= i < |cs| - 1 ==> cs[..|cs| - 1][i] == cs[i];
      front[cs[|cs| - 1].qname := cs[|cs| - 1]]
  }

  /** The reification loop: every concept in order, against the concepts of the taxonomy. */
  function ReifyAll(cs: seq<Concept>, known: set<QName>, acc: seq<Concept>): Result<seq<Concept>, Error> {
    if cs == [] then Ok(acc)
    else
      var c :- Reify(cs[0], known);
      ReifyAll(cs[1..], known, acc + [c])
  }

  /** The groups, one per role of the presentation JSON, in order. */
  function GroupsFrom(concepts: map<QName, Concept>, presentation: seq<(string, GroupJson)>, acc: seq<PresentationGroup>)
    : Result<seq<PresentationGroup>, Error>
  {
    if presentation == [] then Ok(acc)
    else
      var g :- GroupSpec(concepts, presentation[0].0, presentation[0].1);
      GroupsFrom(concepts, presentation[1..], acc + [g])
  }

  function LowerAll(xs: seq<string>): (r: seq<string>)
    ensures |r| == |xs| && forall i :: 0 <= i < |xs| ==> r[i] == Lower(xs[i])
  {
    seq(|xs|, i requires 0 <= i < |xs| => Lower(xs[i]))
  }

  function GroupLanguages(groups: seq<PresentationGroup>): seq<string> {
    if groups == [] then [] else LowerAll(Keys(groups[0].labels)) + GroupLanguages(groups[1..])
  }

  function ConceptLanguages(order: seq<QName>, concepts: map<QName, Concept>): seq<string> {
    if order == [] then []
    else
      var own := if order[0] in concepts then LowerAll(Keys(concepts[order[0]].labels)) else [];
      own + ConceptLanguages(order[1..], concepts)
  }

  /** The stream the language counter counts: group label languages, then concept label languages. */
  function LanguageStream(groups: seq<PresentationGroup>, order: seq<QName>, concepts: map<QName, Concept>): seq<string> {
    GroupLanguages(groups) + ConceptLanguages(order, concepts)
  }

  /** `concept.getStandardLabel()` with every keyword argument at its default. */
  function StandardLabel(c: Concept, defaultLanguage: Option<string>, prefixes: seq<(string, string)>): Option<string> {
    LabelFor(c.labels, defaultLanguage, QNameText(prefixes, c.qname), StandardLabelQuery(None, None, false, false, false))
  }

  /** The three pretend keys of a text: dash-normalised, then before the last `[` and stripped, then lower-cased. */
  function PretendKeys(text: string): (r: seq<string>)
    ensures |r| == 3 && r[0] == UnicodeDashNormalization(text) && r[2] == Lower(r[1])
  {
    var stripped := UnicodeDashNormalization(text);
    var noSuffix := Strip(BeforeLast(stripped, '['));
    [stripped, noSuffix, Lower(noSuffix)]
  }

  /** `d[k].append(v)` on a `defaultdict(list)` that is later frozen into sets. */
  function AddTo(m: map<string, set<QName>>, k: string, q: QName): (r: map<string, set<QName>>)
    ensures r.Keys == m.Keys + {k} && r[k] == (if k in m then m[k] else {}) + {q}
    ensures forall j :: j in m && j != k ==> r[j] == m[j]
  {
    m[k := (if k in m then m[k] else {}) + {q}]
  }

  function NameIndex(m: map<string, seq<QName>>, cs: seq<Concept>): map<string, seq<QName>>
    decreases |cs|
  {
    if cs == [] then m else NameIndex(AppendTo(m, cs[0].qname.localName, cs[0].qname), cs[1..])
  }

  datatype LabelIndices = LabelIndices(byStandardLabel: map<string, set<QName>>, byPretendLabel: map<string, set<QName>>)

  /** One labelled concept entered under its label and under its three pretend keys. */
  function IndexLabel(ix: LabelIndices, text: string, q: QName): LabelIndices {
    var keys := PretendKeys(text);
    LabelIndices(AddTo(ix.byStandardLabel, text, q),
                 AddTo(AddTo(AddTo(ix.byPretendLabel, keys[0], q), keys[1], q), keys[2], q))
  }

  /** The label loop of the constructor: concepts without a standard label are skipped. */
  function LabelIndex(ix: LabelIndices, cs: seq<Concept>, defaultLanguage: Option<string>, prefixes: seq<(string, string)>)
    : LabelIndices
    decreases |cs|
  {
    if cs == [] then ix
    else
      var found := StandardLabel(cs[0], defaultLanguage, prefixes);
      LabelIndex(if found.Some? then IndexLabel(ix, found.value, cs[0].qname) else ix, cs[1..], defaultLanguage, prefixes)
  }

  datatype Taxonomy = Taxonomy(
    entryPoint: string,
    prefixes: seq<(string, string)>,
    concepts: map<QName, Concept>,
    conceptOrder: seq<QName>,
    groups: seq<PresentationGroup>,
    byName: map<string, seq<QName>>,
    byStandardLabel: map<string, set<QName>>,
    byPretendLabel: map<string, set<QName>>,
    dimensionDefaults: map<QName, QName>,
    baseSets: map<BaseSet, seq<Cube>>,
    byCube: map<QName, seq<BaseSet>>,
    byPrimaryItem: map<QName, seq<BaseSet>>,
    domains: map<QName, set<QName>>,
    hypercubes: set<QName>,
    openHypercubes: set<(string, QName)>,
    container: Container,
    utr: Utr)

  /** `defaultLanguage`: the most used label language, lower-cased; `None` when there are no labels. */
  function DefaultLanguageOf(groups: seq<PresentationGroup>, order: seq<QName>, concepts: map<QName, Concept>): Option<string> {
    MostCommon(LanguageStream(groups, order, concepts))
  }

  /** The hypercubes of the base sets that have cubes. */
  function HypercubesOf(baseSets: map<BaseSet, seq<Cube>>): set<QName> {
    set b, q | b in baseSets && q in b.hypercubes :: q
  }

  /** The part of the construction after the groups: indices, defaults, dimensions and the container rule. */
  function Finish(entryPoint: string, prefixes: seq<(string, string)>, cs: seq<Concept>, concepts: map<QName, Concept>,
                  groups: seq<PresentationGroup>, dims: DimensionsJson, utr: Utr): Result<Taxonomy, Error>
  {
    var known := concepts.Keys;
    var order := UniqueList(QNamesOf(cs));
    var language := DefaultLanguageOf(groups, order, concepts);
    var byName := NameIndex(map[], cs);
    var ix := LabelIndex(LabelIndices(map[], map[]), cs, language, prefixes);
    var defaults :- DefaultsFrom(known, map[], dims.defaults.GetOr([]));
    var s :- RolesFrom(known, NoDimensions, dims.roles);
    if |s.containers| >= 2 then Err(TaxonomyException(MultipleContainers))
    else
      Ok(Taxonomy(entryPoint, prefixes, concepts, order, groups, byName, ix.byStandardLabel, ix.byPretendLabel,
                  defaults, s.baseSets, s.byCube, s.byPrimaryItem, s.domains, HypercubesOf(s.baseSets),
                  s.openHypercubes, ContainerOf(s.containers), utr))
  }

  /**
   * The specification of `Taxonomy.__init__`: reify every concept, read the
   * groups, then `Finish`. The first failing step decides the error.
   * Reification changes only a concept's enumeration domain, so the name
   * and label indices read the concepts as given; the concept table holds
   * the reified ones.
   */
  function TaxonomySpec(entryPoint: string, prefixes: seq<(string, string)>, cs: seq<Concept>,
                        presentation: seq<(string, GroupJson)>, dims: DimensionsJson, utr: Utr): Result<Taxonomy, Error>
  {
    var known := ConceptMap(cs).Keys;
    var reified :- ReifyAll(cs, known, []);
    var concepts := ConceptMap(reified);
    var groups :- GroupsFrom(concepts, presentation, []);
    Finish(entryPoint, prefixes, cs, concepts, groups, dims, utr)
  }
}

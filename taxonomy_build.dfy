/**
 * `Taxonomy.__init__` step by step: the loops that reify the concepts,
 * read the groups, fill the name and label indices and walk the base sets,
 * each proved to compute its specification in `Taxonomies`.
 */
module TaxonomyBuild {
  import opened Wrappers
  import opened Dicts
  import opened QNames
  import opened Errors
  import opened Concepts
  import opened Labels
  import opened Presentation
  import opened Utr
  import opened TaxonomyInfo
  import opened Taxonomies

  /** The reification loop; the first concept that cannot be reified stops it. */
  method ReifyConcepts(cs: seq<Concept>, known: set<QName>) returns (r: Result<seq<Concept>, Error>)
    ensures r == ReifyAll(cs, known, [])
  {
    var done: seq<Concept> := [];
    var i := 0;
    while i < |cs|
      invariant 0 <= i <= |cs|
      invariant ReifyAll(cs[i..], known, done) == ReifyAll(cs, known, [])
    {
      assert cs[i..][0] == cs[i] && cs[i..][1..] == cs[i + 1..];
      var c := Reify(cs[i], known);
      if c.Err? {
        return Err(c.error);
      }
      done := done + [c.value];
      i := i + 1;
    }
    return Ok(done);
  }

  /** The groups, one `PresentationGroup.fromJSON` per role. */
  method ReadGroups(concepts: map<QName, Concept>, presentation: seq<(string, GroupJson)>)
    returns (r: Result<seq<PresentationGroup>, Error>)
    ensures r == GroupsFrom(concepts, presentation, [])
  {
    var groups: seq<PresentationGroup> := [];
    var i := 0;
    while i < |presentation|
      invariant 0 <= i <= |presentation|
      invariant GroupsFrom(concepts, presentation[i..], groups) == GroupsFrom(concepts, presentation, [])
    {
      assert presentation[i..][0] == presentation[i] && presentation[i..][1..] == presentation[i + 1..];
      var g := GroupFromJson(concepts, presentation[i].0, presentation[i].1);
      if g.Err? {
        return Err(g.error);
      }
      groups := groups + [g.value];
      i := i + 1;
    }
    return Ok(groups);
  }

  /** `_lookupConceptsByName`: every concept appended under its local name. */
  method IndexNames(cs: seq<Concept>) returns (byName: map<string, seq<QName>>)
    ensures byName == NameIndex(map[], cs)
  {
    byName := map[];
    var i := 0;
    while i < |cs|
      invariant 0 <= i <= |cs|
      invariant NameIndex(byName, cs[i..]) == NameIndex(map[], cs)
    {
      assert cs[i..][0] == cs[i] && cs[i..][1..] == cs[i + 1..];
      byName := AppendTo(byName, cs[i].qname.localName, cs[i].qname);
      i := i + 1;
    }
  }

  /** The standard-label and pretend-label indices. */
  method IndexLabels(cs: seq<Concept>, defaultLanguage: Option<string>, prefixes: seq<(string, string)>)
    returns (ix: LabelIndices)
    ensures ix == LabelIndex(LabelIndices(map[], map[]), cs, defaultLanguage, prefixes)
  {
    ix := LabelIndices(map[], map[]);
    var i := 0;
    while i < |cs|
      invariant 0 <= i <= |cs|
      invariant LabelIndex(ix, cs[i..], defaultLanguage, prefixes) == LabelIndex(LabelIndices(map[], map[]), cs, defaultLanguage, prefixes)
    {
      var c := cs[i];
      var found := GetLabelForRole(c.labels, defaultLanguage, QNameText(prefixes, c.qname),
                                   StandardLabelQuery(None, None, false, false, false));
      LabelIndexStep(ix, cs[i..], defaultLanguage, prefixes);
      assert cs[i..][0] == c && cs[i..][1..] == cs[i + 1..];
      if found.Some? {
        ix := IndexLabel(ix, found.value, c.qname);
      }
      i := i + 1;
    }
  }

  /** One turn of the label loop. */
  lemma LabelIndexStep(ix: LabelIndices, cs: seq<Concept>, defaultLanguage: Option<string>, prefixes: seq<(string, string)>)
    requires cs != []
    ensures var found := StandardLabel(cs[0], defaultLanguage, prefixes);
            LabelIndex(ix, cs, defaultLanguage, prefixes)
            == LabelIndex(if found.Some? then IndexLabel(ix, found.value, cs[0].qname) else ix, cs[1..], defaultLanguage, prefixes)
  {
  }

  /** `self._lookupBaseSetByPrimaryItem[r.concept].append(baseSet)` for each primary item. */
  method AppendPrimaryItems(m0: map<QName, seq<BaseSet>>, items: seq<(int, QName)>, b: BaseSet)
    returns (m: map<QName, seq<BaseSet>>)
    ensures m == AddPrimaryItems(m0, items, b)
  {
    m := m0;
    var i := 0;
    while i < |items|
      invariant 0 <= i <= |items|
      invariant AddPrimaryItems(m, items[i..], b) == AddPrimaryItems(m0, items, b)
    {
      assert items[i..][0] == items[i] && items[i..][1..] == items[i + 1..];
      m := AppendTo(m, items[i].1, b);
      i := i + 1;
    }
  }

  /** `domainByDimension[dimension].extend(memberList)` for each explicit dimension. */
  method ExtendDomains(m0: map<QName, set<QName>>, dims: seq<(QName, set<QName>)>)
    returns (m: map<QName, set<QName>>)
    ensures m == AddDomains(m0, dims)
  {
    m := m0;
    var i := 0;
    while i < |dims|
      invariant 0 <= i <= |dims|
      invariant AddDomains(m, dims[i..]) == AddDomains(m0, dims)
    {
      assert dims[i..][0] == dims[i] && dims[i..][1..] == dims[i + 1..];
      var (dimension, members) := dims[i];
      m := m[dimension := (if dimension in m then m[dimension] else {}) + members];
      i := i + 1;
    }
  }

  /** The cubes of one role: each is read and entered in every table. */
  method ReadCubes(known: set<QName>, s0: DimState, role: string, b: BaseSet, cubes: seq<(QName, CubeJson)>)
    returns (r: Result<DimState, Error>)
    ensures r == CubesFrom(known, s0, role, b, cubes)
  {
    var s := s0;
    var i := 0;
    while i < |cubes|
      invariant 0 <= i <= |cubes|
      invariant CubesFrom(known, s, role, b, cubes[i..]) == CubesFrom(known, s0, role, b, cubes)
    {
      assert cubes[i..][0] == cubes[i] && cubes[i..][1..] == cubes[i + 1..];
      var (hc, details) := cubes[i];
      var read := ReadCube(known, details);
      if read.Err? {
        return Err(read.error);
      }
      var cube := read.value;
      var openHypercubes := if cube.closed then s.openHypercubes else s.openHypercubes + {(role, hc)};
      var byPrimaryItem := AppendPrimaryItems(s.byPrimaryItem, cube.primaryItems, b);
      var domains := ExtendDomains(s.domains, cube.explicitDimensions);
      s := DimState(AppendTo(s.baseSets, b, cube), AppendTo(s.byCube, hc, b), byPrimaryItem, domains,
                    s.containers + {cube.container}, openHypercubes);
      i := i + 1;
    }
    return Ok(s);
  }

  /** The loop over the roles of the `dimensions` JSON. */
  method ReadRoles(known: set<QName>, roles: seq<(string, seq<(QName, CubeJson)>)>) returns (r: Result<DimState, Error>)
    ensures r == RolesFrom(known, NoDimensions, roles)
  {
    var s := NoDimensions;
    var i := 0;
    while i < |roles|
      invariant 0 <= i <= |roles|
      invariant RolesFrom(known, s, roles[i..]) == RolesFrom(known, NoDimensions, roles)
    {
      assert roles[i..][0] == roles[i] && roles[i..][1..] == roles[i + 1..];
      var (role, cubes) := roles[i];
      var missing := FirstMissing(Keys(cubes), known);
      if missing.Some? {
        return Err(ConceptKeyError(missing.value));
      }
      var next := ReadCubes(known, s, role, BaseSetOf(role, cubes), cubes);
      if next.Err? {
        return next;
      }
      s := next.value;
      i := i + 1;
    }
    return Ok(s);
  }

  /**
   * `Taxonomy.__init__`: the steps in the constructor's order, ending with
   * the dimension-container rule.
   */
  method BuildTaxonomy(entryPoint: string, prefixes: seq<(string, string)>, cs: seq<Concept>,
                       presentation: seq<(string, GroupJson)>, dims: DimensionsJson, utr: Utr)
    returns (r: Result<Taxonomy, Error>)
    ensures r == TaxonomySpec(entryPoint, prefixes, cs, presentation, dims, utr)
  {
    var known := ConceptMap(cs).Keys;
    var reified := ReifyConcepts(cs, known);
    if reified.Err? {
      return Err(reified.error);
    }
    var concepts := ConceptMap(reified.value);
    var groups := ReadGroups(concepts, presentation);
    if groups.Err? {
      return Err(groups.error);
    }
    r := Finishing(entryPoint, prefixes, cs, concepts, groups.value, dims, utr);
  }

  /** The constructor after the groups are read. */
  method Finishing(entryPoint: string, prefixes: seq<(string, string)>, cs: seq<Concept>, concepts: map<QName, Concept>,
                   groups: seq<PresentationGroup>, dims: DimensionsJson, utr: Utr)
    returns (r: Result<Taxonomy, Error>)
    ensures r == Finish(entryPoint, prefixes, cs, concepts, groups, dims, utr)
  {
    var known := concepts.Keys;
    var order := UniqueList(QNamesOf(cs));
    var language := DefaultLanguageOf(groups, order, concepts);
    var byName := IndexNames(cs);
    var ix := IndexLabels(cs, language, prefixes);
    var defaults := DefaultsFrom(known, map[], dims.defaults.GetOr([]));
    if defaults.Err? {
      return Err(defaults.error);
    }
    var s := ReadRoles(known, dims.roles);
    if s.Err? {
      return Err(s.error);
    }
    var tables := s.value;
    if |tables.containers| >= 2 {
      return Err(TaxonomyException(MultipleContainers));
    }
    return Ok(Taxonomy(entryPoint, prefixes, concepts, order, groups, byName, ix.byStandardLabel, ix.byPretendLabel,
                       defaults.value, tables.baseSets, tables.byCube, tables.byPrimaryItem, tables.domains,
                       HypercubesOf(tables.baseSets), tables.openHypercubes, ContainerOf(tables.containers), utr));
  }
}

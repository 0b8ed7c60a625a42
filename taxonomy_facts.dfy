/**
 * What the construction guarantees about a built taxonomy: the name and
 * label indices hold exactly the concepts they should, the pretend keys,
 * the dimension-container rule, and the domains of explicit dimensions.
 */
module TaxonomyFacts {
  import opened Wrappers
  import opened Text
  import opened QNames
  import opened Errors
  import opened Dicts
  import opened Concepts
  import opened Presentation
  import opened StringUtil
  import opened Utr
  import opened TaxonomyInfo
  import opened Taxonomies
  import opened TaxonomyQueries

  // The name index.

  /** The QNames of the concepts with the local name, in order and with repeats. */
  function NamesOf(cs: seq<Concept>, name: string): seq<QName> {
    if cs == [] then []
    else (if cs[0].qname.localName == name then [cs[0].qname] else []) + NamesOf(cs[1..], name)
  }

  lemma {:induction false} NamesOfMembers(cs: seq<Concept>, name: string, q: QName)
    ensures q in NamesOf(cs, name) <==> q.localName == name && exists i :: 0 <= i < |cs| && cs[i].qname == q
  {
    if cs != [] {
      NamesOfMembers(cs[1..], name, q);
      if exists i :: 0 <= i < |cs| && cs[i].qname == q {
        var i :| 0 <= i < |cs| && cs[i].qname == q;
        if i > 0 {
          assert cs[1..][i - 1].qname == q;
        }
      }
      if exists i :: 0 <= i < |cs[1..]| && cs[1..][i].qname == q {
        var i :| 0 <= i < |cs[1..]| && cs[1..][i].qname == q;
        assert cs[i + 1].qname == q;
      }
    }
  }

  /** Each local name lists, after what it listed before, the concepts with that name in order. */
  lemma {:induction false} NameIndexLists(m: map<string, seq<QName>>, cs: seq<Concept>, name: string)
    ensures ListAt(NameIndex(m, cs), name) == ListAt(m, name) + NamesOf(cs, name)
    decreases |cs|
  {
    if cs != [] {
      var next := AppendTo(m, cs[0].qname.localName, cs[0].qname);
      NameIndexLists(next, cs[1..], name);
      var own := if cs[0].qname.localName == name then [cs[0].qname] else [];
      assert ListAt(next, name) == ListAt(m, name) + own;
      assert ListAt(m, name) + own + NamesOf(cs[1..], name) == ListAt(m, name) + (own + NamesOf(cs[1..], name));
    }
  }

  // The label indices.

  predicate InIndex(m: map<string, set<QName>>, k: string, q: QName) {
    k in m && q in m[k]
  }

  predicate HasPretendKey(c: Concept, defaultLanguage: Option<string>, prefixes: seq<(string, string)>, k: string) {
    StandardLabel(c, defaultLanguage, prefixes).Some? && k in PretendKeys(StandardLabel(c, defaultLanguage, prefixes).value)
  }

  lemma InIndexAddTo(m: map<string, set<QName>>, k0: string, q0: QName, k: string, q: QName)
    ensures InIndex(AddTo(m, k0, q0), k, q) <==> InIndex(m, k, q) || (k == k0 && q == q0)
  {
  }

  /** Entering one labelled concept adds that concept under its label and under its pretend keys, and nothing else. */
  lemma IndexLabelHas(ix: LabelIndices, text: string, q0: QName, k: string, q: QName)
    ensures InIndex(IndexLabel(ix, text, q0).byStandardLabel, k, q) <==> InIndex(ix.byStandardLabel, k, q) || (k == text && q == q0)
    ensures InIndex(IndexLabel(ix, text, q0).byPretendLabel, k, q) <==> InIndex(ix.byPretendLabel, k, q) || (k in PretendKeys(text) && q == q0)
  {
    InIndexAddTo(ix.byStandardLabel, text, q0, k, q);
    var keys := PretendKeys(text);
    assert IndexLabel(ix, text, q0).byPretendLabel == AddTo(AddTo(AddTo(ix.byPretendLabel, keys[0], q0), keys[1], q0), keys[2], q0);
    InIndexAddThree(ix.byPretendLabel, keys[0], keys[1], keys[2], q0, k, q);
    InThree(keys, k);
  }

  lemma InThree(keys: seq<string>, k: string)
    requires |keys| == 3
    ensures k in keys <==> k == keys[0] || k == keys[1] || k == keys[2]
  {
  }

  lemma InIndexAddThree(m: map<string, set<QName>>, a: string, b: string, c: string, q0: QName, k: string, q: QName)
    ensures InIndex(AddTo(AddTo(AddTo(m, a, q0), b, q0), c, q0), k, q)
      <==> InIndex(m, k, q) || ((k == a || k == b || k == c) && q == q0)
  {
    InIndexAddTo(m, a, q0, k, q);
    InIndexAddTo(AddTo(m, a, q0), b, q0, k, q);
    InIndexAddTo(AddTo(AddTo(m, a, q0), b, q0), c, q0, k, q);
  }

  /** Some concept of `cs` with QName `q` has standard label `k`. */
  predicate SomeLabelled(cs: seq<Concept>, defaultLanguage: Option<string>, prefixes: seq<(string, string)>, k: string, q: QName) {
    exists i :: 0 <= i < |cs| && cs[i].qname == q && StandardLabel(cs[i], defaultLanguage, prefixes) == Some(k)
  }

  /** Some concept of `cs` with QName `q` has `k` among its pretend keys. */
  predicate SomePretending(cs: seq<Concept>, defaultLanguage: Option<string>, prefixes: seq<(string, string)>, k: string, q: QName) {
    exists i :: 0 <= i < |cs| && cs[i].qname == q && HasPretendKey(cs[i], defaultLanguage, prefixes, k)
  }

  lemma SomeLabelledCons(cs: seq<Concept>, defaultLanguage: Option<string>, prefixes: seq<(string, string)>, k: string, q: QName)
    requires cs != []
    ensures SomeLabelled(cs, defaultLanguage, prefixes, k, q)
      <==> (cs[0].qname == q && StandardLabel(cs[0], defaultLanguage, prefixes) == Some(k)) || SomeLabelled(cs[1..], defaultLanguage, prefixes, k, q)
  {
    if SomeLabelled(cs[1..], defaultLanguage, prefixes, k, q) {
      var i :| 0 <= i < |cs[1..]| && cs[1..][i].qname == q && StandardLabel(cs[1..][i], defaultLanguage, prefixes) == Some(k);
      assert cs[i + 1] == cs[1..][i];
    }
    if SomeLabelled(cs, defaultLanguage, prefixes, k, q) {
      var i :| 0 <= i < |cs| && cs[i].qname == q && StandardLabel(cs[i], defaultLanguage, prefixes) == Some(k);
      if i > 0 {
        assert cs[1..][i - 1] == cs[i];
      }
    }
  }

  lemma SomePretendingCons(cs: seq<Concept>, defaultLanguage: Option<string>, prefixes: seq<(string, string)>, k: string, q: QName)
    requires cs != []
    ensures SomePretending(cs, defaultLanguage, prefixes, k, q)
      <==> (cs[0].qname == q && HasPretendKey(cs[0], defaultLanguage, prefixes, k)) || SomePretending(cs[1..], defaultLanguage, prefixes, k, q)
  {
    if SomePretending(cs[1..], defaultLanguage, prefixes, k, q) {
      var i :| 0 <= i < |cs[1..]| && cs[1..][i].qname == q && HasPretendKey(cs[1..][i], defaultLanguage, prefixes, k);
      assert cs[i + 1] == cs[1..][i];
    }
    if SomePretending(cs, defaultLanguage, prefixes, k, q) {
      var i :| 0 <= i < |cs| && cs[i].qname == q && HasPretendKey(cs[i], defaultLanguage, prefixes, k);
      if i > 0 {
        assert cs[1..][i - 1] == cs[i];
      }
    }
  }

  /** A concept is under a key of the standard-label index exactly when its standard label is that key. */
  lemma {:induction false} LabelIndexStandard(ix: LabelIndices, cs: seq<Concept>, defaultLanguage: Option<string>,
                                              prefixes: seq<(string, string)>, k: string, q: QName)
    ensures InIndex(LabelIndex(ix, cs, defaultLanguage, prefixes).byStandardLabel, k, q)
      <==> InIndex(ix.byStandardLabel, k, q) || SomeLabelled(cs, defaultLanguage, prefixes, k, q)
    decreases |cs|
  {
    if cs != [] {
      var found := StandardLabel(cs[0], defaultLanguage, prefixes);
      var next := if found.Some? then IndexLabel(ix, found.value, cs[0].qname) else ix;
      if found.Some? {
        IndexLabelHas(ix, found.value, cs[0].qname, k, q);
      }
      LabelIndexStandard(next, cs[1..], defaultLanguage, prefixes, k, q);
      SomeLabelledCons(cs, defaultLanguage, prefixes, k, q);
    }
  }

  /** A concept is under a key of the pretend-label index exactly when that key is one of its label's pretend keys. */
  lemma {:induction false} LabelIndexPretend(ix: LabelIndices, cs: seq<Concept>, defaultLanguage: Option<string>,
                                             prefixes: seq<(string, string)>, k: string, q: QName)
    ensures InIndex(LabelIndex(ix, cs, defaultLanguage, prefixes).byPretendLabel, k, q)
      <==> InIndex(ix.byPretendLabel, k, q) || SomePretending(cs, defaultLanguage, prefixes, k, q)
    decreases |cs|
  {
    if cs != [] {
      var found := StandardLabel(cs[0], defaultLanguage, prefixes);
      var next := if found.Some? then IndexLabel(ix, found.value, cs[0].qname) else ix;
      if found.Some? {
        IndexLabelHas(ix, found.value, cs[0].qname, k, q);
      }
      LabelIndexPretend(next, cs[1..], defaultLanguage, prefixes, k, q);
      SomePretendingCons(cs, defaultLanguage, prefixes, k, q);
    }
  }

  // Pretend keys.

  /** Without a `[`, the text before the last one is empty, so the second and third keys are both "". */
  lemma PretendKeysWithoutBracket(text: string)
    requires '[' !in UnicodeDashNormalization(text)
    ensures PretendKeys(text)[1] == [] && PretendKeys(text)[2] == []
  {
    LastIndexFound(UnicodeDashNormalization(text), '[');
  }

  /** With a last `[`, the second key is the stripped text before it. */
  lemma PretendKeysWithBracket(text: string, before: string, after: string)
    requires UnicodeDashNormalization(text) == before + ['['] + after && '[' !in after
    ensures PretendKeys(text)[1] == Strip(before) && PretendKeys(text)[2] == Lower(Strip(before))
  {
    LastIndexAt(before, '[', after);
    assert (before + ['['] + after)[..|before|] == before;
  }

  // The dimension container.

  /** The containers the cubes' `xbrldt:contextElement` members name. */
  function Asked(cubes: seq<(QName, CubeJson)>): set<Container> {
    set i | 0 <= i < |cubes| && cubes[i].1.contextElement.Some? && ParseContainer(cubes[i].1.contextElement.value).Ok?
      :: ParseContainer(cubes[i].1.contextElement.value).value
  }

  /** The containers the cubes of every role name. */
  function RolesAsked(roles: seq<(string, seq<(QName, CubeJson)>)>): set<Container> {
    if roles == [] then {} else Asked(roles[0].1) + RolesAsked(roles[1..])
  }

  lemma AskedCons(cubes: seq<(QName, CubeJson)>)
    requires cubes != [] && cubes[0].1.contextElement.Some? && ParseContainer(cubes[0].1.contextElement.value).Ok?
    ensures Asked(cubes) == {ParseContainer(cubes[0].1.contextElement.value).value} + Asked(cubes[1..])
  {
    forall c | c in Asked(cubes[1..])
      ensures c in Asked(cubes)
    {
      var i :| 0 <= i < |cubes[1..]| && cubes[1..][i].1.contextElement.Some? && ParseContainer(cubes[1..][i].1.contextElement.value).Ok?
               && c == ParseContainer(cubes[1..][i].1.contextElement.value).value;
      assert cubes[i + 1] == cubes[1..][i];
    }
    forall c | c in Asked(cubes)
      ensures c in {ParseContainer(cubes[0].1.contextElement.value).value} + Asked(cubes[1..])
    {
      var i :| 0 <= i < |cubes| && cubes[i].1.contextElement.Some? && ParseContainer(cubes[i].1.contextElement.value).Ok?
               && c == ParseContainer(cubes[i].1.contextElement.value).value;
      if i > 0 {
        assert cubes[1..][i - 1] == cubes[i];
      }
    }
  }

  /** A cube read successfully asks for the container it records. */
  lemma ReadCubeContainer(known: set<QName>, details: CubeJson)
    requires ReadCube(known, details).Ok?
    ensures details.contextElement.Some? && ParseContainer(details.contextElement.value) == Ok(ReadCube(known, details).value.container)
  {
  }

  /** Reading a role's cubes adds exactly the containers they ask for. */
  lemma {:induction false} CubesFromContainers(known: set<QName>, s: DimState, role: string, b: BaseSet,
                                               cubes: seq<(QName, CubeJson)>)
    requires CubesFrom(known, s, role, b, cubes).Ok?
    ensures CubesFrom(known, s, role, b, cubes).value.containers == s.containers + Asked(cubes)
    decreases |cubes|
  {
    if cubes != [] {
      var cube := ReadCube(known, cubes[0].1).value;
      ReadCubeContainer(known, cubes[0].1);
      AskedCons(cubes);
      CubesFromContainers(known, AddCube(s, role, b, cubes[0].0, cube), role, b, cubes[1..]);
    }
  }

  /** Reading every role adds exactly the containers their cubes ask for. */
  lemma {:induction false} RolesFromContainers(known: set<QName>, s: DimState, roles: seq<(string, seq<(QName, CubeJson)>)>)
    requires RolesFrom(known, s, roles).Ok?
    ensures RolesFrom(known, s, roles).value.containers == s.containers + RolesAsked(roles)
    decreases |roles|
  {
    if roles != [] {
      var role := roles[0].0;
      var cubes := roles[0].1;
      var s' := CubesFrom(known, s, role, BaseSetOf(role, cubes), cubes).value;
      CubesFromContainers(known, s, role, BaseSetOf(role, cubes), cubes);
      RolesFromContainers(known, s', roles[1..]);
    }
  }

  /** With at most one container asked for, `ContainerOf` is that one, or `Scenario` when none is. */
  lemma ContainerOfAtMostOne(asked: set<Container>)
    ensures |asked| <= 1 ==> (asked == {} && ContainerOf(asked) == Scenario) || asked == {ContainerOf(asked)}
  {
    if |asked| == 1 {
      var c :| c in asked;
      assert asked - {c} == {} by {
        assert |asked - {c}| == 0;
      }
      assert asked == {c};
      assert ContainerOf({c}) == c by {
        if c == Scenario {
          assert Segment !in {c};
        }
      }
    }
  }

  /** `Finish` fails only on the container check, and otherwise records `ContainerOf` the containers read. */
  lemma FinishContainer(entryPoint: string, prefixes: seq<(string, string)>, cs: seq<Concept>, concepts: map<QName, Concept>,
                        groups: seq<PresentationGroup>, dims: DimensionsJson, utr: Utr)
    requires DefaultsFrom(concepts.Keys, map[], dims.defaults.GetOr([])).Ok?
    requires RolesFrom(concepts.Keys, NoDimensions, dims.roles).Ok?
    ensures var containers := RolesFrom(concepts.Keys, NoDimensions, dims.roles).value.containers;
      && (Finish(entryPoint, prefixes, cs, concepts, groups, dims, utr).Err? <==> |containers| >= 2)
      && (Finish(entryPoint, prefixes, cs, concepts, groups, dims, utr).Err? ==>
            Finish(entryPoint, prefixes, cs, concepts, groups, dims, utr).error == TaxonomyException(MultipleContainers))
      && (Finish(entryPoint, prefixes, cs, concepts, groups, dims, utr).Ok? ==>
            Finish(entryPoint, prefixes, cs, concepts, groups, dims, utr).value.container == ContainerOf(containers))
  {
  }

  /**
   * The container rule: once the defaults and the dimensions have been read,
   * construction fails exactly when the cubes ask for both containers, and
   * otherwise the taxonomy's container is the one asked for, or `Scenario`
   * when no cube asks.
   */
  lemma ContainerRule(entryPoint: string, prefixes: seq<(string, string)>, cs: seq<Concept>, concepts: map<QName, Concept>,
                      groups: seq<PresentationGroup>, dims: DimensionsJson, utr: Utr)
    requires DefaultsFrom(concepts.Keys, map[], dims.defaults.GetOr([])).Ok?
    requires RolesFrom(concepts.Keys, NoDimensions, dims.roles).Ok?
    ensures Finish(entryPoint, prefixes, cs, concepts, groups, dims, utr).Err? <==> |RolesAsked(dims.roles)| >= 2
    ensures Finish(entryPoint, prefixes, cs, concepts, groups, dims, utr).Err? ==>
      Finish(entryPoint, prefixes, cs, concepts, groups, dims, utr).error == TaxonomyException(MultipleContainers)
    ensures Finish(entryPoint, prefixes, cs, concepts, groups, dims, utr).Ok? ==>
      var container := Finish(entryPoint, prefixes, cs, concepts, groups, dims, utr).value.container;
      (RolesAsked(dims.roles) == {} && container == Scenario) || RolesAsked(dims.roles) == {container}
  {
    RolesFromContainers(concepts.Keys, NoDimensions, dims.roles);
    FinishContainer(entryPoint, prefixes, cs, concepts, groups, dims, utr);
    ContainerOfAtMostOne(RolesAsked(dims.roles));
  }

  // The domains of explicit dimensions.

  /** Every explicit dimension of every recorded cube has its members in that dimension's domain. */
  predicate Covers(s: DimState) {
    forall b, cube, i :: b in s.baseSets && cube in s.baseSets[b] && 0 <= i < |cube.explicitDimensions| ==>
      cube.explicitDimensions[i].0 in s.domains && cube.explicitDimensions[i].1 <= s.domains[cube.explicitDimensions[i].0]
  }

  /** Extending the domains loses no member and takes in every dimension's members. */
  lemma {:induction false} AddDomainsGrows(m: map<QName, set<QName>>, dims: seq<(QName, set<QName>)>)
    ensures forall d :: d in m ==> d in AddDomains(m, dims) && m[d] <= AddDomains(m, dims)[d]
    ensures forall i :: 0 <= i < |dims| ==> dims[i].0 in AddDomains(m, dims) && dims[i].1 <= AddDomains(m, dims)[dims[i].0]
    decreases |dims|
  {
    if dims != [] {
      var next := m[dims[0].0 := (if dims[0].0 in m then m[dims[0].0] else {}) + dims[0].1];
      AddDomainsGrows(next, dims[1..]);
      assert forall i :: 0 < i < |dims| ==> dims[i] == dims[1..][i - 1];
    }
  }

  lemma AddCubeCovers(s: DimState, role: string, b: BaseSet, hc: QName, cube: Cube)
    requires Covers(s)
    ensures Covers(AddCube(s, role, b, hc, cube))
  {
    AddDomainsGrows(s.domains, cube.explicitDimensions);
  }

  lemma {:induction false} CubesFromCovers(known: set<QName>, s: DimState, role: string, b: BaseSet, cubes: seq<(QName, CubeJson)>)
    requires Covers(s) && CubesFrom(known, s, role, b, cubes).Ok?
    ensures Covers(CubesFrom(known, s, role, b, cubes).value)
    decreases |cubes|
  {
    if cubes != [] {
      var cube := ReadCube(known, cubes[0].1).value;
      AddCubeCovers(s, role, b, cubes[0].0, cube);
      CubesFromCovers(known, AddCube(s, role, b, cubes[0].0, cube), role, b, cubes[1..]);
    }
  }

  lemma {:induction false} RolesFromCovers(known: set<QName>, s: DimState, roles: seq<(string, seq<(QName, CubeJson)>)>)
    requires Covers(s) && RolesFrom(known, s, roles).Ok?
    ensures Covers(RolesFrom(known, s, roles).value)
    decreases |roles|
  {
    if roles != [] {
      var role := roles[0].0;
      var cubes := roles[0].1;
      CubesFromCovers(known, s, role, BaseSetOf(role, cubes), cubes);
      RolesFromCovers(known, CubesFrom(known, s, role, BaseSetOf(role, cubes), cubes).value, roles[1..]);
    }
  }

  // A built taxonomy.

  lemma {:induction false} ReifyAllQNames(cs: seq<Concept>, known: set<QName>, acc: seq<Concept>)
    requires ReifyAll(cs, known, acc).Ok?
    ensures QNamesOf(ReifyAll(cs, known, acc).value) == QNamesOf(acc) + QNamesOf(cs)
  {
    if cs != [] {
      var c := Reify(cs[0], known).value;
      ReifyAllQNames(cs[1..], known, acc + [c]);
      assert QNamesOf(acc + [c]) == QNamesOf(acc) + [cs[0].qname];
      assert QNamesOf(cs) == [cs[0].qname] + QNamesOf(cs[1..]);
    }
  }

  /** What `Finish` records when it succeeds. */
  lemma FinishRecords(entryPoint: string, prefixes: seq<(string, string)>, cs: seq<Concept>, concepts: map<QName, Concept>,
                      groups: seq<PresentationGroup>, dims: DimensionsJson, utr: Utr, t: Taxonomy)
    requires Finish(entryPoint, prefixes, cs, concepts, groups, dims, utr) == Ok(t)
    ensures t.entryPoint == entryPoint && t.prefixes == prefixes && t.utr == utr
    ensures t.concepts == concepts
    ensures t.byName == NameIndex(map[], cs)
    ensures LabelIndices(t.byStandardLabel, t.byPretendLabel) == LabelIndex(LabelIndices(map[], map[]), cs, DefaultLanguage(t), prefixes)
    ensures DefaultsFrom(concepts.Keys, map[], dims.defaults.GetOr([])) == Ok(t.dimensionDefaults)
    ensures RolesFrom(concepts.Keys, NoDimensions, dims.roles).Ok?
    ensures var s := RolesFrom(concepts.Keys, NoDimensions, dims.roles).value;
      s.baseSets == t.baseSets && s.byCube == t.byCube && s.byPrimaryItem == t.byPrimaryItem && s.domains == t.domains
      && s.openHypercubes == t.openHypercubes && t.hypercubes == HypercubesOf(s.baseSets)
  {
  }

  /**
   * What a successful construction records: the concepts under the QNames
   * given, the indices over the concepts given, and the tables of a
   * successful read of the dimensions.
   */
  lemma BuiltFrom(entryPoint: string, prefixes: seq<(string, string)>, cs: seq<Concept>,
                  presentation: seq<(string, GroupJson)>, dims: DimensionsJson, utr: Utr, t: Taxonomy)
    requires TaxonomySpec(entryPoint, prefixes, cs, presentation, dims, utr) == Ok(t)
    ensures t.entryPoint == entryPoint && t.prefixes == prefixes && t.utr == utr
    ensures t.concepts.Keys == ConceptMap(cs).Keys && forall q :: q in t.concepts ==> t.concepts[q].qname == q
    ensures t.byName == NameIndex(map[], cs)
    ensures LabelIndices(t.byStandardLabel, t.byPretendLabel) == LabelIndex(LabelIndices(map[], map[]), cs, DefaultLanguage(t), prefixes)
    ensures DefaultsFrom(t.concepts.Keys, map[], dims.defaults.GetOr([])) == Ok(t.dimensionDefaults)
    ensures RolesFrom(t.concepts.Keys, NoDimensions, dims.roles).Ok?
    ensures var s := RolesFrom(t.concepts.Keys, NoDimensions, dims.roles).value;
      s.baseSets == t.baseSets && s.byCube == t.byCube && s.byPrimaryItem == t.byPrimaryItem && s.domains == t.domains
      && s.openHypercubes == t.openHypercubes && t.hypercubes == HypercubesOf(s.baseSets)
  {
    var known := ConceptMap(cs).Keys;
    var reified := ReifyAll(cs, known, []).value;
    var concepts := ConceptMap(reified);
    var groups := GroupsFrom(concepts, presentation, []).value;
    assert Finish(entryPoint, prefixes, cs, concepts, groups, dims, utr) == Ok(t);
    FinishRecords(entryPoint, prefixes, cs, concepts, groups, dims, utr, t);
    ReifyAllQNames(cs, known, []);
    SameQNamesSameKeys(reified, cs);
  }

  lemma SameQNamesSameKeys(a: seq<Concept>, b: seq<Concept>)
    requires QNamesOf(a) == QNamesOf([]) + QNamesOf(b)
    ensures ConceptMap(a).Keys == ConceptMap(b).Keys
  {
    assert QNamesOf([]) + QNamesOf(b) == QNamesOf(b);
    assert |a| == |b|;
    forall q | q in ConceptMap(a).Keys
      ensures q in ConceptMap(b).Keys
    {
      var i :| 0 <= i < |a| && a[i].qname == q;
      assert QNamesOf(a)[i] == b[i].qname;
    }
    forall q | q in ConceptMap(b).Keys
      ensures q in ConceptMap(a).Keys
    {
      var i :| 0 <= i < |b| && b[i].qname == q;
      assert QNamesOf(a)[i] == a[i].qname;
    }
  }

  /** `getConceptForName` on a built taxonomy: none, the only, or ambiguous among the concepts with the local name. */
  lemma ConceptForNameBuilt(entryPoint: string, prefixes: seq<(string, string)>, cs: seq<Concept>,
                            presentation: seq<(string, GroupJson)>, dims: DimensionsJson, utr: Utr, t: Taxonomy, name: string)
    requires TaxonomySpec(entryPoint, prefixes, cs, presentation, dims, utr) == Ok(t)
    ensures GetConceptForName(t, name) == OneOfList(NamesOf(cs, name))
  {
    BuiltFrom(entryPoint, prefixes, cs, presentation, dims, utr, t);
    NameIndexLists(map[], cs, name);
    assert ListAt(t.byName, name) == [] + NamesOf(cs, name);
    assert [] + NamesOf(cs, name) == NamesOf(cs, name);
  }

  /** `getConcept` on a built taxonomy finds exactly the QNames of the concepts it was given. */
  lemma ConceptBuilt(entryPoint: string, prefixes: seq<(string, string)>, cs: seq<Concept>,
                     presentation: seq<(string, GroupJson)>, dims: DimensionsJson, utr: Utr, t: Taxonomy, q: QName)
    requires TaxonomySpec(entryPoint, prefixes, cs, presentation, dims, utr) == Ok(t)
    ensures GetConcept(t, q).Ok? <==> exists i :: 0 <= i < |cs| && cs[i].qname == q
    ensures GetConcept(t, q).Ok? ==> GetConcept(t, q).value.qname == q
  {
    BuiltFrom(entryPoint, prefixes, cs, presentation, dims, utr, t);
  }

  /** The QNames of the concepts given whose standard label is `k`. */
  function LabelledAs(cs: seq<Concept>, defaultLanguage: Option<string>, prefixes: seq<(string, string)>, k: string): set<QName> {
    set i | 0 <= i < |cs| && StandardLabel(cs[i], defaultLanguage, prefixes) == Some(k) :: cs[i].qname
  }

  /** The QNames of the concepts given with `k` among their pretend keys. */
  function PretendingAs(cs: seq<Concept>, defaultLanguage: Option<string>, prefixes: seq<(string, string)>, k: string): set<QName> {
    set i | 0 <= i < |cs| && HasPretendKey(cs[i], defaultLanguage, prefixes, k) :: cs[i].qname
  }

  lemma StandardIndexBuilt(cs: seq<Concept>, defaultLanguage: Option<string>, prefixes: seq<(string, string)>, k: string)
    ensures SetAt(LabelIndex(LabelIndices(map[], map[]), cs, defaultLanguage, prefixes).byStandardLabel, k)
            == LabelledAs(cs, defaultLanguage, prefixes, k)
  {
    var m := LabelIndex(LabelIndices(map[], map[]), cs, defaultLanguage, prefixes).byStandardLabel;
    forall q
      ensures q in SetAt(m, k) <==> q in LabelledAs(cs, defaultLanguage, prefixes, k)
    {
      LabelIndexStandard(LabelIndices(map[], map[]), cs, defaultLanguage, prefixes, k, q);
    }
  }

  lemma PretendIndexBuilt(cs: seq<Concept>, defaultLanguage: Option<string>, prefixes: seq<(string, string)>, k: string)
    ensures SetAt(LabelIndex(LabelIndices(map[], map[]), cs, defaultLanguage, prefixes).byPretendLabel, k)
            == PretendingAs(cs, defaultLanguage, prefixes, k)
  {
    var m := LabelIndex(LabelIndices(map[], map[]), cs, defaultLanguage, prefixes).byPretendLabel;
    forall q
      ensures q in SetAt(m, k) <==> q in PretendingAs(cs, defaultLanguage, prefixes, k)
    {
      LabelIndexPretend(LabelIndices(map[], map[]), cs, defaultLanguage, prefixes, k, q);
    }
  }

  /**
   * `getConceptForLabel` on a built taxonomy: the concepts whose standard
   * label is the text; failing those, the ones with the dash-normalised
   * text as a pretend key; failing those, the lower-cased one; then none,
   * the only one, or ambiguous.
   */
  lemma ConceptForLabelBuilt(entryPoint: string, prefixes: seq<(string, string)>, cs: seq<Concept>,
                             presentation: seq<(string, GroupJson)>, dims: DimensionsJson, utr: Utr, t: Taxonomy, text: string)
    requires TaxonomySpec(entryPoint, prefixes, cs, presentation, dims, utr) == Ok(t)
    ensures var lang := DefaultLanguage(t);
      var normalised := UnicodeDashNormalization(text);
      GetConceptForLabel(t, text) == OneOfSet(
        if LabelledAs(cs, lang, prefixes, text) != {} then LabelledAs(cs, lang, prefixes, text)
        else if PretendingAs(cs, lang, prefixes, normalised) != {} then PretendingAs(cs, lang, prefixes, normalised)
        else PretendingAs(cs, lang, prefixes, Lower(normalised)))
  {
    BuiltFrom(entryPoint, prefixes, cs, presentation, dims, utr, t);
    var normalised := UnicodeDashNormalization(text);
    StandardIndexBuilt(cs, DefaultLanguage(t), prefixes, text);
    PretendIndexBuilt(cs, DefaultLanguage(t), prefixes, normalised);
    PretendIndexBuilt(cs, DefaultLanguage(t), prefixes, Lower(normalised));
  }

  /** The members of every explicit dimension of every cube are in that dimension's domain. */
  lemma DomainMemberRecorded(entryPoint: string, prefixes: seq<(string, string)>, cs: seq<Concept>,
                             presentation: seq<(string, GroupJson)>, dims: DimensionsJson, utr: Utr, t: Taxonomy,
                             b: BaseSet, cube: Cube, i: nat)
    requires TaxonomySpec(entryPoint, prefixes, cs, presentation, dims, utr) == Ok(t)
    requires b in t.baseSets && cube in t.baseSets[b] && i < |cube.explicitDimensions|
    ensures cube.explicitDimensions[i].1 <= DomainMembersForExplicitDimension(t, cube.explicitDimensions[i].0)
  {
    BuiltFrom(entryPoint, prefixes, cs, presentation, dims, utr, t);
    RolesFromCovers(t.concepts.Keys, NoDimensions, dims.roles);
  }

  /** The dimension found for a domain member has the member in its domain. */
  lemma DomainMemberDimension(entryPoint: string, prefixes: seq<(string, string)>, cs: seq<Concept>,
                              presentation: seq<(string, GroupJson)>, dims: DimensionsJson, utr: Utr, t: Taxonomy,
                              p: QName, member: QName)
    requires TaxonomySpec(entryPoint, prefixes, cs, presentation, dims, utr) == Ok(t)
    requires ExplicitDimensionForDomainMember(t, p, member).Ok? && ExplicitDimensionForDomainMember(t, p, member).value.Some?
    ensures member in DomainMembersForExplicitDimension(t, ExplicitDimensionForDomainMember(t, p, member).value.value)
  {
    var d := ExplicitDimensionForDomainMember(t, p, member).value.value;
    assert d in DomainCandidates(t, p, member);
    var b, cube, i :| b in ListAt(t.byPrimaryItem, p) && cube in CubesOf(t, b)
                      && 0 <= i < |cube.explicitDimensions| && member in cube.explicitDimensions[i].1
                      && d == cube.explicitDimensions[i].0;
    DomainMemberRecorded(entryPoint, prefixes, cs, presentation, dims, utr, t, b, cube, i);
  }

  // Dimension defaults.

  /**
   * Reading the `_defaults` pairs binds exactly the dimensions they name,
   * each to the member of the last pair naming it; other dimensions keep
   * their earlier binding.
   */
  lemma {:induction false} DefaultsFromBinds(known: set<QName>, m: map<QName, QName>, pairs: seq<(QName, QName)>, d: QName)
    requires DefaultsFrom(known, m, pairs).Ok?
    ensures d in DefaultsFrom(known, m, pairs).value <==> d in m || exists i :: 0 <= i < |pairs| && pairs[i].0 == d
    ensures (forall i :: 0 <= i < |pairs| ==> pairs[i].0 != d) && d in m ==> DefaultsFrom(known, m, pairs).value[d] == m[d]
    ensures d in DefaultsFrom(known, m, pairs).value && (exists i :: 0 <= i < |pairs| && pairs[i].0 == d) ==>
      exists i :: 0 <= i < |pairs| && pairs[i] == (d, DefaultsFrom(known, m, pairs).value[d])
                  && forall j :: i < j < |pairs| ==> pairs[j].0 != d
    decreases |pairs|
  {
    if pairs != [] {
      var m' := m[pairs[0].0 := pairs[0].1];
      var r := DefaultsFrom(known, m', pairs[1..]).value;
      assert DefaultsFrom(known, m, pairs).value == r;
      DefaultsFromBinds(known, m', pairs[1..], d);
      assert forall i :: 0 < i < |pairs| ==> pairs[i] == pairs[1..][i - 1];
      if exists i :: 0 <= i < |pairs[1..]| && pairs[1..][i].0 == d {
        var i :| 0 <= i < |pairs[1..]| && pairs[1..][i] == (d, r[d]) && forall j :: i < j < |pairs[1..]| ==> pairs[1..][j].0 != d;
        assert pairs[i + 1] == (d, r[d]);
        assert forall j :: i + 1 < j < |pairs| ==> pairs[j].0 != d by {
          forall j | i + 1 < j < |pairs|
            ensures pairs[j].0 != d
          {
            assert pairs[1..][j - 1] == pairs[j];
          }
        }
      } else {
        assert forall i :: 0 < i < |pairs| ==> pairs[i].0 != d by {
          forall i | 0 < i < |pairs|
            ensures pairs[i].0 != d
          {
            assert pairs[1..][i - 1] == pairs[i];
          }
        }
        if pairs[0].0 == d {
          assert pairs[0] == (d, r[d]);
        }
      }
    }
  }

  /** The input `_defaults` pairs, or none when the member is absent. */
  function DefaultPairs(dims: DimensionsJson): seq<(QName, QName)> {
    dims.defaults.GetOr([])
  }

  /**
   * On a built taxonomy a dimension is defaulted exactly when a
   * `_defaults` pair names it, and its default is the member of the last
   * such pair.
   */
  lemma DefaultsBuilt(entryPoint: string, prefixes: seq<(string, string)>, cs: seq<Concept>,
                      presentation: seq<(string, GroupJson)>, dims: DimensionsJson, utr: Utr, t: Taxonomy, d: QName)
    requires TaxonomySpec(entryPoint, prefixes, cs, presentation, dims, utr) == Ok(t)
    ensures d in DefaultedDimensions(t) <==> exists i :: 0 <= i < |DefaultPairs(dims)| && DefaultPairs(dims)[i].0 == d
    ensures DimensionDefault(t, d).None? <==> forall i :: 0 <= i < |DefaultPairs(dims)| ==> DefaultPairs(dims)[i].0 != d
    ensures DimensionDefault(t, d).Some? ==>
      exists i :: 0 <= i < |DefaultPairs(dims)| && DefaultPairs(dims)[i] == (d, DimensionDefault(t, d).value)
                  && forall j :: i < j < |DefaultPairs(dims)| ==> DefaultPairs(dims)[j].0 != d
  {
    BuiltFrom(entryPoint, prefixes, cs, presentation, dims, utr, t);
    DefaultsFromBinds(t.concepts.Keys, map[], DefaultPairs(dims), d);
  }

  // Hypercubes.

  /** The hypercubes the cubes of every role of the `dimensions` JSON name. */
  function CubeNames(roles: seq<(string, seq<(QName, CubeJson)>)>): set<QName> {
    if roles == [] then {} else (set q | q in Keys(roles[0].1)) + CubeNames(roles[1..])
  }

  /** Reading the cubes of a role files them under its base set, if it has any. */
  lemma {:induction false} CubesFromBaseSets(known: set<QName>, s: DimState, role: string, b: BaseSet,
                                             cubes: seq<(QName, CubeJson)>)
    requires CubesFrom(known, s, role, b, cubes).Ok?
    ensures CubesFrom(known, s, role, b, cubes).value.baseSets.Keys == s.baseSets.Keys + (if cubes == [] then {} else {b})
    decreases |cubes|
  {
    if cubes != [] {
      var cube := ReadCube(known, cubes[0].1).value;
      CubesFromBaseSets(known, AddCube(s, role, b, cubes[0].0, cube), role, b, cubes[1..]);
    }
  }

  /** The hypercubes of the base sets depend only on which base sets there are. */
  lemma HypercubesOfAdd(m: map<BaseSet, seq<Cube>>, m': map<BaseSet, seq<Cube>>, extra: set<BaseSet>)
    requires m'.Keys == m.Keys + extra
    ensures HypercubesOf(m') == HypercubesOf(m) + (set b, q | b in extra && q in b.hypercubes :: q)
  {
  }

  /** The base set of a role holds exactly the hypercubes its cubes name. */
  lemma BaseSetHypercubes(role: string, cubes: seq<(QName, CubeJson)>)
    ensures (set b, q | b in (if cubes == [] then {} else {BaseSetOf(role, cubes)}) && q in b.hypercubes :: q)
            == (set q | q in Keys(cubes))
  {
    var extra: set<BaseSet> := if cubes == [] then {} else {BaseSetOf(role, cubes)};
    if cubes == [] {
      assert Keys(cubes) == [];
    } else {
      var b := BaseSetOf(role, cubes);
      forall q | q in Keys(cubes)
        ensures q in (set b', q' | b' in extra && q' in b'.hypercubes :: q')
      {
        assert b in extra && q in b.hypercubes;
      }
    }
  }

  /** Reading one role's cubes adds exactly the hypercubes those cubes name. */
  lemma CubesFromHypercubes(known: set<QName>, s: DimState, role: string, cubes: seq<(QName, CubeJson)>)
    requires CubesFrom(known, s, role, BaseSetOf(role, cubes), cubes).Ok?
    ensures HypercubesOf(CubesFrom(known, s, role, BaseSetOf(role, cubes), cubes).value.baseSets)
            == HypercubesOf(s.baseSets) + (set q | q in Keys(cubes))
  {
    var b := BaseSetOf(role, cubes);
    CubesFromBaseSets(known, s, role, b, cubes);
    HypercubesOfAdd(s.baseSets, CubesFrom(known, s, role, b, cubes).value.baseSets, if cubes == [] then {} else {b});
    BaseSetHypercubes(role, cubes);
  }

  /** Reading every role's cubes adds exactly the hypercubes those cubes name. */
  lemma {:induction false} RolesFromHypercubes(known: set<QName>, s: DimState, roles: seq<(string, seq<(QName, CubeJson)>)>)
    requires RolesFrom(known, s, roles).Ok?
    ensures HypercubesOf(RolesFrom(known, s, roles).value.baseSets) == HypercubesOf(s.baseSets) + CubeNames(roles)
    decreases |roles|
  {
    if roles != [] {
      var role := roles[0].0;
      var cubes := roles[0].1;
      var s' := CubesFrom(known, s, role, BaseSetOf(role, cubes), cubes).value;
      assert RolesFrom(known, s, roles) == RolesFrom(known, s', roles[1..]);
      CubesFromHypercubes(known, s, role, cubes);
      RolesFromHypercubes(known, s', roles[1..]);
    }
  }

  /** On a built taxonomy the hypercubes are exactly those the cubes of the `dimensions` JSON name. */
  lemma HypercubesBuilt(entryPoint: string, prefixes: seq<(string, string)>, cs: seq<Concept>,
                        presentation: seq<(string, GroupJson)>, dims: DimensionsJson, utr: Utr, t: Taxonomy)
    requires TaxonomySpec(entryPoint, prefixes, cs, presentation, dims, utr) == Ok(t)
    ensures t.hypercubes == CubeNames(dims.roles)
  {
    BuiltFrom(entryPoint, prefixes, cs, presentation, dims, utr, t);
    RolesFromHypercubes(t.concepts.Keys, NoDimensions, dims.roles);
    assert HypercubesOf(NoDimensions.baseSets) == {};
  }

  /**
   * `emptyHypercubes` of a built taxonomy: a hypercube concept is empty
   * exactly when no cube of the `dimensions` JSON names it.
   */
  lemma EmptyHypercubesBuilt(entryPoint: string, prefixes: seq<(string, string)>, cs: seq<Concept>,
                             presentation: seq<(string, GroupJson)>, dims: DimensionsJson, utr: Utr, t: Taxonomy, q: QName)
    requires TaxonomySpec(entryPoint, prefixes, cs, presentation, dims, utr) == Ok(t)
    ensures q in EmptyHypercubes(t) <==> q in t.concepts && t.concepts[q].isHypercube && q !in CubeNames(dims.roles)
  {
    HypercubesBuilt(entryPoint, prefixes, cs, presentation, dims, utr, t);
  }

  // Primary items and their hypercubes.

  /**
   * The lookup tables agree with the base sets: a base set is filed under a
   * hypercube only when it names it, and under every primary item of each
   * of its cubes.
   */
  predicate Linked(s: DimState) {
    && (forall hc, b :: hc in s.byCube && b in s.byCube[hc] ==> hc in b.hypercubes)
    && (forall b, cube, p :: b in s.baseSets && cube in s.baseSets[b] && p in Values(cube.primaryItems) ==>
          p in s.byPrimaryItem && b in s.byPrimaryItem[p])
  }

  /** Filing a base set under primary items loses no entry and files it under each of them. */
  lemma {:induction false} AddPrimaryItemsGrows(m: map<QName, seq<BaseSet>>, items: seq<(int, QName)>, b: BaseSet)
    ensures forall p, x :: p in m && x in m[p] ==> p in AddPrimaryItems(m, items, b) && x in AddPrimaryItems(m, items, b)[p]
    ensures forall p :: p in Values(items) ==> p in AddPrimaryItems(m, items, b) && b in AddPrimaryItems(m, items, b)[p]
    decreases |items|
  {
    if items != [] {
      var m' := AppendTo(m, items[0].1, b);
      var r := AddPrimaryItems(m', items[1..], b);
      assert r == AddPrimaryItems(m, items, b);
      AddPrimaryItemsGrows(m', items[1..], b);
      forall p, x | p in m && x in m[p]
        ensures p in r && x in r[p]
      {
        assert x in m'[p];
      }
      forall p | p in Values(items)
        ensures p in r && b in r[p]
      {
        var i :| 0 <= i < |items| && Values(items)[i] == p;
        if i == 0 {
          assert b in m'[p];
        } else {
          assert Values(items[1..])[i - 1] == p;
        }
      }
    }
  }

  lemma AddCubeLinksCube(s: DimState, role: string, b: BaseSet, hc: QName, cube: Cube)
    requires Linked(s) && hc in b.hypercubes
    ensures var s' := AddCube(s, role, b, hc, cube);
      forall hc', b' :: hc' in s'.byCube && b' in s'.byCube[hc'] ==> hc' in b'.hypercubes
  {
    var s' := AddCube(s, role, b, hc, cube);
    forall hc', b' | hc' in s'.byCube && b' in s'.byCube[hc']
      ensures hc' in b'.hypercubes
    {
      if hc' != hc || b' != b {
        assert hc' in s.byCube && b' in s.byCube[hc'];
      }
    }
  }

  lemma AddCubeLinksItems(s: DimState, role: string, b: BaseSet, hc: QName, cube: Cube)
    requires Linked(s)
    ensures var s' := AddCube(s, role, b, hc, cube);
      forall b', cube', p :: b' in s'.baseSets && cube' in s'.baseSets[b'] && p in Values(cube'.primaryItems) ==>
        p in s'.byPrimaryItem && b' in s'.byPrimaryItem[p]
  {
    var s' := AddCube(s, role, b, hc, cube);
    AddPrimaryItemsGrows(s.byPrimaryItem, cube.primaryItems, b);
    forall b', cube', p | b' in s'.baseSets && cube' in s'.baseSets[b'] && p in Values(cube'.primaryItems)
      ensures p in s'.byPrimaryItem && b' in s'.byPrimaryItem[p]
    {
      if b' in s.baseSets && cube' in s.baseSets[b'] {
        assert p in s.byPrimaryItem && b' in s.byPrimaryItem[p];
      } else {
        assert b' == b && cube' == cube;
      }
    }
  }

  lemma AddCubeLinked(s: DimState, role: string, b: BaseSet, hc: QName, cube: Cube)
    requires Linked(s) && hc in b.hypercubes
    ensures Linked(AddCube(s, role, b, hc, cube))
  {
    AddCubeLinksCube(s, role, b, hc, cube);
    AddCubeLinksItems(s, role, b, hc, cube);
  }

  lemma {:induction false} CubesFromLinked(known: set<QName>, s: DimState, role: string, b: BaseSet, cubes: seq<(QName, CubeJson)>)
    requires Linked(s) && CubesFrom(known, s, role, b, cubes).Ok?
    requires forall i :: 0 <= i < |cubes| ==> cubes[i].0 in b.hypercubes
    ensures Linked(CubesFrom(known, s, role, b, cubes).value)
    decreases |cubes|
  {
    if cubes != [] {
      var cube := ReadCube(known, cubes[0].1).value;
      AddCubeLinked(s, role, b, cubes[0].0, cube);
      assert forall i :: 0 <= i < |cubes[1..]| ==> cubes[1..][i] == cubes[i + 1];
      CubesFromLinked(known, AddCube(s, role, b, cubes[0].0, cube), role, b, cubes[1..]);
    }
  }

  lemma {:induction false} RolesFromLinked(known: set<QName>, s: DimState, roles: seq<(string, seq<(QName, CubeJson)>)>)
    requires Linked(s) && RolesFrom(known, s, roles).Ok?
    ensures Linked(RolesFrom(known, s, roles).value)
    decreases |roles|
  {
    if roles != [] {
      var role := roles[0].0;
      var cubes := roles[0].1;
      var b := BaseSetOf(role, cubes);
      assert forall i :: 0 <= i < |cubes| ==> cubes[i].0 in b.hypercubes by {
        forall i | 0 <= i < |cubes|
          ensures cubes[i].0 in b.hypercubes
        {
          assert Keys(cubes)[i] == cubes[i].0;
        }
      }
      CubesFromLinked(known, s, role, b, cubes);
      RolesFromLinked(known, CubesFrom(known, s, role, b, cubes).value, roles[1..]);
    }
  }

  /** The hypercube queries of a taxonomy whose tables are linked. */
  lemma LinkedPrimaryItemHypercubes(s: DimState, t: Taxonomy, hc: QName, p: QName)
    requires Linked(s) && s.baseSets == t.baseSets && s.byCube == t.byCube && s.byPrimaryItem == t.byPrimaryItem
    requires p in PrimaryItemsForHypercube(t, hc)
    ensures hc in HypercubesForPrimaryItem(t, p)
    ensures ExplicitDimensionsForHypercube(t, hc) <= ExplicitDimensionsForPrimaryItem(t, p)
    ensures TypedDimensionsForHypercube(t, hc) <= TypedDimensionsForPrimaryItem(t, p)
  {
    var b, cube :| b in ListAt(t.byCube, hc) && cube in CubesOf(t, b) && p in Values(cube.primaryItems);
    assert hc in b.hypercubes;
    assert b in ListAt(t.byPrimaryItem, p);
  }

  /**
   * On a built taxonomy a primary item of a hypercube's base sets has that
   * hypercube among its own, and so is subject to all of its explicit and
   * typed dimensions.
   */
  lemma PrimaryItemHypercubesBuilt(entryPoint: string, prefixes: seq<(string, string)>, cs: seq<Concept>,
                                   presentation: seq<(string, GroupJson)>, dims: DimensionsJson, utr: Utr, t: Taxonomy,
                                   hc: QName, p: QName)
    requires TaxonomySpec(entryPoint, prefixes, cs, presentation, dims, utr) == Ok(t)
    requires p in PrimaryItemsForHypercube(t, hc)
    ensures hc in HypercubesForPrimaryItem(t, p)
    ensures ExplicitDimensionsForHypercube(t, hc) <= ExplicitDimensionsForPrimaryItem(t, p)
    ensures TypedDimensionsForHypercube(t, hc) <= TypedDimensionsForPrimaryItem(t, p)
  {
    BuiltFrom(entryPoint, prefixes, cs, presentation, dims, utr, t);
    RolesFromLinked(t.concepts.Keys, NoDimensions, dims.roles);
    LinkedPrimaryItemHypercubes(RolesFrom(t.concepts.Keys, NoDimensions, dims.roles).value, t, hc, p);
  }
}

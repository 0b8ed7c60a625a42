/**
 * The module-level registry of loaded taxonomies (`_TAXONOMIES`): looking
 * one up by entry point, listing them, and loading one from its JSON
 * description.
 */
module Registry {
  import opened Wrappers
  import opened QNames
  import opened Errors
  import opened Concepts
  import opened Presentation
  import opened Utr
  import opened TaxonomyInfo
  import opened Taxonomies
  import opened TaxonomyFacts
  import TaxonomyBuild

  /**
   * The members of a taxonomy JSON file that loading reads; each is `None`
   * when the member is absent. Concept names arrive already resolved to
   * QNames.
   */
  datatype TaxonomyJson = TaxonomyJson(
    entryPoint: Option<string>,
    namespaces: Option<seq<(string, string)>>,
    concepts: Option<seq<(QName, ConceptJson)>>,
    presentation: Option<seq<(string, GroupJson)>>,
    dimensions: Option<DimensionsJson>)

  /** The concept comprehension: one `Concept` per entry, in order; the first failure is raised. */
  function NewConcepts(pairs: seq<(QName, ConceptJson)>): (r: Result<seq<Concept>, Error>)
    ensures r.Ok? <==> forall i :: 0 <= i < |pairs| ==> NewConcept(pairs[i].0, pairs[i].1).Ok?
    ensures r.Ok? ==> |r.value| == |pairs| && forall i :: 0 <= i < |pairs| ==> Ok(r.value[i]) == NewConcept(pairs[i].0, pairs[i].1)
    ensures r.Err? ==> exists i :: 0 <= i < |pairs| && NewConcept(pairs[i].0, pairs[i].1) == Err(r.error)
  {
    if pairs == [] then Ok([])
    else
      var c :- NewConcept(pairs[0].0, pairs[0].1);
      var rest :- NewConcepts(pairs[1..]);
      assert forall i :: 0 < i < |pairs| ==> pairs[i] == pairs[1..][i - 1];
      Ok([c] + rest)
  }

  /**
   * `_loadTaxonomyFromFile`, as the taxonomy it adds or the error it
   * raises: the entry point is read first and refused when already loaded;
   * then the namespaces, the concepts, the presentation and the dimensions
   * are read, and the taxonomy is constructed.
   */
  function Load(loaded: map<string, Taxonomy>, bits: TaxonomyJson, utr: Utr): (r: Result<Taxonomy, Error>)
    ensures bits.entryPoint.None? ==> r == Err(KeyError("entryPoint"))
    ensures bits.entryPoint.Some? && bits.entryPoint.value in loaded ==> r == Err(TaxonomyException(AlreadyLoaded))
    ensures r.Ok? ==>
      && bits.entryPoint.Some? && bits.entryPoint.value !in loaded
      && r.value.entryPoint == bits.entryPoint.value
      && bits.namespaces.Some? && r.value.prefixes == bits.namespaces.value
      && r.value.utr == utr
  {
    if bits.entryPoint.None? then Err(KeyError("entryPoint"))
    else if bits.entryPoint.value in loaded then Err(TaxonomyException(AlreadyLoaded))
    else if bits.namespaces.None? then Err(KeyError("namespaces"))
    else if bits.concepts.None? then Err(KeyError("concepts"))
    else
      var cs :- NewConcepts(bits.concepts.value);
      if bits.presentation.None? then Err(KeyError("presentation"))
      else if bits.dimensions.None? then Err(KeyError("dimensions"))
      else
        var r := TaxonomySpec(bits.entryPoint.value, bits.namespaces.value, cs, bits.presentation.value,
                              bits.dimensions.value, utr);
        if r.Ok? then
          BuiltFrom(bits.entryPoint.value, bits.namespaces.value, cs, bits.presentation.value, bits.dimensions.value, utr, r.value);
          r
        else r
  }

  class Registry {
    /** The loaded taxonomies by entry point. */
    var taxonomies: map<string, Taxonomy>
    /** The entry points in the order they were loaded, as the dictionary keeps them. */
    var entryPoints: seq<string>

    /** Each entry point is listed once, and every taxonomy is filed under its own entry point. */
    ghost predicate Valid()
      reads this
    {
      && NoDuplicates(entryPoints)
      && (forall e :: e in taxonomies <==> e in entryPoints)
      && (forall e :: e in taxonomies ==> taxonomies[e].entryPoint == e)
    }

    constructor()
      ensures Valid() && taxonomies == map[] && entryPoints == []
    {
      taxonomies := map[];
      entryPoints := [];
    }

    /** `getTaxonomy`: an entry point never loaded raises `UnknownTaxonomyException`. */
    function GetTaxonomy(entryPoint: string): (r: Result<Taxonomy, Error>)
      reads this
      ensures r.Ok? <==> entryPoint in taxonomies
      ensures r.Ok? ==> r.value == taxonomies[entryPoint]
      ensures Valid() && r.Ok? ==> r.value.entryPoint == entryPoint
      ensures r.Err? ==> r.error == UnknownTaxonomyException(entryPoint)
    {
      if entryPoint in taxonomies then Ok(taxonomies[entryPoint]) else Err(UnknownTaxonomyException(entryPoint))
    }

    /** `listTaxonomies`: every loaded entry point once, in loading order. */
    function ListTaxonomies(): (r: seq<string>)
      reads this
      requires Valid()
      ensures NoDuplicates(r)
      ensures forall e :: e in r <==> GetTaxonomy(e).Ok?
    {
      entryPoints
    }

    /**
     * `_loadTaxonomyFromFile`: on success the new taxonomy is filed under
     * its entry point and listed last; on failure the registry is unchanged.
     */
    method LoadTaxonomyFromFile(bits: TaxonomyJson, utr: Utr) returns (r: Result<(), Error>)
      requires Valid()
      modifies this
      ensures Valid()
      ensures r.Ok? <==> Load(old(taxonomies), bits, utr).Ok?
      ensures r.Ok? ==>
        && taxonomies == old(taxonomies)[bits.entryPoint.value := Load(old(taxonomies), bits, utr).value]
        && entryPoints == old(entryPoints) + [bits.entryPoint.value]
      ensures r.Err? ==>
        && r.error == Load(old(taxonomies), bits, utr).error
        && taxonomies == old(taxonomies) && entryPoints == old(entryPoints)
    {
      if bits.entryPoint.None? {
        return Err(KeyError("entryPoint"));
      }
      var entryPoint := bits.entryPoint.value;
      if entryPoint in taxonomies {
        return Err(TaxonomyException(AlreadyLoaded));
      }
      if bits.namespaces.None? {
        return Err(KeyError("namespaces"));
      }
      if bits.concepts.None? {
        return Err(KeyError("concepts"));
      }
      var cs := NewConcepts(bits.concepts.value);
      if cs.Err? {
        return Err(cs.error);
      }
      if bits.presentation.None? {
        return Err(KeyError("presentation"));
      }
      if bits.dimensions.None? {
        return Err(KeyError("dimensions"));
      }
      var t := TaxonomyBuild.BuildTaxonomy(entryPoint, bits.namespaces.value, cs.value, bits.presentation.value,
                                           bits.dimensions.value, utr);
      if t.Err? {
        return Err(t.error);
      }
      assert t == Load(old(taxonomies), bits, utr);
      assert t.value.entryPoint == entryPoint && entryPoint !in entryPoints;
      taxonomies := taxonomies[entryPoint := t.value];
      entryPoints := entryPoints + [entryPoint];
      return Ok(());
    }
  }

  /** A second load of an entry point fails, whatever the file holds. */
  lemma LoadOnce(loaded: map<string, Taxonomy>, bits: TaxonomyJson, again: TaxonomyJson, utr: Utr, utr': Utr)
    requires Load(loaded, bits, utr).Ok? && again.entryPoint == bits.entryPoint
    ensures Load(loaded[bits.entryPoint.value := Load(loaded, bits, utr).value], again, utr') == Err(TaxonomyException(AlreadyLoaded))
  {
  }
}

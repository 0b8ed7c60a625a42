/**
 * The rules of the enhanced JSON processor that decide what is reported,
 * apart from units (see `Units`): how a collection of concepts is named in
 * a message, which named ranges are tracked, which facts are dropped for
 * unset dimensions, and how an enumeration-set value becomes members.
 */
module EnhancedJson {
  import opened Wrappers
  import opened Text
  import opened QNames
  import opened Errors
  import opened Concepts
  import opened TaxonomyInfo
  import opened Taxonomies
  import opened TaxonomyQueries

  // Sorting makes a rendering independent of the order of a collection.

  /** `fxs` lists the images under `f` of the elements of `xs`, in order. */
  ghost predicate IsImage<A, B>(f: A -> B, xs: seq<A>, fxs: seq<B>) {
    |fxs| == |xs| && forall i :: 0 <= i < |xs| ==> fxs[i] == f(xs[i])
  }

  lemma ImageTail<A, B>(f: A -> B, xs: seq<A>, fxs: seq<B>)
    requires xs != [] && IsImage(f, xs, fxs)
    ensures IsImage(f, xs[1..], fxs[1..]) && fxs[0] == f(xs[0])
  {
    forall i | 0 <= i < |xs[1..]|
      ensures fxs[1..][i] == f(xs[1..][i])
    {
      assert fxs[1..][i] == fxs[i + 1] && xs[1..][i] == xs[i + 1];
    }
  }

  lemma ImageWithout<A, B>(f: A -> B, ys: seq<A>, fys: seq<B>, j: nat)
    requires j < |ys| && IsImage(f, ys, fys)
    ensures IsImage(f, ys[..j] + ys[j + 1..], fys[..j] + fys[j + 1..]) && fys[j] == f(ys[j])
  {
    var ys', fys' := ys[..j] + ys[j + 1..], fys[..j] + fys[j + 1..];
    forall i | 0 <= i < |ys'|
      ensures fys'[i] == f(ys'[i])
    {
      if i < j {
        assert fys'[i] == fys[i] && ys'[i] == ys[i];
      } else {
        assert fys'[i] == fys[i + 1] && ys'[i] == ys[i + 1];
      }
    }
  }

  /** Removing the element at `j` removes one of it from the multiset. */
  lemma MultisetWithout<T>(ys: seq<T>, j: nat)
    requires j < |ys|
    ensures multiset(ys) == multiset(ys[..j] + ys[j + 1..]) + multiset{ys[j]}
  {
    assert ys == ys[..j] + [ys[j]] + ys[j + 1..];
  }

  lemma MultisetCancel<T>(a: multiset<T>, b: multiset<T>, x: T)
    requires a + multiset{x} == b + multiset{x}
    ensures a == b
  {
    forall y
      ensures a[y] == b[y]
    {
      assert (a + multiset{x})[y] == (b + multiset{x})[y];
    }
  }

  /** Two sequences holding the same elements have images holding the same elements. */
  lemma {:induction false} MultisetOfImage<A, B>(f: A -> B, xs: seq<A>, ys: seq<A>, fxs: seq<B>, fys: seq<B>)
    requires multiset(xs) == multiset(ys)
    requires IsImage(f, xs, fxs) && IsImage(f, ys, fys)
    ensures multiset(fxs) == multiset(fys)
    decreases |xs|
  {
    if xs == [] {
      assert |ys| == |multiset(ys)| == 0;
    } else {
      var x := xs[0];
      assert x in multiset(ys);
      var j :| 0 <= j < |ys| && ys[j] == x;
      var xs', ys', fxs', fys' := xs[1..], ys[..j] + ys[j + 1..], fxs[1..], fys[..j] + fys[j + 1..];
      MultisetWithout(ys, j);
      MultisetWithout(fys, j);
      assert xs == [x] + xs';
      assert fxs == [fxs[0]] + fxs';
      MultisetCancel(multiset(xs'), multiset(ys'), x);
      ImageTail(f, xs, fxs);
      ImageWithout(f, ys, fys, j);
      MultisetOfImage(f, xs', ys', fxs', fys');
    }
  }

  /** In a sequence without repeats every element occurs once. */
  lemma {:induction false} MultisetOfDistinct<T>(xs: seq<T>, x: T)
    requires NoDuplicates(xs)
    ensures multiset(xs)[x] == if x in xs then 1 else 0
  {
    if xs != [] {
      assert xs == [xs[0]] + xs[1..];
      assert NoDuplicates(xs[1..]) by {
        forall i, j | 0 <= i < j < |xs| - 1
          ensures xs[1..][i] != xs[1..][j]
        {
          assert xs[1..][i] == xs[i + 1] && xs[1..][j] == xs[j + 1];
        }
      }
      assert xs[0] !in xs[1..] by {
        forall i | 0 <= i < |xs| - 1
          ensures xs[1..][i] != xs[0]
        {
          assert xs[1..][i] == xs[i + 1];
        }
      }
      MultisetOfDistinct(xs[1..], x);
    }
  }

  /** Two sequences without repeats that hold the same elements are permutations of each other. */
  lemma SameDistinctElements<T>(xs: seq<T>, ys: seq<T>)
    requires NoDuplicates(xs) && NoDuplicates(ys)
    requires forall x :: x in xs <==> x in ys
    ensures multiset(xs) == multiset(ys)
  {
    forall x
      ensures multiset(xs)[x] == multiset(ys)[x]
    {
      MultisetOfDistinct(xs, x);
      MultisetOfDistinct(ys, x);
    }
  }

  function QNameTexts(prefixes: seq<(string, string)>, qs: seq<QName>): (r: seq<string>)
    ensures |r| == |qs| && forall i :: 0 <= i < |qs| ==> r[i] == QNameText(prefixes, qs[i])
  {
    seq(|qs|, i requires 0 <= i < |qs| => QNameText(prefixes, qs[i]))
  }

  /** `conceptsToText`: the names of the concepts, sorted, separated by ", ". */
  function ConceptsToText(prefixes: seq<(string, string)>, qs: seq<QName>): (r: string)
    ensures qs == [] ==> r == ""
  {
    Join(", ", Sort(QNameTexts(prefixes, qs)))
  }

  /** The text does not depend on the order in which the collection is walked. */
  lemma ConceptsToTextOrderFree(prefixes: seq<(string, string)>, a: seq<QName>, b: seq<QName>)
    requires multiset(a) == multiset(b)
    ensures ConceptsToText(prefixes, a) == ConceptsToText(prefixes, b)
  {
    var f := q => QNameText(prefixes, q);
    assert IsImage(f, a, QNameTexts(prefixes, a)) && IsImage(f, b, QNameTexts(prefixes, b));
    MultisetOfImage(f, a, b, QNameTexts(prefixes, a), QNameTexts(prefixes, b));
    SortPermutationInvariant(QNameTexts(prefixes, a), QNameTexts(prefixes, b));
  }

  /** One concept is named by its name alone. */
  lemma ConceptsToTextOne(prefixes: seq<(string, string)>, q: QName)
    ensures ConceptsToText(prefixes, [q]) == QNameText(prefixes, q)
  {
    var texts := QNameTexts(prefixes, [q]);
    assert texts == [QNameText(prefixes, q)];
    assert Sort(texts) == Insert(texts[0], Sort(texts[1..]));
    assert texts[1..] == [];
  }

  // Named ranges.

  /** A named range that is tracked as unused until it is read: not empty, not an enumeration list, not a template. */
  predicate Tracked(name: string) {
    name != [] && !StartsWith(name, "enum_") && !StartsWith(name, "template_")
  }

  function TrackedNames(names: seq<string>): set<string> {
    set n | n in names && Tracked(n)
  }

  /** The state of one JSON conversion that the modelled rules read and write. */
  class JsonProcessor {
    var unusedNamedRanges: set<string>
    var namedRanges: seq<string>

    constructor()
      ensures unusedNamedRanges == {} && namedRanges == []
    {
      unusedNamedRanges := {};
      namedRanges := [];
    }

    /**
     * `_recordNamedRanges`: the names of the `namedRanges` object (none when
     * the key is absent) replace the recorded ones, and the tracked ones join
     * the unused set.
     */
    method RecordNamedRanges(jsonNamedRanges: Option<seq<string>>)
      modifies this
      ensures namedRanges == jsonNamedRanges.GetOr([])
      ensures unusedNamedRanges == old(unusedNamedRanges) + TrackedNames(jsonNamedRanges.GetOr([]))
    {
      namedRanges := jsonNamedRanges.GetOr([]);
      var i := 0;
      while i < |namedRanges|
        invariant 0 <= i <= |namedRanges| && namedRanges == jsonNamedRanges.GetOr([])
        invariant unusedNamedRanges == old(unusedNamedRanges) + TrackedNames(namedRanges[..i])
      {
        assert namedRanges[..i + 1] == namedRanges[..i] + [namedRanges[i]];
        var name := namedRanges[i];
        if Tracked(name) {
          unusedNamedRanges := unusedNamedRanges + {name};
        }
        i := i + 1;
      }
      assert namedRanges[..i] == namedRanges;
    }
  }

  // Dropping facts whose required dimensions are unset.

  /**
   * A named range bound to a concept, with the dimension values it sets
   * (the source keeps these in `_presetDimensions`, keyed by the holder).
   */
  datatype Holder = Holder(concept: Option<Concept>, presetDimensions: map<QName, QName>)

  predicate ReportableHolder(h: Holder) {
    h.concept.Some? && IsReportable(h.concept.value)
  }

  /**
   * The explicit dimensions the concept's hypercubes require that have
   * neither a default nor a preset value (none for a holder without a
   * concept, which is never reportable).
   */
  function UnsetDimensions(t: Taxonomy, h: Holder): set<QName> {
    match h.concept
    case None => {}
    case Some(c) => ExplicitDimensionsForPrimaryItem(t, c.qname) - DefaultedDimensions(t) - h.presetDimensions.Keys
  }

  /** The reportable holders, in order: the comprehension `reportable`. */
  function ReportableHolders(holders: seq<(string, Holder)>): seq<(string, Holder)> {
    if holders == [] then []
    else (if ReportableHolder(holders[0].1) then [holders[0]] else []) + ReportableHolders(holders[1..])
  }

  /** The holders whose required dimensions are all set, in order. */
  function DimensionsSet(t: Taxonomy, holders: seq<(string, Holder)>): seq<(string, Holder)> {
    if holders == [] then []
    else (if UnsetDimensions(t, holders[0].1) == {} then [holders[0]] else []) + DimensionsSet(t, holders[1..])
  }

  /** The holders that are dropped, each with the dimensions it leaves unset. */
  function UnsetReports(t: Taxonomy, holders: seq<(string, Holder)>): (r: seq<(string, set<QName>)>)
    ensures forall m :: m in r ==> m.1 != {}
    ensures |r| <= |holders|
  {
    if holders == [] then []
    else
      var h := holders[0];
      var unset := UnsetDimensions(t, h.1);
      (if unset != {} then [(h.0, unset)] else []) + UnsetReports(t, holders[1..])
  }

  /** Every holder leaving a dimension unset is reported with exactly those dimensions, and only those. */
  lemma {:induction false} UnsetReported(t: Taxonomy, holders: seq<(string, Holder)>, name: string, dims: set<QName>)
    ensures (name, dims) in UnsetReports(t, holders)
      <==> dims != {} && exists h :: (name, h) in holders && UnsetDimensions(t, h) == dims
  {
    if holders != [] {
      UnsetReported(t, holders[1..], name, dims);
      if (name, dims) in UnsetReports(t, holders[1..]) {
        var h :| (name, h) in holders[1..] && UnsetDimensions(t, h) == dims;
        assert (name, h) in holders;
      }
      if dims != {} && exists h :: (name, h) in holders && UnsetDimensions(t, h) == dims {
        var h :| (name, h) in holders && UnsetDimensions(t, h) == dims;
        if (name, h) != holders[0] {
          assert (name, h) in holders[1..];
        }
      }
    }
  }

  /** The dimension check from the given kept and dropped holders on, one holder at a time. */
  function Check(t: Taxonomy, holders: seq<(string, Holder)>, kept: seq<(string, Holder)>,
                 missing: seq<(string, set<QName>)>): (seq<(string, Holder)>, seq<(string, set<QName>)>)
    decreases |holders|
  {
    if holders == [] then (kept, missing)
    else
      var unset := UnsetDimensions(t, holders[0].1);
      if unset != {} then Check(t, holders[1..], kept, missing + [(holders[0].0, unset)])
      else Check(t, holders[1..], kept + [holders[0]], missing)
  }

  /** The check splits the holders into those kept and those reported. */
  lemma {:induction false} CheckSplits(t: Taxonomy, holders: seq<(string, Holder)>, kept: seq<(string, Holder)>,
                                       missing: seq<(string, set<QName>)>)
    ensures Check(t, holders, kept, missing) == (kept + DimensionsSet(t, holders), missing + UnsetReports(t, holders))
    decreases |holders|
  {
    if holders == [] {
      assert kept + [] == kept && missing + [] == missing;
    } else {
      var h := holders[0];
      var unset := UnsetDimensions(t, h.1);
      if unset != {} {
        CheckSplits(t, holders[1..], kept, missing + [(h.0, unset)]);
        assert missing + [(h.0, unset)] + UnsetReports(t, holders[1..]) == missing + UnsetReports(t, holders);
        assert kept + DimensionsSet(t, holders[1..]) == kept + DimensionsSet(t, holders);
      } else {
        CheckSplits(t, holders[1..], kept + [h], missing);
        assert kept + [h] + DimensionsSet(t, holders[1..]) == kept + DimensionsSet(t, holders);
        assert missing + UnsetReports(t, holders[1..]) == missing + UnsetReports(t, holders);
      }
    }
  }

  /**
   * The dimension check of `createSimpleFacts`: of the reportable holders,
   * those leaving a required dimension unset are dropped and reported with
   * the missing dimensions; the others go on to become facts.
   */
  method DropUnsetDimensions(t: Taxonomy, holders: seq<(string, Holder)>)
    returns (kept: seq<(string, Holder)>, missing: seq<(string, set<QName>)>)
    ensures kept == DimensionsSet(t, ReportableHolders(holders))
    ensures missing == UnsetReports(t, ReportableHolders(holders))
  {
    var reportable := ReportableHolders(holders);
    kept, missing := [], [];
    var i := 0;
    while i < |reportable|
      invariant 0 <= i <= |reportable|
      invariant Check(t, reportable[i..], kept, missing) == Check(t, reportable, [], [])
    {
      var e := reportable[i];
      assert reportable[i..][0] == e && reportable[i..][1..] == reportable[i + 1..];
      var unset := UnsetDimensions(t, e.1);
      if unset != {} {
        missing := missing + [(e.0, unset)];
      } else {
        kept := kept + [e];
      }
      i := i + 1;
    }
    assert reportable[i..] == [];
    CheckSplits(t, reportable, [], []);
    assert [] + DimensionsSet(t, reportable) == DimensionsSet(t, reportable);
    assert [] + UnsetReports(t, reportable) == UnsetReports(t, reportable);
  }

  lemma {:induction false} ReportableExactly(holders: seq<(string, Holder)>, e: (string, Holder))
    ensures e in ReportableHolders(holders) <==> e in holders && ReportableHolder(e.1)
  {
    if holders != [] {
      ReportableExactly(holders[1..], e);
      assert e in holders <==> e == holders[0] || e in holders[1..];
    }
  }

  lemma {:induction false} DimensionsSetExactly(t: Taxonomy, holders: seq<(string, Holder)>, e: (string, Holder))
    ensures e in DimensionsSet(t, holders) <==> e in holders && UnsetDimensions(t, e.1) == {}
  {
    if holders != [] {
      DimensionsSetExactly(t, holders[1..], e);
      assert e in holders <==> e == holders[0] || e in holders[1..];
    }
  }

  /** A holder goes on to become a fact exactly when it is reportable and sets every required dimension. */
  lemma KeptExactly(t: Taxonomy, holders: seq<(string, Holder)>, e: (string, Holder))
    ensures e in DimensionsSet(t, ReportableHolders(holders))
      <==> e in holders && ReportableHolder(e.1) && UnsetDimensions(t, e.1) == {}
  {
    DimensionsSetExactly(t, ReportableHolders(holders), e);
    ReportableExactly(holders, e);
  }

  /** A reportable holder is dropped, and reported, exactly when it leaves a required dimension unset. */
  lemma DroppedExactly(t: Taxonomy, holders: seq<(string, Holder)>, name: string, h: Holder)
    requires (name, h) in holders && ReportableHolder(h) && UnsetDimensions(t, h) != {}
    ensures (name, h) !in DimensionsSet(t, ReportableHolders(holders))
    ensures (name, UnsetDimensions(t, h)) in UnsetReports(t, ReportableHolders(holders))
  {
    KeptExactly(t, holders, (name, h));
    ReportableExactly(holders, (name, h));
    UnsetReported(t, ReportableHolders(holders), name, UnsetDimensions(t, h));
  }

  /** A required dimension with a default never holds a fact back. */
  lemma DefaultsNeverMissing(t: Taxonomy, h: Holder, d: QName)
    requires d in t.dimensionDefaults
    ensures d !in UnsetDimensions(t, h)
  {
  }

  // Enumeration-set values.

  /** A JSON value: a list (each item given as its text, `None` for null), a string, or any other value. */
  datatype EEValue = ListValue(items: seq<Option<string>>) | TextValue(text: string) | OtherValue(rendered: Option<string>)

  function PresentItems(items: seq<Option<string>>): (r: seq<string>)
    ensures forall s :: s in r <==> Some(s) in items
    ensures |r| <= |items|
  {
    if items == [] then []
    else
      assert forall x :: x in items <==> x == items[0] || x in items[1..];
      (if items[0].Some? then [items[0].value] else []) + PresentItems(items[1..])
  }

  /** The stripped pieces that are not empty, in order. */
  function NonEmptyStripped(pieces: seq<string>): (r: seq<string>)
    ensures forall s :: s in r ==> s != [] && Strip(s) == s
  {
    if pieces == [] then []
    else
      var s := Strip(pieces[0]);
      StripIdempotent(pieces[0]);
      (if s != [] then [s] else []) + NonEmptyStripped(pieces[1..])
  }

  /** Every piece that is not blank is kept, stripped. */
  lemma {:induction false} NonEmptyStrippedKeeps(pieces: seq<string>, i: nat)
    requires i < |pieces| && Strip(pieces[i]) != []
    ensures Strip(pieces[i]) in NonEmptyStripped(pieces)
  {
    if i > 0 {
      assert pieces[1..][i - 1] == pieces[i];
      NonEmptyStrippedKeeps(pieces[1..], i - 1);
    }
  }

  /** A character that no piece holds is in none of the kept texts. */
  lemma {:induction false} NonEmptyStrippedAvoids(pieces: seq<string>, c: char)
    requires forall i :: 0 <= i < |pieces| ==> c !in pieces[i]
    ensures forall s :: s in NonEmptyStripped(pieces) ==> c !in s
  {
    if pieces != [] {
      StripChars(pieces[0]);
      assert forall i :: 0 <= i < |pieces| - 1 ==> pieces[1..][i] == pieces[i + 1];
      NonEmptyStrippedAvoids(pieces[1..], c);
    }
  }

  /** The member texts of an enumeration-set value. */
  function SplitEEValue(v: EEValue): (r: seq<string>)
    ensures v.ListValue? ==> forall s :: s in r <==> Some(s) in v.items
    ensures v.TextValue? ==> forall s :: s in r ==> s != [] && Strip(s) == s && ',' !in s
    ensures v.OtherValue? ==> (r == [] <==> v.rendered.None?)
  {
    match v
    case ListValue(items) => PresentItems(items)
    case TextValue(text) =>
      NonEmptyStrippedAvoids(SplitOn(text, ','), ',');
      NonEmptyStripped(SplitOn(text, ','))
    case OtherValue(rendered) => if rendered.Some? then [rendered.value] else []
  }

  /** Every comma-separated piece of a string that is not blank is a member text. */
  lemma SplitTextKeeps(text: string, i: nat)
    requires i < |SplitOn(text, ',')| && Strip(SplitOn(text, ',')[i]) != []
    ensures Strip(SplitOn(text, ',')[i]) in SplitEEValue(TextValue(text))
  {
    NonEmptyStrippedKeeps(SplitOn(text, ','), i);
  }

  /** A string without a comma is one member, unless it is blank. */
  lemma SplitOneText(text: string)
    requires ',' !in text
    ensures SplitEEValue(TextValue(text)) == if Strip(text) == [] then [] else [Strip(text)]
  {
    SplitOnAbsent(text, ',');
    assert NonEmptyStripped([text]) == (if Strip(text) != [] then [Strip(text)] else []) + NonEmptyStripped([text][1..]);
    assert [text][1..] == [];
  }

  /** Texts that stand for no value. */
  predicate TreatedAsNone(v: string) {
    v == "" || v == "-" || v == "n/a" || v == "N/A" || v == "null"
  }

  /** The label looked up for a member text: a `NACE ` code loses every `NACE `. */
  function MemberLabel(v: string): string {
    if StartsWith(v, "NACE ") then Replace(v, "NACE ", "") else v
  }

  /** A text written after one `NACE ` is looked up as written. */
  lemma NacePrefixDropped(code: string)
    requires !Contains(code, "NACE ")
    ensures MemberLabel("NACE " + code) == code
  {
    var v := "NACE " + code;
    assert v[..5] == "NACE " && v[5..] == code;
    ReplaceAbsent(code, "NACE ", "");
  }

  /**
   * The member a label names: by `getConceptForLabel`, or, when that finds
   * nothing, by the label the configuration gives in its place.
   */
  function LookupMember(t: Taxonomy, fallback: map<string, string>, text: string): (r: Result<Option<QName>, Error>)
    ensures text !in fallback ==> r == GetConceptForLabel(t, text)
    ensures GetConceptForLabel(t, text) != Ok(None) ==> r == GetConceptForLabel(t, text)
    ensures r.Ok? && r.value.Some? ==>
      LabelCandidates(t, text) == {r.value.value}
      || (text in fallback && LabelCandidates(t, fallback[text]) == {r.value.value})
  {
    var found := GetConceptForLabel(t, text);
    if found == Ok(None) && text in fallback then GetConceptForLabel(t, fallback[text]) else found
  }

  /**
   * The loop of `createEESetFact` from the given members and processed
   * texts on: a text that stands for no value is skipped; one whose member
   * is found adds the member (once) and is kept; a failed lookup stops it.
   */
  function Collect(t: Taxonomy, fallback: map<string, string>, values: seq<string>,
                   members: seq<QName>, processed: seq<string>): (r: Result<(seq<QName>, seq<string>), Error>)
    ensures r.Ok? ==> members <= r.value.0 && processed <= r.value.1
    ensures r.Ok? ==> |r.value.0| - |members| <= |r.value.1| - |processed|
    ensures r.Ok? && r.value.1 != processed ==> r.value.0 != []
    decreases |values|
  {
    if values == [] then Ok((members, processed))
    else
      var v := values[0];
      if TreatedAsNone(v) then Collect(t, fallback, values[1..], members, processed)
      else
        match LookupMember(t, fallback, MemberLabel(v))
        case Err(e) => Err(e)
        case Ok(None) => Collect(t, fallback, values[1..], members, processed)
        case Ok(Some(q)) => Collect(t, fallback, values[1..], if q in members then members else members + [q], processed + [v])
  }

  /** A member is added only when it is not there yet, so the members stay distinct. */
  lemma {:induction false} CollectDistinct(t: Taxonomy, fallback: map<string, string>, values: seq<string>,
                                           members: seq<QName>, processed: seq<string>)
    requires NoDuplicates(members)
    ensures Collect(t, fallback, values, members, processed).Ok? ==> NoDuplicates(Collect(t, fallback, values, members, processed).value.0)
    decreases |values|
  {
    if values != [] && !TreatedAsNone(values[0]) {
      var found := LookupMember(t, fallback, MemberLabel(values[0]));
      if found.Ok? && found.value.Some? {
        var q := found.value.value;
        var members' := if q in members then members else members + [q];
        assert NoDuplicates(members') by {
          if q !in members {
            forall i, j | 0 <= i < j < |members'|
              ensures members'[i] != members'[j]
            {
              if j == |members| {
                assert members'[i] == members[i];
              }
            }
          }
        }
        CollectDistinct(t, fallback, values[1..], members', processed + [values[0]]);
      } else {
        CollectDistinct(t, fallback, values[1..], members, processed);
      }
    } else if values != [] {
      CollectDistinct(t, fallback, values[1..], members, processed);
    }
  }

  /** Every text kept is one of the values and stands for a value. */
  lemma {:induction false} CollectKept(t: Taxonomy, fallback: map<string, string>, values: seq<string>,
                                       members: seq<QName>, processed: seq<string>, i: nat)
    requires Collect(t, fallback, values, members, processed).Ok?
    requires |processed| <= i < |Collect(t, fallback, values, members, processed).value.1|
    ensures Collect(t, fallback, values, members, processed).value.1[i] in values
    ensures !TreatedAsNone(Collect(t, fallback, values, members, processed).value.1[i])
    decreases |values|
  {
    var r := Collect(t, fallback, values, members, processed);
    var v := values[0];
    var found := LookupMember(t, fallback, MemberLabel(v));
    if TreatedAsNone(v) || found == Ok(None) {
      CollectKept(t, fallback, values[1..], members, processed, i);
    } else {
      var q := found.value.value;
      var members' := if q in members then members else members + [q];
      if i == |processed| {
        assert r.value.1[..|processed| + 1] == processed + [v];
      } else {
        CollectKept(t, fallback, values[1..], members', processed + [v], i);
      }
    }
  }

  /** Every member added is what the label of one of the values names. */
  lemma {:induction false} CollectFound(t: Taxonomy, fallback: map<string, string>, values: seq<string>,
                                        members: seq<QName>, processed: seq<string>, q: QName)
    requires Collect(t, fallback, values, members, processed).Ok?
    requires q in Collect(t, fallback, values, members, processed).value.0 && q !in members
    ensures exists v :: v in values && LookupMember(t, fallback, MemberLabel(v)) == Ok(Some(q))
    decreases |values|
  {
    var v := values[0];
    var found := LookupMember(t, fallback, MemberLabel(v));
    if TreatedAsNone(v) || found == Ok(None) {
      CollectFound(t, fallback, values[1..], members, processed, q);
      var w :| w in values[1..] && LookupMember(t, fallback, MemberLabel(w)) == Ok(Some(q));
      assert w in values;
    } else if found != Ok(Some(q)) {
      var p := found.value.value;
      var members' := if p in members then members else members + [p];
      CollectFound(t, fallback, values[1..], members', processed + [v], q);
      var w :| w in values[1..] && LookupMember(t, fallback, MemberLabel(w)) == Ok(Some(q));
      assert w in values;
    }
  }

  /** A failed lookup is the lookup of one of the values. */
  lemma {:induction false} CollectError(t: Taxonomy, fallback: map<string, string>, values: seq<string>,
                                        members: seq<QName>, processed: seq<string>)
    requires Collect(t, fallback, values, members, processed).Err?
    ensures exists v :: v in values && LookupMember(t, fallback, MemberLabel(v)) == Err(Collect(t, fallback, values, members, processed).error)
    decreases |values|
  {
    var e := Collect(t, fallback, values, members, processed).error;
    var v := values[0];
    var found := LookupMember(t, fallback, MemberLabel(v));
    if found != Err(e) || TreatedAsNone(v) {
      var members', processed' := members, processed;
      if !TreatedAsNone(v) && found.Ok? && found.value.Some? {
        var q := found.value.value;
        members', processed' := if q in members then members else members + [q], processed + [v];
      }
      CollectError(t, fallback, values[1..], members', processed');
      var w :| w in values[1..] && LookupMember(t, fallback, MemberLabel(w)) == Err(e);
      assert w in values;
    }
  }

  /** The text `v` stands for a value and its label names the member `q`. */
  predicate Names(t: Taxonomy, fallback: map<string, string>, v: string, q: QName) {
    !TreatedAsNone(v) && LookupMember(t, fallback, MemberLabel(v)) == Ok(Some(q))
  }

  /** The texts, in order, that stand for a value and whose label names some member. */
  function NamingTexts(t: Taxonomy, fallback: map<string, string>, values: seq<string>): (r: seq<string>)
    ensures forall v :: v in r ==> v in values
    decreases |values|
  {
    if values == [] then []
    else (if NamesSome(t, fallback, values[0]) then [values[0]] else []) + NamingTexts(t, fallback, values[1..])
  }

  /** The text `v` stands for a value and its label names some member. */
  predicate NamesSome(t: Taxonomy, fallback: map<string, string>, v: string) {
    !TreatedAsNone(v) && LookupMember(t, fallback, MemberLabel(v)).Ok? && LookupMember(t, fallback, MemberLabel(v)).value.Some?
  }

  /** The processed texts are exactly the naming texts, in order. */
  lemma {:induction false} CollectProcessed(t: Taxonomy, fallback: map<string, string>, values: seq<string>,
                                            members: seq<QName>, processed: seq<string>)
    requires Collect(t, fallback, values, members, processed).Ok?
    ensures Collect(t, fallback, values, members, processed).value.1 == processed + NamingTexts(t, fallback, values)
    decreases |values|
  {
    if values == [] {
      assert processed + [] == processed;
    } else if NamesSome(t, fallback, values[0]) {
      var v0 := values[0];
      var p := LookupMember(t, fallback, MemberLabel(v0)).value.value;
      var members' := if p in members then members else members + [p];
      assert Collect(t, fallback, values, members, processed) == Collect(t, fallback, values[1..], members', processed + [v0]);
      var rest := NamingTexts(t, fallback, values[1..]);
      assert NamingTexts(t, fallback, values) == [v0] + rest;
      CollectProcessed(t, fallback, values[1..], members', processed + [v0]);
      AppendAssociates(processed, [v0], rest);
      assert Collect(t, fallback, values, members, processed).value.1 == processed + ([v0] + rest);
    } else {
      assert Collect(t, fallback, values, members, processed) == Collect(t, fallback, values[1..], members, processed);
      CollectProcessed(t, fallback, values[1..], members, processed);
      assert NamingTexts(t, fallback, values) == NamingTexts(t, fallback, values[1..]);
      assert Collect(t, fallback, values, members, processed).value.1 == processed + NamingTexts(t, fallback, values[1..]);
    }
  }

  lemma AppendAssociates<T>(a: seq<T>, b: seq<T>, c: seq<T>)
    ensures (a + b) + c == a + (b + c)
  {
  }

  /** The loop misses no member: a member that a text names is collected. */
  lemma {:induction false} CollectMembers(t: Taxonomy, fallback: map<string, string>, values: seq<string>,
                                          members: seq<QName>, processed: seq<string>, v: string, q: QName)
    requires Collect(t, fallback, values, members, processed).Ok?
    requires v in values && Names(t, fallback, v, q)
    ensures q in Collect(t, fallback, values, members, processed).value.0
    decreases |values|
  {
    var v0 := values[0];
    var found := LookupMember(t, fallback, MemberLabel(v0));
    var members', processed' := members, processed;
    if !TreatedAsNone(v0) && found.Ok? && found.value.Some? {
      var p := found.value.value;
      members', processed' := if p in members then members else members + [p], processed + [v0];
      assert p in members';
    }
    assert Collect(t, fallback, values, members, processed) == Collect(t, fallback, values[1..], members', processed');
    if v == v0 {
      assert q in members';
    } else {
      CollectMembers(t, fallback, values[1..], members', processed', v, q);
    }
  }

  /** When no text that stands for a value has a failing lookup, the loop succeeds. */
  lemma {:induction false} CollectOk(t: Taxonomy, fallback: map<string, string>, values: seq<string>,
                                     members: seq<QName>, processed: seq<string>)
    ensures (forall v :: v in values && !TreatedAsNone(v) ==> LookupMember(t, fallback, MemberLabel(v)).Ok?)
            ==> Collect(t, fallback, values, members, processed).Ok?
    decreases |values|
  {
    if values != [] && forall v :: v in values && !TreatedAsNone(v) ==> LookupMember(t, fallback, MemberLabel(v)).Ok? {
      var v0 := values[0];
      assert forall v :: v in values[1..] ==> v in values;
      var found := LookupMember(t, fallback, MemberLabel(v0));
      if !TreatedAsNone(v0) && found.value.Some? {
        var p := found.value.value;
        CollectOk(t, fallback, values[1..], if p in members then members else members + [p], processed + [v0]);
      } else {
        CollectOk(t, fallback, values[1..], members, processed);
      }
    }
  }

  function ExpandedNames(qs: seq<QName>): (r: seq<string>)
    ensures |r| == |qs| && forall i :: 0 <= i < |qs| ==> r[i] == ExpandedName(qs[i])
  {
    seq(|qs|, i requires 0 <= i < |qs| => ExpandedName(qs[i]))
  }

  /** The hidden value of an enumeration-set fact: the members' expanded names, sorted, separated by spaces. */
  function HiddenValue(members: seq<QName>): string {
    Join(" ", Sort(ExpandedNames(members)))
  }

  /** The hidden value depends on the members found and not on the order they were found in. */
  lemma HiddenValueOrderFree(a: seq<QName>, b: seq<QName>)
    requires NoDuplicates(a) && NoDuplicates(b)
    requires forall q :: q in a <==> q in b
    ensures HiddenValue(a) == HiddenValue(b)
  {
    SameDistinctElements(a, b);
    assert IsImage(ExpandedName, a, ExpandedNames(a)) && IsImage(ExpandedName, b, ExpandedNames(b));
    MultisetOfImage(ExpandedName, a, b, ExpandedNames(a), ExpandedNames(b));
    SortPermutationInvariant(ExpandedNames(a), ExpandedNames(b));
  }

  /** The enumeration-set fact: its hidden value and its displayed value, one kept text per line. */
  datatype EEFact = EEFact(hiddenValue: string, value: string)

  /** `createEESetFact`: no fact when no member is found; a failed label lookup raises. */
  function EESetFact(t: Taxonomy, fallback: map<string, string>, value: EEValue): (r: Result<Option<EEFact>, Error>)
    ensures r.Err? ==> exists v :: v in SplitEEValue(value) && LookupMember(t, fallback, MemberLabel(v)) == Err(r.error)
    ensures (forall v :: v in SplitEEValue(value) && !TreatedAsNone(v) ==> LookupMember(t, fallback, MemberLabel(v)).Ok?)
            ==> r.Ok?
    ensures r.Ok? ==> (r.value.None? <==> NamingTexts(t, fallback, SplitEEValue(value)) == [])
    ensures r.Ok? && r.value.Some? ==> r.value.value.value == Join("\n", NamingTexts(t, fallback, SplitEEValue(value)))
    ensures r.Ok? && r.value.Some? ==> r.value.value.hiddenValue != [] && r.value.value.value != []
  {
    var values := SplitEEValue(value);
    CollectOk(t, fallback, values, [], []);
    match Collect(t, fallback, values, [], [])
    case Err(e) =>
      CollectError(t, fallback, values, [], []);
      Err(e)
    case Ok((members, processed)) =>
      CollectSummary(t, fallback, values);
      if members == [] then Ok(None)
      else Ok(Some(EEFact(HiddenValue(members), Join("\n", processed))))
  }

  /** The loop from nothing: the texts kept are the naming texts, and members and texts are found together. */
  lemma CollectSummary(t: Taxonomy, fallback: map<string, string>, values: seq<string>)
    requires Collect(t, fallback, values, [], []).Ok?
    ensures Collect(t, fallback, values, [], []).value.1 == NamingTexts(t, fallback, values)
    ensures Collect(t, fallback, values, [], []).value.0 == [] <==> NamingTexts(t, fallback, values) == []
    ensures Collect(t, fallback, values, [], []).value.0 != [] ==>
      HiddenValue(Collect(t, fallback, values, [], []).value.0) != [] && Join("\n", NamingTexts(t, fallback, values)) != []
  {
    var r := Collect(t, fallback, values, [], []).value;
    CollectProcessed(t, fallback, values, [], []);
    assert [] + NamingTexts(t, fallback, values) == NamingTexts(t, fallback, values);
    if r.0 != [] {
      CollectKept(t, fallback, values, [], [], 0);
      JoinNonEmpty("\n", r.1);
      HiddenValueNonEmpty(r.0);
    }
  }

  lemma HiddenValueNonEmpty(members: seq<QName>)
    requires members != []
    ensures HiddenValue(members) != []
  {
    var names := ExpandedNames(members);
    assert Sort(names)[0] in multiset(names);
    JoinNonEmpty(" ", Sort(names));
  }

  /**
   * The fact's hidden value is that of distinct members: exactly the members
   * named by the labels of the value's texts that stand for a value; by
   * `HiddenValueOrderFree` it depends only on which members they are.
   */
  lemma EESetFactMembers(t: Taxonomy, fallback: map<string, string>, value: EEValue)
    requires EESetFact(t, fallback, value).Ok? && EESetFact(t, fallback, value).value.Some?
    ensures exists members: seq<QName> ::
      && NoDuplicates(members) && members != []
      && EESetFact(t, fallback, value).value.value.hiddenValue == HiddenValue(members)
      && (forall q :: q in members ==> exists v :: v in SplitEEValue(value) && LookupMember(t, fallback, MemberLabel(v)) == Ok(Some(q)))
      && (forall v, q :: v in SplitEEValue(value) && Names(t, fallback, v, q) ==> q in members)
  {
    var values := SplitEEValue(value);
    var members := Collect(t, fallback, values, [], []).value.0;
    CollectDistinct(t, fallback, values, [], []);
    forall v, q | v in values && Names(t, fallback, v, q)
      ensures q in members
    {
      CollectMembers(t, fallback, values, [], [], v, q);
    }
    forall q | q in members
      ensures exists v :: v in values && LookupMember(t, fallback, MemberLabel(v)) == Ok(Some(q))
    {
      CollectFound(t, fallback, values, [], [], q);
    }
  }

  /** The loop of `createEESetFact`, on the value already split. */
  method CreateEESetFact(t: Taxonomy, fallback: map<string, string>, value: EEValue) returns (r: Result<Option<EEFact>, Error>)
    ensures r == EESetFact(t, fallback, value)
  {
    var values := SplitEEValue(value);
    var members: seq<QName> := [];
    var processed: seq<string> := [];
    var i := 0;
    while i < |values|
      invariant 0 <= i <= |values|
      invariant Collect(t, fallback, values[i..], members, processed) == Collect(t, fallback, values, [], [])
    {
      var v := values[i];
      assert values[i..][0] == v && values[i..][1..] == values[i + 1..];
      if !TreatedAsNone(v) {
        var found := LookupMember(t, fallback, MemberLabel(v));
        if found.Err? {
          return Err(found.error);
        }
        if found.value.Some? {
          var q := found.value.value;
          if q !in members {
            members := members + [q];
          }
          processed := processed + [v];
        }
      }
      i := i + 1;
    }
    if members == [] {
      return Ok(None);
    }
    return Ok(Some(EEFact(HiddenValue(members), Join("\n", processed))));
  }

  /** Texts that stand for no value or name no member leave everything as it was. */
  lemma {:induction false} CollectNothing(t: Taxonomy, fallback: map<string, string>, values: seq<string>,
                                          members: seq<QName>, processed: seq<string>)
    requires forall v :: v in values ==> TreatedAsNone(v) || LookupMember(t, fallback, MemberLabel(v)) == Ok(None)
    ensures Collect(t, fallback, values, members, processed) == Ok((members, processed))
    decreases |values|
  {
    if values != [] {
      assert forall v :: v in values[1..] ==> v in values;
      CollectNothing(t, fallback, values[1..], members, processed);
    }
  }

  /** A value naming no member gives no fact. */
  lemma NoMemberNoFact(t: Taxonomy, fallback: map<string, string>, value: EEValue)
    requires forall v :: v in SplitEEValue(value) ==> TreatedAsNone(v) || LookupMember(t, fallback, MemberLabel(v)) == Ok(None)
    ensures EESetFact(t, fallback, value) == Ok(None)
  {
    CollectNothing(t, fallback, SplitEEValue(value), [], []);
  }

  lemma CollectOne(t: Taxonomy, fallback: map<string, string>, v: string, q: QName)
    requires !TreatedAsNone(v) && LookupMember(t, fallback, MemberLabel(v)) == Ok(Some(q))
    ensures Collect(t, fallback, [v], [], []) == Ok(([q], [v]))
  {
    assert [v][1..] == [];
    var noMembers: seq<QName>, nothing: seq<string> := [], [];
    assert q !in noMembers && noMembers + [q] == [q] && nothing + [v] == [v];
    assert Collect(t, fallback, [v], noMembers, nothing) == Collect(t, fallback, [], [q], [v]);
  }

  /** A string naming one member gives the fact of that member, showing the stripped string. */
  lemma OneMemberFact(t: Taxonomy, fallback: map<string, string>, text: string, q: QName)
    requires ',' !in text && !TreatedAsNone(Strip(text))
    requires LookupMember(t, fallback, MemberLabel(Strip(text))) == Ok(Some(q))
    ensures EESetFact(t, fallback, TextValue(text)) == Ok(Some(EEFact(ExpandedName(q), Strip(text))))
  {
    SplitOneText(text);
    var s := Strip(text);
    assert SplitEEValue(TextValue(text)) == [s];
    CollectOne(t, fallback, s, q);
    HiddenValueOne(q);
    assert Join("\n", [s]) == s;
  }

  lemma HiddenValueOne(q: QName)
    ensures HiddenValue([q]) == ExpandedName(q)
  {
    var x := ExpandedName(q);
    assert ExpandedNames([q]) == [x];
    assert Sort([x]) == [x] by {
      assert [x][1..] == [];
    }
  }
}

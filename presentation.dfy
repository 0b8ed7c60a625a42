/** Presentation groups: their relationships, labels and style. */
module Presentation {
  import opened Wrappers
  import opened Text
  import opened Dicts
  import opened QNames
  import opened Errors
  import opened Concepts
  import opened Labels

  /** One row of a presentation group. */
  datatype Relationship = Relationship(roleUri: string, depth: int, concept: Concept, preferredLabel: Option<string>)

  predicate IsPeriodStart(r: Relationship) {
    r.preferredLabel.Some? && Contains(r.preferredLabel.value, "periodStart")
  }

  predicate IsPeriodEnd(r: Relationship) {
    r.preferredLabel.Some? && Contains(r.preferredLabel.value, "periodEnd") && r.concept.isNumeric
  }

  predicate IsNegated(r: Relationship) {
    r.concept.isNumeric && r.preferredLabel.Some? && Contains(r.preferredLabel.value, "negated")
  }

  /**
   * Period-end and negation apply to numeric concepts only; all three need
   * a preferred label, and any preferred label that names them sets them.
   */
  lemma RelationshipFlags(r: Relationship, before: string, after: string)
    ensures IsPeriodStart(r) || IsPeriodEnd(r) || IsNegated(r) ==> r.preferredLabel.Some?
    ensures IsPeriodEnd(r) || IsNegated(r) ==> r.concept.isNumeric
    ensures r.preferredLabel == Some(before + "periodStart" + after) ==> IsPeriodStart(r)
    ensures r.preferredLabel == Some(before + "periodEnd" + after) ==> (IsPeriodEnd(r) <==> r.concept.isNumeric)
    ensures r.preferredLabel == Some(before + "negated" + after) ==> (IsNegated(r) <==> r.concept.isNumeric)
  {
    ContainsInfix(before, "periodStart", after);
    ContainsInfix(before, "periodEnd", after);
    ContainsInfix(before, "negated", after);
  }

  /** `Relationship.getLabel` looks the concept up under its preferred label role, if any. */
  function RelationshipLabelRole(r: Relationship): (role: string)
    ensures r.preferredLabel.Some? && r.preferredLabel.value != [] ==> role == r.preferredLabel.value
    ensures r.preferredLabel.None? || r.preferredLabel.value == [] ==> role == StandardLabelRole
  {
    if Truthy(r.preferredLabel) then r.preferredLabel.value else StandardLabelRole
  }

  /** The query `Relationship.getLabel` passes on; suffix removal is on unless switched off. */
  function RelationshipLabelQuery(r: Relationship, requested: Option<string>, removeSuffix: bool,
                                  fallbackLabel: Option<string>, anyLang: bool, toQName: bool): LabelQuery {
    LabelQuery(RelationshipLabelRole(r), requested, fallbackLabel, anyLang, toQName, removeSuffix)
  }

  datatype PresentationStyle = Empty | List | Table | Hybrid

  predicate AnyHypercube(rels: seq<Relationship>) {
    exists i :: 0 <= i < |rels| && rels[i].concept.isHypercube
  }

  predicate AnyReportable(rels: seq<Relationship>) {
    exists i :: 0 <= i < |rels| && IsReportable(rels[i].concept)
  }

  /** The state of the stack walk: the two parallel frame stacks and the two style flags. */
  datatype Walk = Walk(inHypercube: seq<bool>, hypercubeDepth: seq<int>, listStyle: bool, tableStyle: bool)

  /** The bottom frame is the non-hypercube frame of depth 0 and is never popped. */
  predicate WellFormed(w: Walk) {
    |w.inHypercube| == |w.hypercubeDepth| >= 1 && !w.inHypercube[0]
  }

  const StartWalk: Walk := Walk([false], [0], false, false)

  /** The frame on top is popped when the row is at depth 0 or shallower than the frame. */
  predicate PopsFrame(w: Walk, rel: Relationship)
    requires WellFormed(w)
  {
    w.inHypercube[|w.inHypercube| - 1]
    && (rel.depth == 0 || rel.depth < w.hypercubeDepth[|w.hypercubeDepth| - 1])
  }

  /** The first step of an iteration: pop the top frame if the row leaves it. */
  function PopFor(w: Walk, rel: Relationship): (w': Walk)
    requires WellFormed(w)
    ensures WellFormed(w') && w'.listStyle == w.listStyle && w'.tableStyle == w.tableStyle
    ensures |w'.inHypercube| >= |w.inHypercube| - 1
  {
    var n := |w.inHypercube|;
    if PopsFrame(w, rel) then w.(inHypercube := w.inHypercube[..n - 1], hypercubeDepth := w.hypercubeDepth[..n - 1])
    else w
  }

  /** The second step: a hypercube row opens a frame at its depth. */
  function PushFor(w: Walk, rel: Relationship): (w': Walk)
    requires WellFormed(w)
    ensures WellFormed(w') && w'.listStyle == w.listStyle && w'.tableStyle == w.tableStyle
    ensures |w'.inHypercube| >= |w.inHypercube|
  {
    if rel.concept.isHypercube
    then w.(inHypercube := w.inHypercube + [true], hypercubeDepth := w.hypercubeDepth + [rel.depth])
    else w
  }

  /** The last step: a reportable row inside a hypercube frame and not above it is tabular, any other is listed. */
  function MarkFor(w: Walk, rel: Relationship): (w': Walk)
    requires WellFormed(w)
    ensures WellFormed(w') && w'.inHypercube == w.inHypercube && w'.hypercubeDepth == w.hypercubeDepth
    ensures (w.listStyle ==> w'.listStyle) && (w.tableStyle ==> w'.tableStyle)
    ensures IsReportable(rel.concept) ==> w'.listStyle || w'.tableStyle
  {
    var m := |w.inHypercube|;
    if !IsReportable(rel.concept) then w
    else if w.inHypercube[m - 1] && rel.depth >= w.hypercubeDepth[m - 1] then w.(tableStyle := true)
    else w.(listStyle := true)
  }

  /** One iteration of the loop of `_identifyPresentationStyle`: at most one frame is popped. */
  function StepRow(w: Walk, rel: Relationship): (w': Walk)
    requires WellFormed(w)
    ensures WellFormed(w')
    ensures |w'.inHypercube| >= |w.inHypercube| - 1
    ensures (w.listStyle ==> w'.listStyle) && (w.tableStyle ==> w'.tableStyle)
    ensures IsReportable(rel.concept) ==> w'.listStyle || w'.tableStyle
  {
    MarkFor(PushFor(PopFor(w, rel), rel), rel)
  }

  function WalkRows(w: Walk, rels: seq<Relationship>): (w': Walk)
    requires WellFormed(w)
    ensures WellFormed(w')
    ensures (w.listStyle ==> w'.listStyle) && (w.tableStyle ==> w'.tableStyle)
    decreases |rels|
  {
    if rels == [] then w else StepRow(WalkRows(w, rels[..|rels| - 1]), rels[|rels| - 1])
  }

  function StyleOfFlags(tableStyle: bool, listStyle: bool): PresentationStyle {
    if tableStyle && listStyle then Hybrid
    else if tableStyle then Table
    else if listStyle then List
    else Empty
  }

  /** The specification of `_identifyPresentationStyle`. */
  function StyleOf(rels: seq<Relationship>): PresentationStyle {
    if !AnyReportable(rels) then Empty
    else if !AnyHypercube(rels) then List
    else
      var w := WalkRows(StartWalk, rels);
      StyleOfFlags(w.tableStyle, w.listStyle)
  }

  /** `_identifyPresentationStyle`: the two early answers, then the stack walk. */
  method IdentifyPresentationStyle(rels: seq<Relationship>) returns (style: PresentationStyle)
    ensures style == StyleOf(rels)
  {
    if !AnyReportable(rels) {
      return Empty;
    }
    if !AnyHypercube(rels) {
      return List;
    }
    var listStyle, tableStyle := WalkFrames(rels);
    return StyleOfFlags(tableStyle, listStyle);
  }

  /** The loop of `_identifyPresentationStyle` over the rows in order, with its two frame stacks. */
  method WalkFrames(rels: seq<Relationship>) returns (listStyle: bool, tableStyle: bool)
    ensures listStyle == WalkRows(StartWalk, rels).listStyle && tableStyle == WalkRows(StartWalk, rels).tableStyle
  {
    listStyle := false;
    tableStyle := false;
    var inHypercube := [false];
    var hypercubeDepth := [0];
    var i := 0;
    while i < |rels|
      invariant 0 <= i <= |rels|
      invariant WellFormed(Walk(inHypercube, hypercubeDepth, listStyle, tableStyle))
      invariant Walk(inHypercube, hypercubeDepth, listStyle, tableStyle) == WalkRows(StartWalk, rels[..i])
    {
      inHypercube, hypercubeDepth, listStyle, tableStyle := VisitRow(inHypercube, hypercubeDepth, listStyle, tableStyle, rels[i]);
      assert rels[..i + 1][..i] == rels[..i];
      i := i + 1;
    }
    assert rels[..i] == rels;
  }

  /** One iteration of the loop of `_identifyPresentationStyle`, on the two stacks and the two flags. */
  method VisitRow(inHypercube0: seq<bool>, hypercubeDepth0: seq<int>, listStyle0: bool, tableStyle0: bool, rel: Relationship)
    returns (inHypercube: seq<bool>, hypercubeDepth: seq<int>, listStyle: bool, tableStyle: bool)
    requires WellFormed(Walk(inHypercube0, hypercubeDepth0, listStyle0, tableStyle0))
    ensures var w := StepRow(Walk(inHypercube0, hypercubeDepth0, listStyle0, tableStyle0), rel);
            inHypercube == w.inHypercube && hypercubeDepth == w.hypercubeDepth && listStyle == w.listStyle && tableStyle == w.tableStyle
  {
    ghost var w0 := Walk(inHypercube0, hypercubeDepth0, listStyle0, tableStyle0);
    inHypercube, hypercubeDepth, listStyle, tableStyle := inHypercube0, hypercubeDepth0, listStyle0, tableStyle0;
    if inHypercube[|inHypercube| - 1] && (0 == rel.depth || rel.depth < hypercubeDepth[|hypercubeDepth| - 1]) {
      hypercubeDepth := hypercubeDepth[..|hypercubeDepth| - 1];
      inHypercube := inHypercube[..|inHypercube| - 1];
    } else {
      assert !PopsFrame(w0, rel);
    }
    assert Walk(inHypercube, hypercubeDepth, listStyle, tableStyle) == PopFor(w0, rel);
    ghost var w1 := Walk(inHypercube, hypercubeDepth, listStyle, tableStyle);
    if rel.concept.isHypercube {
      inHypercube := inHypercube + [true];
      hypercubeDepth := hypercubeDepth + [rel.depth];
    }
    assert Walk(inHypercube, hypercubeDepth, listStyle, tableStyle) == PushFor(w1, rel);
    ghost var w2 := Walk(inHypercube, hypercubeDepth, listStyle, tableStyle);
    listStyle, tableStyle := MarkRow(inHypercube, hypercubeDepth, listStyle, tableStyle, rel);
  }

  /** The last step of an iteration: the row's style flag. */
  method MarkRow(inHypercube: seq<bool>, hypercubeDepth: seq<int>, listStyle0: bool, tableStyle0: bool, rel: Relationship)
    returns (listStyle: bool, tableStyle: bool)
    requires WellFormed(Walk(inHypercube, hypercubeDepth, listStyle0, tableStyle0))
    ensures var w := MarkFor(Walk(inHypercube, hypercubeDepth, listStyle0, tableStyle0), rel);
            listStyle == w.listStyle && tableStyle == w.tableStyle
  {
    listStyle, tableStyle := listStyle0, tableStyle0;
    if IsReportable(rel.concept) {
      if inHypercube[|inHypercube| - 1] && rel.depth >= hypercubeDepth[|hypercubeDepth| - 1] {
        tableStyle := true;
      } else {
        listStyle := true;
      }
    }
  }

  /** Walking two lists of rows one after the other is walking their concatenation. */
  lemma {:induction false} WalkRowsAppend(w: Walk, a: seq<Relationship>, b: seq<Relationship>)
    requires WellFormed(w)
    ensures WalkRows(w, a + b) == WalkRows(WalkRows(w, a), b)
    decreases |b|
  {
    if b == [] {
      assert a + b == a;
    } else {
      assert (a + b)[..|a + b| - 1] == a + b[..|b| - 1];
      WalkRowsAppend(w, a, b[..|b| - 1]);
    }
  }

  /** A reportable row sets one of the two flags for good. */
  lemma {:induction false} WalkSetsFlag(w: Walk, rels: seq<Relationship>)
    requires WellFormed(w) && AnyReportable(rels)
    ensures WalkRows(w, rels).listStyle || WalkRows(w, rels).tableStyle
    decreases |rels|
  {
    var n := |rels|;
    if !IsReportable(rels[n - 1].concept) {
      var i :| 0 <= i < n && IsReportable(rels[i].concept);
      assert rels[..n - 1][i] == rels[i];
      WalkSetsFlag(w, rels[..n - 1]);
    }
  }

  /** A group is Empty exactly when it has no reportable row; without hypercubes it is a List. */
  lemma StyleEmptyIff(rels: seq<Relationship>)
    ensures StyleOf(rels) == Empty <==> !AnyReportable(rels)
    ensures AnyReportable(rels) && !AnyHypercube(rels) ==> StyleOf(rels) == List
  {
    if AnyReportable(rels) && AnyHypercube(rels) {
      WalkSetsFlag(StartWalk, rels);
    }
  }

  /**
   * A hypercube row directly followed by a reportable row at the same or a
   * greater non-zero depth makes the group a Table or a Hybrid.
   */
  lemma HypercubeChildMakesTable(pre: seq<Relationship>, hc: Relationship, row: Relationship, post: seq<Relationship>)
    requires hc.concept.isHypercube && !row.concept.isHypercube && IsReportable(row.concept)
    requires row.depth != 0 && row.depth >= hc.depth
    ensures StyleOf(pre + [hc, row] + post) == Table || StyleOf(pre + [hc, row] + post) == Hybrid
  {
    var rels := pre + [hc, row] + post;
    assert rels[|pre|] == hc && rels[|pre| + 1] == row;
    var front := pre + [hc, row];
    assert front[..|front| - 1] == pre + [hc];
    assert (pre + [hc])[..|pre|] == pre;
    var w := WalkRows(StartWalk, pre);
    var w1 := StepRow(w, hc);
    assert WalkRows(StartWalk, pre + [hc]) == w1;
    var n1 := |w1.inHypercube|;
    assert w1.inHypercube[n1 - 1] && w1.hypercubeDepth[n1 - 1] == hc.depth;
    assert PopFor(w1, row) == w1;
    assert PushFor(w1, row) == w1;
    assert WalkRows(StartWalk, front).tableStyle;
    WalkRowsAppend(StartWalk, front, post);
  }

  /** The group's label texts by language. */
  type GroupLabels = seq<(string, string)>

  datatype PresentationGroup = PresentationGroup(
    style: PresentationStyle,
    roleUri: string,
    definition: string,
    labels: GroupLabels,
    relationships: seq<Relationship>)

  /**
   * `PresentationGroup.getLabel`: the label in the requested language, else
   * the label in the default language, else the definition; empty labels
   * count as missing.
   */
  function GroupLabel(g: PresentationGroup, requested: Option<string>, defaultLanguage: Option<string>): (r: string)
    ensures Truthy(requested) && Truthy(Get(g.labels, requested.value)) ==> r == Get(g.labels, requested.value).value
    ensures !(Truthy(requested) && Truthy(Get(g.labels, requested.value))) &&
            Truthy(defaultLanguage) && Truthy(Get(g.labels, defaultLanguage.value))
            ==> r == Get(g.labels, defaultLanguage.value).value
    ensures !(Truthy(requested) && Truthy(Get(g.labels, requested.value))) &&
            !(Truthy(defaultLanguage) && Truthy(Get(g.labels, defaultLanguage.value)))
            ==> r == g.definition
    ensures r == g.definition || (r != [] && exists i :: 0 <= i < |g.labels| && g.labels[i].1 == r)
    ensures g.labels == [] ==> r == g.definition
  {
    var a := if Truthy(requested) then Get(g.labels, requested.value) else None;
    if Truthy(a) then a.value
    else
      var b := if Truthy(defaultLanguage) then Get(g.labels, defaultLanguage.value) else None;
      if Truthy(b) then b.value else g.definition
  }

  /** A row of a group as the JSON gives it; a two-element row has no preferred label. */
  datatype Row = Row(indent: int, concept: QName, preferredLabel: Option<string>)

  datatype GroupJson = GroupJson(rows: Option<seq<Row>>, definition: Option<string>, labels: Option<GroupLabels>)

  /** The relationships of the remaining rows, appended to `acc`; the first unknown concept raises `KeyError`. */
  function RelationshipsFrom(concepts: map<QName, Concept>, roleUri: string, rows: seq<Row>, acc: seq<Relationship>)
    : Result<seq<Relationship>, Error>
  {
    if rows == [] then Ok(acc)
    else if rows[0].concept !in concepts then Err(ConceptKeyError(rows[0].concept))
    else
      RelationshipsFrom(concepts, roleUri, rows[1..],
                        acc + [Relationship(roleUri, rows[0].indent, concepts[rows[0].concept], rows[0].preferredLabel)])
  }

  /** Each row gives the relationship at the same position, when every concept is known. */
  predicate RowsGive(concepts: map<QName, Concept>, roleUri: string, rows: seq<Row>, rels: seq<Relationship>) {
    |rels| == |rows| &&
    forall i :: 0 <= i < |rows| ==>
      rows[i].concept in concepts &&
      rels[i] == Relationship(roleUri, rows[i].indent, concepts[rows[i].concept], rows[i].preferredLabel)
  }

  lemma {:induction false} RelationshipsFromMeaning(concepts: map<QName, Concept>, roleUri: string, rows: seq<Row>, acc: seq<Relationship>)
    ensures RelationshipsFrom(concepts, roleUri, rows, acc).Ok? <==> forall i :: 0 <= i < |rows| ==> rows[i].concept in concepts
    ensures RelationshipsFrom(concepts, roleUri, rows, acc).Ok? ==>
      var rels := RelationshipsFrom(concepts, roleUri, rows, acc).value;
      |rels| == |acc| + |rows| && rels[..|acc|] == acc && RowsGive(concepts, roleUri, rows, rels[|acc|..])
    ensures RelationshipsFrom(concepts, roleUri, rows, acc).Err? ==>
      exists i :: 0 <= i < |rows| && rows[i].concept !in concepts &&
        RelationshipsFrom(concepts, roleUri, rows, acc).error == ConceptKeyError(rows[i].concept)
  {
    if rows != [] && rows[0].concept in concepts {
      var rel := Relationship(roleUri, rows[0].indent, concepts[rows[0].concept], rows[0].preferredLabel);
      RelationshipsFromMeaning(concepts, roleUri, rows[1..], acc + [rel]);
      var r := RelationshipsFrom(concepts, roleUri, rows[1..], acc + [rel]);
      assert (forall i :: 0 <= i < |rows| ==> rows[i].concept in concepts)
        <==> (forall i :: 0 <= i < |rows[1..]| ==> rows[1..][i].concept in concepts) by {
        if forall i :: 0 <= i < |rows[1..]| ==> rows[1..][i].concept in concepts {
          forall i | 0 <= i < |rows| ensures rows[i].concept in concepts {
            if i > 0 {
              assert rows[i] == rows[1..][i - 1];
            }
          }
        }
      }
      if r.Ok? {
        var rels := r.value;
        assert rels[..|acc|] == (acc + [rel])[..|acc|];
        forall i | 0 <= i < |rows|
          ensures rels[|acc|..][i] == Relationship(roleUri, rows[i].indent, concepts[rows[i].concept], rows[i].preferredLabel)
        {
          if i == 0 {
            assert rels[|acc|] == (acc + [rel])[|acc|];
          } else {
            assert rows[i] == rows[1..][i - 1];
            assert rels[|acc|..][i] == rels[|acc + [rel]|..][i - 1];
          }
        }
      } else {
        var i :| 0 <= i < |rows[1..]| && rows[1..][i].concept !in concepts && r.error == ConceptKeyError(rows[1..][i].concept);
        assert rows[i + 1] == rows[1..][i];
      }
    }
  }

  /** The specification of `PresentationGroup.fromJSON`. */
  function GroupSpec(concepts: map<QName, Concept>, roleUri: string, meta: GroupJson): Result<PresentationGroup, Error> {
    if meta.rows.None? then Err(KeyError("rows"))
    else
      var rels :- RelationshipsFrom(concepts, roleUri, meta.rows.value, []);
      Ok(PresentationGroup(StyleOf(rels), roleUri, Strip(meta.definition.GetOr("")), meta.labels.GetOr([]), rels))
  }

  /**
   * `PresentationGroup.fromJSON`: one relationship per row, in order, each
   * concept looked up in the taxonomy; then the style is classified.
   */
  method GroupFromJson(concepts: map<QName, Concept>, roleUri: string, meta: GroupJson)
    returns (r: Result<PresentationGroup, Error>)
    ensures r == GroupSpec(concepts, roleUri, meta)
    ensures r.Ok? <==> meta.rows.Some? && forall i :: 0 <= i < |meta.rows.value| ==> meta.rows.value[i].concept in concepts
    ensures r.Ok? ==> RowsGive(concepts, roleUri, meta.rows.value, r.value.relationships)
  {
    if meta.rows.None? {
      return Err(KeyError("rows"));
    }
    var rows := meta.rows.value;
    RelationshipsFromMeaning(concepts, roleUri, rows, []);
    var relationships: seq<Relationship> := [];
    var i := 0;
    while i < |rows|
      invariant 0 <= i <= |rows|
      invariant RelationshipsFrom(concepts, roleUri, rows[i..], relationships) == RelationshipsFrom(concepts, roleUri, rows, [])
    {
      var row := rows[i];
      if row.concept !in concepts {
        assert rows[i..][0] == row;
        return Err(ConceptKeyError(row.concept));
      }
      relationships := relationships + [Relationship(roleUri, row.indent, concepts[row.concept], row.preferredLabel)];
      assert rows[i..][1..] == rows[i + 1..];
      i := i + 1;
    }
    var style := IdentifyPresentationStyle(relationships);
    var definition := Strip(meta.definition.GetOr(""));
    return Ok(PresentationGroup(style, roleUri, definition, meta.labels.GetOr([]), relationships));
  }
}

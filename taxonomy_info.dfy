/** Order-preserving de-duplication used when listing taxonomy contents. */
module TaxonomyInfo {

  predicate NoDuplicates<T(==)>(xs: seq<T>) {
    forall i, j :: 0 <= i < j < |xs| ==> xs[i] != xs[j]
  }

  /** The position of the first occurrence of `x` in `xs`. */
  function FirstIndex<T(==)>(xs: seq<T>, x: T): (k: nat)
    requires x in xs
    ensures k < |xs| && xs[k] == x && x !in xs[..k]
  {
    if xs[0] == x then 0 else 1 + FirstIndex(xs[1..], x)
  }

  /**
   * `unique_list`, that is `list(dict.fromkeys(i))`: each element once, at the
   * place of its first occurrence.
   */
  function UniqueList<T(==)>(xs: seq<T>): (r: seq<T>)
    ensures NoDuplicates(r)
    ensures forall i :: 0 <= i < |r| ==> r[i] in xs
    ensures forall i :: 0 <= i < |xs| ==> xs[i] in r
    ensures |r| <= |xs|
  {
    if xs == [] then []
    else
      var front := UniqueList(xs[..|xs| - 1]);
      var last := xs[|xs| - 1];
      assert forall i :: 0 <= i < |xs| - 1 ==> xs[i] == xs[..|xs| - 1][i];
      if last in front then front else front + [last]
  }

  /** The kept elements appear in the order of their first occurrences. */
  lemma {:induction false} FirstOccurrenceOrder<T>(xs: seq<T>, i: nat, j: nat)
    requires i < j < |UniqueList(xs)|
    ensures FirstIndex(xs, UniqueList(xs)[i]) < FirstIndex(xs, UniqueList(xs)[j])
  {
    var front := xs[..|xs| - 1];
    var last := xs[|xs| - 1];
    var u := UniqueList(front);
    var r := UniqueList(xs);
    assert xs == front + [last];
    FirstIndexPrefix(front, last, r[i]);
    if j < |u| {
      assert r[i] == u[i] && r[j] == u[j];
      FirstOccurrenceOrder(front, i, j);
      FirstIndexPrefix(front, last, r[j]);
    } else {
      assert r[j] == last && last !in u;
      assert r[i] == u[i] && r[i] in front;
      assert last !in front;
      FirstIndexLast(front, last);
    }
  }

  lemma FirstIndexPrefix<T>(front: seq<T>, last: T, x: T)
    requires x in front
    ensures FirstIndex(front + [last], x) == FirstIndex(front, x)
  {
    var k := FirstIndex(front, x);
    assert (front + [last])[..k] == front[..k];
    assert (front + [last])[k] == x;
  }

  lemma FirstIndexLast<T>(front: seq<T>, last: T)
    requires last !in front
    ensures FirstIndex(front + [last], last) == |front|
  {
    var s := front + [last];
    assert s[..|front|] == front;
  }

  /** A list without duplicates comes back unchanged, so de-duplicating twice is de-duplicating once. */
  lemma {:induction false} UniqueListKeeps<T>(xs: seq<T>)
    requires NoDuplicates(xs)
    ensures UniqueList(xs) == xs
  {
    if xs != [] {
      var front := xs[..|xs| - 1];
      assert NoDuplicates(front);
      UniqueListKeeps(front);
      assert xs[|xs| - 1] !in front;
      assert xs == front + [xs[|xs| - 1]];
    }
  }

  lemma UniqueListIdempotent<T>(xs: seq<T>)
    ensures UniqueList(UniqueList(xs)) == UniqueList(xs)
  {
    UniqueListKeeps(UniqueList(xs));
  }
}

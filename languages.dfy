/**
 * The label-language counter behind `Taxonomy.defaultLanguage`: a
 * `Counter` over the lower-cased label languages, asked for its most
 * common entry.
 */
module LanguageCounts {
  import opened Wrappers

  /** How often `x` occurs in `stream`. */
  function Count(stream: seq<string>, x: string): nat {
    multiset(stream)[x]
  }

  /**
   * The leader among the first `n` entries of the stream: the first entry
   * whose count (over the whole stream) no later one exceeds. A later entry
   * takes over only with a strictly higher count, as `max` keeps the first
   * of equal keys.
   */
  function Leader(stream: seq<string>, n: nat): (r: string)
    requires 1 <= n <= |stream|
    ensures exists j :: 0 <= j < n && stream[j] == r && forall k :: 0 <= k < j ==> Count(stream, stream[k]) < Count(stream, r)
    ensures forall k :: 0 <= k < n ==> Count(stream, stream[k]) <= Count(stream, r)
  {
    if n == 1 then stream[0]
    else
      var best := Leader(stream, n - 1);
      if Count(stream, stream[n - 1]) > Count(stream, best) then stream[n - 1] else best
  }

  /**
   * `counts.most_common(1)[0][0]`, or `None` for an empty counter: a most
   * frequent language, the first inserted one among equally frequent ones.
   */
  function MostCommon(stream: seq<string>): (r: Option<string>)
    ensures r.None? <==> stream == []
    ensures r.Some? ==> r.value in stream
    ensures r.Some? ==> forall x :: x in stream ==> Count(stream, x) <= Count(stream, r.value)
    ensures r.Some? ==> forall k :: 0 <= k < |stream| && Count(stream, stream[k]) == Count(stream, r.value) ==> r.value in stream[..k + 1]
  {
    if stream == [] then None
    else
      var l := Leader(stream, |stream|);
      assert forall k :: 0 <= k < |stream| && Count(stream, stream[k]) == Count(stream, l) ==> l in stream[..k + 1] by {
        var j :| 0 <= j < |stream| && stream[j] == l && forall k :: 0 <= k < j ==> Count(stream, stream[k]) < Count(stream, l);
        forall k | 0 <= k < |stream| && Count(stream, stream[k]) == Count(stream, l)
          ensures l in stream[..k + 1]
        {
          assert j <= k;
          assert stream[..k + 1][j] == l;
        }
      }
      Some(l)
  }
}

/**
 * The severity pass (`extract_severity`): for every description, the leftmost
 * `L` followed by a decimal digit (`re.search(r"(L[0-9])", match)`), or `None`.
 * The declared severity scale is not consulted, so `L0`..`L9` are all accepted.
 */
module Severity {
  import opened Wrappers
  import opened Text
  import opened Taxonomy

  /** `L[0-9]` matches at `p`. */
  predicate SeverityAt(m: string, p: nat) {
    p + 2 <= |m| && m[p] == 'L' && IsDigit(m[p + 1])
  }

  /** The leftmost severity token at or after `p`. */
  function SeverityFrom(m: string, p: nat): (r: Option<string>)
    requires p <= |m|
    decreases |m| - p
    ensures r.None? <==> forall q :: p <= q ==> !SeverityAt(m, q)
    ensures r.Some? ==>
      exists q :: p <= q && SeverityAt(m, q) && r.value == m[q..q + 2]
        && forall q' :: p <= q' < q ==> !SeverityAt(m, q')
  {
    if p + 2 > |m| then None
    else if SeverityAt(m, p) then Some(m[p..p + 2])
    else SeverityFrom(m, p + 1)
  }

  /**
   * The severity of one description: `None` exactly when no `L` is followed by
   * a digit; otherwise the two characters of the leftmost such pair.
   */
  function SeverityOf(m: string): (r: Option<string>)
    ensures r.None? <==> forall q: nat :: !SeverityAt(m, q)
    ensures r.Some? ==> |r.value| == 2 && r.value[0] == 'L' && IsDigit(r.value[1])
    ensures r.Some? ==>
      exists q: nat :: SeverityAt(m, q) && r.value == m[q..q + 2]
        && forall q' :: 0 <= q' < q ==> !SeverityAt(m, q')
  {
    SeverityFrom(m, 0)
  }

  /** `extract_severity`: one entry per description, in order. */
  function Severities(ms: seq<string>): (r: seq<Option<string>>)
    ensures |r| == |ms|
    ensures forall k :: 0 <= k < |ms| ==> r[k] == SeverityOf(ms[k])
  {
    if ms == [] then []
    else
      var rest := Severities(ms[1..]);
      assert forall k :: 1 <= k < |ms| ==> rest[k - 1] == SeverityOf(ms[k]);
      [SeverityOf(ms[0])] + rest
  }

  /** The declared scale is unused: `L9`, which it does not list, is still extracted. */
  lemma SeverityScaleUnused()
    ensures "L9" !in SeverityList
    ensures SeverityOf("L9") == Some("L9")
  {
    assert SeverityAt("L9", 0);
    assert "L9"[0..2] == "L9";
  }
}

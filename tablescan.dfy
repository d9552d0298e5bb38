/**
 * The per-description scan of a taxonomy table shared by the class pass and
 * the variable pass: every table entry contained in the description is
 * appended, in table order, while the shared counter is below the number of
 * descriptions; when nothing was appended, `None` is appended instead.
 */
module TableScan {
  import opened Wrappers
  import opened Text

  /** Table entries contained in `m`, in table order, at most `budget` of them. */
  function Hits(m: string, table: seq<string>, budget: nat): (r: seq<Option<string>>)
    decreases |table|
    ensures |r| <= budget && |r| <= |table|
  {
    if table == [] || budget == 0 then []
    else if Contains(m, table[0]) then [Some(table[0])] + Hits(m, table[1..], budget - 1)
    else Hits(m, table[1..], budget)
  }

  /** Reference definition: every table entry contained in `m`, in table order, with no budget. */
  function ContainedLabels(m: string, table: seq<string>): (r: seq<Option<string>>)
    decreases |table|
  {
    if table == [] then []
    else (if Contains(m, table[0]) then [Some(table[0])] else []) + ContainedLabels(m, table[1..])
  }

  /** The reference list holds every contained table entry and nothing else. */
  lemma {:induction false} ContainedLabelsMeaning(m: string, table: seq<string>)
    ensures var r := ContainedLabels(m, table);
      (forall k :: 0 <= k < |r| ==> r[k].Some? && r[k].value in table && Contains(m, r[k].value))
      && (forall j :: 0 <= j < |table| && Contains(m, table[j]) ==> Some(table[j]) in r)
    decreases |table|
  {
    if table != [] {
      ContainedLabelsMeaning(m, table[1..]);
      assert forall j :: 1 <= j < |table| ==> table[j] == table[1..][j - 1];
    }
  }

  /**
   * The inner loop appends every contained label in table order and stops
   * only when the counter's room is used up: its result is the reference
   * list cut to the budget.
   */
  lemma {:induction false} HitsTruncates(m: string, table: seq<string>, budget: nat)
    ensures var c := ContainedLabels(m, table);
      Hits(m, table, budget) == if budget < |c| then c[..budget] else c
    decreases |table|
  {
    if table != [] && budget != 0 {
      var rest := ContainedLabels(m, table[1..]);
      if Contains(m, table[0]) {
        HitsTruncates(m, table[1..], budget - 1);
        var c := [Some(table[0])] + rest;
        assert ContainedLabels(m, table) == c;
        assert Hits(m, table, budget) == [Some(table[0])] + Hits(m, table[1..], budget - 1);
        if budget - 1 < |rest| {
          assert c[..budget] == [Some(table[0])] + rest[..budget - 1];
        }
      } else {
        HitsTruncates(m, table[1..], budget);
        assert ContainedLabels(m, table) == [] + rest;
        assert Hits(m, table, budget) == Hits(m, table[1..], budget);
      }
    }
  }

  /** What one description appends when the counter stands at `i` out of `n`. */
  function Step(m: string, table: seq<string>, i: nat, n: nat): (r: seq<Option<string>>)
  {
    var hits := Hits(m, table, if i < n then n - i else 0);
    if hits == [] then [None] else hits
  }

  lemma {:induction false} HitsEntries(m: string, table: seq<string>, budget: nat)
    ensures forall k :: 0 <= k < |Hits(m, table, budget)| ==>
      Hits(m, table, budget)[k].Some? && Hits(m, table, budget)[k].value in table
      && Contains(m, Hits(m, table, budget)[k].value)
    decreases |table|
  {
    if table != [] && budget != 0 {
      var b := if Contains(m, table[0]) then budget - 1 else budget;
      HitsEntries(m, table[1..], b);
      forall x | x in table[1..] ensures x in table { }
    }
  }

  lemma StepBounds(m: string, table: seq<string>, i: nat, n: nat)
    ensures 1 <= |Step(m, table, i, n)|
    ensures i < n ==> i + |Step(m, table, i, n)| <= n
    ensures forall k :: 0 <= k < |Step(m, table, i, n)| ==>
      Step(m, table, i, n)[k] == None
      || (Step(m, table, i, n)[k].value in table && Contains(m, Step(m, table, i, n)[k].value))
  {
    HitsEntries(m, table, if i < n then n - i else 0);
  }

  /** The first table entry contained in `m`. */
  function FirstHit(m: string, table: seq<string>): (r: Option<string>)
    decreases |table|
    ensures r.Some? ==> r.value in table && Contains(m, r.value)
    ensures r.None? <==> forall k :: 0 <= k < |table| ==> !Contains(m, table[k])
  {
    if table == [] then None
    else if Contains(m, table[0]) then Some(table[0])
    else FirstHit(m, table[1..])
  }

  /** The entry found stands at an index before which no entry is contained. */
  lemma {:induction false} FirstHitFirst(m: string, table: seq<string>)
    requires FirstHit(m, table).Some?
    ensures exists k ::
      0 <= k < |table| && table[k] == FirstHit(m, table).value && forall j :: 0 <= j < k ==> !Contains(m, table[j])
    decreases |table|
  {
    if !Contains(m, table[0]) {
      FirstHitFirst(m, table[1..]);
      var k :|
        0 <= k < |table[1..]| && table[1..][k] == FirstHit(m, table[1..]).value && forall j :: 0 <= j < k ==> !Contains(m, table[1..][j]);
      assert forall j :: 0 <= j < k + 1 ==> !Contains(m, table[j]) by {
        forall j | 1 <= j < k + 1 ensures !Contains(m, table[j]) {
          assert table[j] == table[1..][j - 1];
        }
      }
      assert table[k + 1] == FirstHit(m, table).value;
    } else {
      assert table[0] == FirstHit(m, table).value;
    }
  }

  /** No two entries of `table` are both contained in `m`. */
  predicate AtMostOneHit(m: string, table: seq<string>) {
    forall a, b :: 0 <= a < b < |table| ==> !(Contains(m, table[a]) && Contains(m, table[b]))
  }

  lemma {:induction false} HitsNone(m: string, table: seq<string>, budget: nat)
    requires forall k :: 0 <= k < |table| ==> !Contains(m, table[k])
    ensures Hits(m, table, budget) == []
    decreases |table|
  {
    if table != [] && budget != 0 {
      HitsNone(m, table[1..], budget);
    }
  }

  /** When at most one entry can be found, the scan yields exactly the first hit or `None`. */
  lemma {:induction false} HitsSingle(m: string, table: seq<string>, budget: nat)
    requires AtMostOneHit(m, table) && budget >= 1
    ensures Hits(m, table, budget) == if FirstHit(m, table).Some? then [FirstHit(m, table)] else []
    decreases |table|
  {
    if table != [] {
      if Contains(m, table[0]) {
        assert forall k :: 0 <= k < |table[1..]| ==> !Contains(m, table[1..][k]) by {
          forall k | 0 <= k < |table[1..]| ensures !Contains(m, table[1..][k]) {
            assert table[1..][k] == table[k + 1];
          }
        }
        HitsNone(m, table[1..], budget - 1);
      } else {
        HitsSingle(m, table[1..], budget);
      }
    }
  }

  lemma StepSingle(m: string, table: seq<string>, i: nat, n: nat)
    requires AtMostOneHit(m, table) && i < n
    ensures Step(m, table, i, n) == [FirstHit(m, table)]
  {
    HitsSingle(m, table, n - i);
  }

  lemma HitsUnfold(m: string, table: seq<string>, j: nat, left: nat)
    requires j < |table| && left > 0
    ensures Hits(m, table[j..], left) ==
      if Contains(m, table[j]) then [Some(table[j])] + Hits(m, table[j + 1..], left - 1)
      else Hits(m, table[j + 1..], left)
  {
    assert table[j..][1..] == table[j + 1..];
  }

  /** One table entry examined: the entries found so far plus the rest of the scan still make up the whole scan. */
  lemma HitsAdvance(m: string, table: seq<string>, j: nat, left: nat,
                    found: seq<Option<string>>, total: seq<Option<string>>)
    requires j < |table| && left > 0 && found + Hits(m, table[j..], left) == total
    ensures Contains(m, table[j]) ==> (found + [Some(table[j])]) + Hits(m, table[j + 1..], left - 1) == total
    ensures !Contains(m, table[j]) ==> found + Hits(m, table[j + 1..], left) == total
  {
    HitsUnfold(m, table, j, left);
  }

  /** The scan is over once the table is exhausted or the budget is spent. */
  lemma HitsDone(m: string, table: seq<string>, j: nat, left: nat,
                 found: seq<Option<string>>, total: seq<Option<string>>)
    requires j <= |table| && found + Hits(m, table[j..], left) == total
    requires j == |table| || left == 0
    ensures found == total
  {
  }

  /**
   * The inner loop over the table for one description (lines 65-76 for
   * classes, 125-133 for variables); `|acc|` plays the counter `i`.
   */
  method AppendStep(acc: seq<Option<string>>, m: string, table: seq<string>, n: nat)
    returns (r: seq<Option<string>>)
    ensures r == acc + Step(m, table, |acc|, n)
  {
    r := acc;
    var i := |acc|;
    ghost var budget := if i < n then n - i else 0;
    ghost var found: seq<Option<string>> := [];
    var noLabelFound := true;
    var j := 0;
    assert table[j..] == table;
    while j < |table|
      invariant 0 <= j <= |table|
      invariant r == acc + found && i == |acc| + |found| && |found| <= budget
      invariant noLabelFound <==> found == []
      invariant found + Hits(m, table[j..], budget - |found|) == Hits(m, table, budget)
    {
      if i >= n {
        break;
      }
      HitsAdvance(m, table, j, budget - |found|, found, Hits(m, table, budget));
      if Contains(m, table[j]) && i < n {
        r := r + [Some(table[j])];
        found := found + [Some(table[j])];
        i := i + 1;
        noLabelFound := false;
      }
      j := j + 1;
    }
    HitsDone(m, table, j, budget - |found|, found, Hits(m, table, budget));
    if noLabelFound {
      r := r + [None];
      i := i + 1;
    }
  }
}

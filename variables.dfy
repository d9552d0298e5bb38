/**
 * The variable pass (`extract_variables`).  A description mentioning
 * "Fast Transient" appends the phase letter its `FastTransient[AD]…` token
 * carries (raising `IndexError` when it has none).  The first other
 * description met while the counter is below the number of descriptions
 * starts a rescan of the WHOLE list from its first description, appending
 * every variable token each contains (or `None`) until the counter reaches
 * the number of descriptions; any later other description stops the pass,
 * while later "Fast Transient" descriptions keep appending past that length.
 */
module Variables {
  import opened Wrappers
  import opened Text
  import opened Taxonomy
  import opened TableScan

  /** The phrase that routes a description to the letter extraction. */
  const FastTransientName: string := "Fast Transient"

  /** The literal the letter pattern starts with. */
  const FastTransientToken: string := "FastTransient"

  /** `[A|B|C|N]`: the bar inside the brackets is a member of the class. */
  predicate InLetterClass(c: char) {
    c == 'A' || c == '|' || c == 'B' || c == 'C' || c == 'N'
  }

  /**
   * Greedy `[a-zA-Z]*` backing off from `j` towards `q`: the first position
   * tried, from `j` down, that holds a member of the letter class.
   */
  function Backtrack(s: string, q: nat, j: nat): (r: Option<char>)
    requires q <= j <= |s|
    decreases j - q
    ensures r.Some? ==> InLetterClass(r.value)
  {
    if j < |s| && InLetterClass(s[j]) then Some(s[j])
    else if j == q then None
    else Backtrack(s, q, j - 1)
  }

  /**
   * Backing off finds the rightmost member of the letter class in `q..j`,
   * and finds nothing only when there is none.
   */
  lemma {:induction false} BacktrackRightmost(s: string, q: nat, j: nat)
    requires q <= j <= |s|
    ensures Backtrack(s, q, j).Some? ==>
      exists x :: q <= x <= j && x < |s| && s[x] == Backtrack(s, q, j).value
        && forall y :: x < y <= j && y < |s| ==> !InLetterClass(s[y])
    ensures Backtrack(s, q, j).None? <==> forall x :: q <= x <= j && x < |s| ==> !InLetterClass(s[x])
    decreases j - q
  {
    if !(j < |s| && InLetterClass(s[j])) && j > q {
      BacktrackRightmost(s, q, j - 1);
    }
  }

  /** `FastTransient[AD][a-zA-Z]*([A|B|C|N])` tried at position `p`: the captured character. */
  function LetterAt(s: string, p: nat): Option<char>
    requires p <= |s|
  {
    if p + 14 <= |s| && MatchesFrom(s, FastTransientToken, p, 0) && (s[p + 13] == 'A' || s[p + 13] == 'D') then
      Backtrack(s, p + 14, LetterRunEnd(s, p + 14))
    else None
  }

  /** The capture of the leftmost match at or after `p`. */
  function LetterFrom(s: string, p: nat): (r: Option<char>)
    requires p <= |s|
    decreases |s| - p
    ensures r.Some? ==> InLetterClass(r.value)
  {
    if LetterAt(s, p).Some? then LetterAt(s, p)
    else if p == |s| then None
    else LetterFrom(s, p + 1)
  }

  /** `findall` reports the match that starts leftmost. */
  lemma {:induction false} LetterFromLeftmost(s: string, p: nat)
    requires p <= |s|
    ensures LetterFrom(s, p).Some? ==>
      exists x :: p <= x <= |s| && LetterAt(s, x) == LetterFrom(s, p)
        && forall y :: p <= y < x ==> LetterAt(s, y).None?
    decreases |s| - p
  {
    if LetterAt(s, p).None? && p < |s| {
      LetterFromLeftmost(s, p + 1);
    }
  }

  /** `findall` finds nothing only when the pattern matches at no position. */
  lemma {:induction false} LetterFromNone(s: string, p: nat)
    requires p <= |s|
    ensures LetterFrom(s, p).None? <==> forall x :: p <= x <= |s| ==> LetterAt(s, x).None?
    decreases |s| - p
  {
    if LetterAt(s, p).None? && p < |s| {
      LetterFromNone(s, p + 1);
    }
  }

  /** `letter[0]` of the `findall` at line 116, or `None` when the list is empty. */
  function FastTransientLetter(m: string): (r: Option<char>)
    ensures r.Some? ==> InLetterClass(r.value)
  {
    LetterFrom(m, 0)
  }

  /**
   * The rescan from description `j` with the counter at `i`: every
   * description appends its step while the counter is below the number of
   * descriptions.
   */
  function Rescan(ms: seq<string>, table: seq<string>, j: nat, i: nat): seq<Option<string>>
    decreases |ms| - j
  {
    if j >= |ms| || i >= |ms| then []
    else
      var step := Step(ms[j], table, i, |ms|);
      step + Rescan(ms, table, j + 1, i + |step|)
  }

  /** What the outer loop produces from description `k` on, with the counter at `i`. */
  function VariablesFrom(ms: seq<string>, table: seq<string>, k: nat, i: nat): Result<seq<Option<string>>>
    requires k <= |ms|
    decreases |ms| - k
  {
    if k == |ms| then Success([])
    else if Contains(ms[k], FastTransientName) then
      match FastTransientLetter(ms[k])
      case None => Failure(IndexError)
      case Some(c) => Prepend([Some([c])], VariablesFrom(ms, table, k + 1, i + 1))
    else if i >= |ms| then Success([])
    else
      var re := Rescan(ms, table, 0, i);
      Prepend(re, VariablesFrom(ms, table, k + 1, i + |re|))
  }

  /** One turn of the outer loop, for a "Fast Transient" description. */
  lemma VariablesFromLetter(ms: seq<string>, table: seq<string>, k: nat, i: nat)
    requires k < |ms| && Contains(ms[k], FastTransientName)
    ensures FastTransientLetter(ms[k]).None? ==> VariablesFrom(ms, table, k, i) == Failure(IndexError)
    ensures FastTransientLetter(ms[k]).Some? ==>
      VariablesFrom(ms, table, k, i)
        == Prepend([Some([FastTransientLetter(ms[k]).value])], VariablesFrom(ms, table, k + 1, i + 1))
  {
  }

  /** One turn of the outer loop, for another description. */
  lemma VariablesFromOther(ms: seq<string>, table: seq<string>, k: nat, i: nat)
    requires k < |ms| && !Contains(ms[k], FastTransientName)
    ensures i >= |ms| ==> VariablesFrom(ms, table, k, i) == Success([])
    ensures i < |ms| ==>
      VariablesFrom(ms, table, k, i)
        == Prepend(Rescan(ms, table, 0, i), VariablesFrom(ms, table, k + 1, i + |Rescan(ms, table, 0, i)|))
  {
  }

  /** A "Fast Transient" turn of the outer loop, seen from the list built so far. */
  lemma VariablesAdvanceLetter(ms: seq<string>, table: seq<string>, k: nat, i: nat,
                               acc: seq<Option<string>>, total: Result<seq<Option<string>>>)
    requires k < |ms| && Contains(ms[k], FastTransientName)
    requires Prepend(acc, VariablesFrom(ms, table, k, i)) == total
    ensures FastTransientLetter(ms[k]).None? ==> total == Failure(IndexError)
    ensures FastTransientLetter(ms[k]).Some? ==>
      Prepend(acc + [Some([FastTransientLetter(ms[k]).value])], VariablesFrom(ms, table, k + 1, i + 1)) == total
  {
    VariablesFromLetter(ms, table, k, i);
    if FastTransientLetter(ms[k]).Some? {
      PrependAssociative(acc, [Some([FastTransientLetter(ms[k]).value])], VariablesFrom(ms, table, k + 1, i + 1));
    }
  }

  /** Another turn of the outer loop, seen from the list built so far. */
  lemma VariablesAdvanceOther(ms: seq<string>, table: seq<string>, k: nat, i: nat,
                              acc: seq<Option<string>>, total: Result<seq<Option<string>>>)
    requires k < |ms| && !Contains(ms[k], FastTransientName) && i == |acc|
    requires Prepend(acc, VariablesFrom(ms, table, k, i)) == total
    ensures i >= |ms| ==> total == Success(acc)
    ensures i < |ms| ==>
      var next := acc + Rescan(ms, table, 0, |acc|);
      Prepend(next, VariablesFrom(ms, table, k + 1, |next|)) == total
  {
    VariablesFromOther(ms, table, k, i);
    if i >= |ms| {
      assert acc + [] == acc;
    } else {
      var re := Rescan(ms, table, 0, i);
      PrependAssociative(acc, re, VariablesFrom(ms, table, k + 1, i + |re|));
    }
  }

  /** What `extract_variables(ms)` returns or raises. */
  function VariablesOf(ms: seq<string>): Result<seq<Option<string>>> {
    VariablesFrom(ms, TargetVariables, 0, 0)
  }

  /**
   * The inner rescan (lines 122-133): from the first description, each
   * description appends its table scan while the counter, the length of
   * the list so far, is below the number of descriptions.
   */
  method RescanAll(acc: seq<Option<string>>, matches: seq<string>, targetVariables: seq<string>)
    returns (variables: seq<Option<string>>)
    ensures variables == acc + Rescan(matches, targetVariables, 0, |acc|)
  {
    variables := acc;
    var j := 0;
    while j < |matches|
      invariant 0 <= j <= |matches|
      invariant variables + Rescan(matches, targetVariables, j, |variables|)
        == acc + Rescan(matches, targetVariables, 0, |acc|)
    {
      if |variables| >= |matches| {
        break;
      }
      ghost var step := Step(matches[j], targetVariables, |variables|, |matches|);
      assert Rescan(matches, targetVariables, j, |variables|)
        == step + Rescan(matches, targetVariables, j + 1, |variables| + |step|);
      variables := AppendStep(variables, matches[j], targetVariables, |matches|);
      j := j + 1;
    }
    assert Rescan(matches, targetVariables, j, |variables|) == [];
    assert variables + [] == variables;
  }

  /**
   * `extract_variables` over the variable table `targetVariables` (the
   * script passes `TargetVariables`).  The rescan's per-description scan
   * skips the remaining tokens once the counter reaches the number of
   * descriptions, which appends exactly what the shared table scan appends.
   */
  method ExtractVariables(matches: seq<string>, targetVariables: seq<string>)
    returns (r: Result<seq<Option<string>>>)
    ensures r == VariablesFrom(matches, targetVariables, 0, 0)
  {
    var variables: seq<Option<string>> := [];
    if matches == [] {
      return Success(variables);
    }
    var i: nat := 0;
    var k: nat := 0;
    ghost var total := VariablesFrom(matches, targetVariables, 0, 0);
    PrependNothing(total);
    while k < |matches|
      invariant 0 <= k <= |matches|
      invariant i == |variables|
      invariant Prepend(variables, VariablesFrom(matches, targetVariables, k, i)) == total
    {
      var m := matches[k];
      if Contains(m, FastTransientName) {
        VariablesAdvanceLetter(matches, targetVariables, k, i, variables, total);
        var letter := FastTransientLetter(m);
        if letter.None? {
          return Failure(IndexError);
        }
        variables := variables + [Some([letter.value])];
        i := i + 1;
        assert Prepend(variables, VariablesFrom(matches, targetVariables, k + 1, i)) == total;
      } else if i >= |matches| {
        VariablesAdvanceOther(matches, targetVariables, k, i, variables, total);
        break;
      } else {
        VariablesAdvanceOther(matches, targetVariables, k, i, variables, total);
        variables := RescanAll(variables, matches, targetVariables);
        i := |variables|;
      }
      k := k + 1;
    }
    assert variables + [] == variables;
    return Success(variables);
  }

  /** The rescan never takes the list past the number of descriptions. */
  lemma {:induction false} RescanBounded(ms: seq<string>, table: seq<string>, j: nat, i: nat)
    ensures |Rescan(ms, table, j, i)| <= if i < |ms| then |ms| - i else 0
    decreases |ms| - j
  {
    if j < |ms| && i < |ms| {
      var step := Step(ms[j], table, i, |ms|);
      StepBounds(ms[j], table, i, |ms|);
      RescanBounded(ms, table, j + 1, i + |step|);
    }
  }

  /**
   * Started no later in the list than the counter stands, the rescan fills
   * the list up to exactly the number of descriptions.
   */
  lemma {:induction false} RescanFills(ms: seq<string>, table: seq<string>, j: nat, i: nat)
    requires j <= i < |ms|
    ensures |Rescan(ms, table, j, i)| == |ms| - i
    decreases |ms| - j
  {
    var step := Step(ms[j], table, i, |ms|);
    StepBounds(ms[j], table, i, |ms|);
    if i + |step| < |ms| {
      RescanFills(ms, table, j + 1, i + |step|);
    }
  }

  /** Every rescan entry is `None` or a table token that one of the rescanned descriptions contains. */
  lemma {:induction false} RescanEntries(ms: seq<string>, table: seq<string>, j: nat, i: nat)
    ensures forall e :: 0 <= e < |Rescan(ms, table, j, i)| ==>
      Rescan(ms, table, j, i)[e] == None
      || (Rescan(ms, table, j, i)[e].value in table
          && exists d :: j <= d < |ms| && Contains(ms[d], Rescan(ms, table, j, i)[e].value))
    decreases |ms| - j
  {
    if j < |ms| && i < |ms| {
      var step := Step(ms[j], table, i, |ms|);
      StepBounds(ms[j], table, i, |ms|);
      RescanEntries(ms, table, j + 1, i + |step|);
      var rest := Rescan(ms, table, j + 1, i + |step|);
      forall e | 0 <= e < |step + rest| && (step + rest)[e] != None
        ensures (step + rest)[e].value in table
          && exists d :: j <= d < |ms| && Contains(ms[d], (step + rest)[e].value)
      {
        if e < |step| {
          assert Contains(ms[j], step[e].value);
        } else {
          assert (step + rest)[e] == rest[e - |step|];
        }
      }
    }
  }

  /**
   * When no description contains two tokens, the rescan from description `j`
   * with the counter at `j` gives description `j + e` entry `e`: its token or `None`.
   */
  lemma {:induction false} RescanAligned(ms: seq<string>, table: seq<string>, j: nat)
    requires j <= |ms|
    requires forall d :: 0 <= d < |ms| ==> AtMostOneHit(ms[d], table)
    ensures |Rescan(ms, table, j, j)| == |ms| - j
    ensures forall e :: 0 <= e < |ms| - j ==> Rescan(ms, table, j, j)[e] == FirstHit(ms[j + e], table)
    decreases |ms| - j
  {
    if j < |ms| {
      StepSingle(ms[j], table, j, |ms|);
      RescanAligned(ms, table, j + 1);
      var rest := Rescan(ms, table, j + 1, j + 1);
      assert Rescan(ms, table, j, j) == [FirstHit(ms[j], table)] + rest;
      forall e | 0 <= e < |ms| - j ensures Rescan(ms, table, j, j)[e] == FirstHit(ms[j + e], table) {
        if e > 0 {
          assert Rescan(ms, table, j, j)[e] == rest[e - 1];
        }
      }
    }
  }

  /** Without "Fast Transient" descriptions the pass is the one rescan from the start. */
  lemma VariablesWithoutFastTransient(ms: seq<string>, table: seq<string>)
    requires ms != []
    requires forall d :: 0 <= d < |ms| ==> !Contains(ms[d], FastTransientName)
    ensures VariablesFrom(ms, table, 0, 0) == Success(Rescan(ms, table, 0, 0))
  {
    var re := Rescan(ms, table, 0, 0);
    RescanFills(ms, table, 0, 0);
    assert VariablesFrom(ms, table, 1, |re|) == Success([]);
    assert re + [] == re;
  }

  /**
   * When every description from `k` on mentions "Fast Transient", the pass
   * raises, with `IndexError`, exactly when one of them carries no letter.
   */
  lemma {:induction false} VariablesAllFastTransientRaises(ms: seq<string>, table: seq<string>, k: nat, i: nat)
    requires k <= |ms|
    requires forall d :: k <= d < |ms| ==> Contains(ms[d], FastTransientName)
    ensures VariablesFrom(ms, table, k, i).Failure? <==>
      exists d :: k <= d < |ms| && FastTransientLetter(ms[d]).None?
    ensures VariablesFrom(ms, table, k, i).Failure? ==> VariablesFrom(ms, table, k, i).error == IndexError
    decreases |ms| - k
  {
    if k < |ms| {
      VariablesFromLetter(ms, table, k, i);
      if FastTransientLetter(ms[k]).Some? {
        VariablesAllFastTransientRaises(ms, table, k + 1, i + 1);
        if exists d :: k <= d < |ms| && FastTransientLetter(ms[d]).None? {
          var d :| k <= d < |ms| && FastTransientLetter(ms[d]).None?;
          assert k + 1 <= d;
        }
      }
    }
  }

  /**
   * When every description from `k` on mentions "Fast Transient" and the
   * pass returns, it appended one letter per description, in order.
   */
  lemma {:induction false} VariablesAllFastTransientLetters(ms: seq<string>, table: seq<string>, k: nat, i: nat)
    requires k <= |ms|
    requires forall d :: k <= d < |ms| ==> Contains(ms[d], FastTransientName)
    requires VariablesFrom(ms, table, k, i).Success?
    ensures |VariablesFrom(ms, table, k, i).value| == |ms| - k
    ensures forall d :: k <= d < |ms| ==>
      FastTransientLetter(ms[d]).Some?
      && VariablesFrom(ms, table, k, i).value[d - k] == Some([FastTransientLetter(ms[d]).value])
    decreases |ms| - k
  {
    if k < |ms| {
      VariablesFromLetter(ms, table, k, i);
      var c := FastTransientLetter(ms[k]).value;
      var rest := VariablesFrom(ms, table, k + 1, i + 1);
      VariablesAllFastTransientLetters(ms, table, k + 1, i + 1);
      var v := VariablesFrom(ms, table, k, i).value;
      assert v == [Some([c])] + rest.value;
      forall d | k <= d < |ms|
        ensures FastTransientLetter(ms[d]).Some? && v[d - k] == Some([FastTransientLetter(ms[d]).value])
      {
        if d == k {
          assert v[0] == Some([c]);
        } else {
          assert v[d - k] == rest.value[d - (k + 1)];
        }
      }
      assert VariablesFrom(ms, table, k, i).value == v;
    }
  }

  /**
   * Once the outer loop has passed as many descriptions as the counter
   * counts, a successful pass never yields fewer entries than descriptions.
   */
  lemma {:induction false} VariablesFromAtLeast(ms: seq<string>, table: seq<string>, k: nat, i: nat)
    requires k <= |ms| && k <= i
    ensures VariablesFrom(ms, table, k, i).Success? ==> i + |VariablesFrom(ms, table, k, i).value| >= |ms|
    decreases |ms| - k
  {
    if k < |ms| {
      if Contains(ms[k], FastTransientName) {
        VariablesFromAtLeast(ms, table, k + 1, i + 1);
      } else if i < |ms| {
        RescanFills(ms, table, 0, i);
        VariablesFromAtLeast(ms, table, k + 1, i + |Rescan(ms, table, 0, i)|);
      }
    }
  }

  /**
   * What `extract_variables` promises in general: `[]` for no descriptions,
   * and a successful pass never has fewer entries than descriptions.
   */
  lemma VariablesSpec(ms: seq<string>, table: seq<string>)
    ensures ms == [] ==> VariablesFrom(ms, table, 0, 0) == Success([])
    ensures VariablesFrom(ms, table, 0, 0).Success? ==> |VariablesFrom(ms, table, 0, 0).value| >= |ms|
  {
    VariablesFromAtLeast(ms, table, 0, 0);
  }

  /**
   * Without "Fast Transient" descriptions: one entry per description, each
   * `None` or a variable token some description contains.
   */
  lemma VariablesPlain(ms: seq<string>, table: seq<string>)
    requires forall d :: 0 <= d < |ms| ==> !Contains(ms[d], FastTransientName)
    ensures VariablesFrom(ms, table, 0, 0).Success?
    ensures |VariablesFrom(ms, table, 0, 0).value| == |ms|
    ensures forall e :: 0 <= e < |ms| ==>
      VariablesFrom(ms, table, 0, 0).value[e] == None
      || (VariablesFrom(ms, table, 0, 0).value[e].value in table
          && exists d :: 0 <= d < |ms| && Contains(ms[d], VariablesFrom(ms, table, 0, 0).value[e].value))
  {
    if ms != [] {
      VariablesWithoutFastTransient(ms, table);
      RescanFills(ms, table, 0, 0);
      RescanEntries(ms, table, 0, 0);
    }
  }

  /**
   * Without "Fast Transient" descriptions, and when no description contains
   * two tokens, entry `e` is description `e`'s own token or `None`.
   */
  lemma VariablesPlainAligned(ms: seq<string>, table: seq<string>)
    requires forall d :: 0 <= d < |ms| ==> !Contains(ms[d], FastTransientName) && AtMostOneHit(ms[d], table)
    ensures VariablesFrom(ms, table, 0, 0).Success?
    ensures |VariablesFrom(ms, table, 0, 0).value| == |ms|
    ensures forall e :: 0 <= e < |ms| ==> VariablesFrom(ms, table, 0, 0).value[e] == FirstHit(ms[e], table)
  {
    if ms != [] {
      VariablesWithoutFastTransient(ms, table);
      RescanAligned(ms, table, 0);
      var v := Rescan(ms, table, 0, 0);
      forall e | 0 <= e < |ms| ensures v[e] == FirstHit(ms[e], table) {
        assert ms[0 + e] == ms[e];
      }
    }
  }

  /**
   * When every description mentions "Fast Transient": `IndexError` exactly
   * when one lacks a letter, else one letter from `A`, `B`, `C`, `N`, `|`
   * per description, in order.
   */
  lemma VariablesAllFastTransient(ms: seq<string>, table: seq<string>)
    requires forall d :: 0 <= d < |ms| ==> Contains(ms[d], FastTransientName)
    ensures VariablesFrom(ms, table, 0, 0) == Failure(IndexError)
      <==> exists d :: 0 <= d < |ms| && FastTransientLetter(ms[d]).None?
    ensures VariablesFrom(ms, table, 0, 0).Success? ==>
      |VariablesFrom(ms, table, 0, 0).value| == |ms|
      && forall d :: 0 <= d < |ms| ==>
           VariablesFrom(ms, table, 0, 0).value[d] == Some([FastTransientLetter(ms[d]).value])
           && InLetterClass(FastTransientLetter(ms[d]).value)
  {
    VariablesAllFastTransientRaises(ms, table, 0, 0);
    if VariablesFrom(ms, table, 0, 0).Success? {
      VariablesAllFastTransientLetters(ms, table, 0, 0);
      var v := VariablesFrom(ms, table, 0, 0).value;
      forall d | 0 <= d < |ms|
        ensures v[d] == Some([FastTransientLetter(ms[d]).value]) && InLetterClass(FastTransientLetter(ms[d]).value)
      {
        assert v[d - 0] == Some([FastTransientLetter(ms[d]).value]);
      }
    }
  }

  /**
   * Two captures the character class allows.  The greedy letter run backs
   * off to its rightmost `A`/`B`/`C`/`N`: after `FastTransientA` the run is
   * `B` and the space stops it, so `B` is captured, not the `C` after the
   * space.  The bar inside `[A|B|C|N]` is captured like a letter.
   */
  lemma FastTransientLetterExamples()
    ensures FastTransientLetter("FastTransientAB C") == Some('B')
    ensures FastTransientLetter("FastTransientDx|") == Some('|')
  {
    var s := "FastTransientAB C";
    assert s[0..13] == FastTransientToken;
    MatchesMeaning(s, FastTransientToken, 0);
    assert LetterRunEnd(s, 14) == 15;
    assert LetterAt(s, 0) == Some('B');
    var t := "FastTransientDx|";
    assert t[0..13] == FastTransientToken;
    MatchesMeaning(t, FastTransientToken, 0);
    assert LetterRunEnd(t, 14) == 15;
    assert LetterAt(t, 0) == Some('|');
  }

  /** The number of consecutive "Fast Transient" descriptions from `k` on. */
  function FastRun(ms: seq<string>, k: nat): (r: nat)
    requires k <= |ms|
    decreases |ms| - k
    ensures k + r <= |ms|
  {
    if k == |ms| || !Contains(ms[k], FastTransientName) then 0 else 1 + FastRun(ms, k + 1)
  }

  /** The run is maximal: every description in it mentions the phrase, and the one after it does not. */
  lemma {:induction false} FastRunMeaning(ms: seq<string>, k: nat)
    requires k <= |ms|
    ensures forall d :: k <= d < k + FastRun(ms, k) ==> Contains(ms[d], FastTransientName)
    ensures k + FastRun(ms, k) == |ms| || !Contains(ms[k + FastRun(ms, k)], FastTransientName)
    decreases |ms| - k
  {
    if k < |ms| && Contains(ms[k], FastTransientName) {
      FastRunMeaning(ms, k + 1);
    }
  }

  /** With the list already full, only a run of "Fast Transient" descriptions still appends, one entry each. */
  lemma {:induction false} VariablesFromFull(ms: seq<string>, table: seq<string>, k: nat, i: nat)
    requires k <= |ms| && |ms| <= i
    requires VariablesFrom(ms, table, k, i).Success?
    ensures |VariablesFrom(ms, table, k, i).value| == FastRun(ms, k)
    decreases |ms| - k
  {
    if k < |ms| && Contains(ms[k], FastTransientName) {
      VariablesFromLetter(ms, table, k, i);
      VariablesFromFull(ms, table, k + 1, i + 1);
    }
  }

  /**
   * From description `k` with the counter at `k`: the leading "Fast
   * Transient" run appends one letter each, the first other description
   * fills the list to the number of descriptions, and the "Fast Transient"
   * run right after it appends past that length.
   */
  lemma {:induction false} VariablesFromLength(ms: seq<string>, table: seq<string>, k: nat)
    requires k <= |ms|
    requires VariablesFrom(ms, table, k, k).Success?
    ensures |VariablesFrom(ms, table, k, k).value|
      == if k + FastRun(ms, k) < |ms| then |ms| - k + FastRun(ms, k + FastRun(ms, k) + 1) else |ms| - k
    decreases |ms| - k
  {
    if k < |ms| {
      if Contains(ms[k], FastTransientName) {
        VariablesFromLetter(ms, table, k, k);
        VariablesFromLength(ms, table, k + 1);
        var run := FastRun(ms, k + 1);
        assert FastRun(ms, k) == 1 + run && k + FastRun(ms, k) == k + 1 + run;
      } else {
        VariablesFromFirstOther(ms, table, k);
      }
    }
  }

  /** The first other description fills the list; the "Fast Transient" run after it appends past that. */
  lemma VariablesFromFirstOther(ms: seq<string>, table: seq<string>, k: nat)
    requires k < |ms| && !Contains(ms[k], FastTransientName)
    requires VariablesFrom(ms, table, k, k).Success?
    ensures |VariablesFrom(ms, table, k, k).value| == |ms| - k + FastRun(ms, k + 1)
  {
    VariablesFromOther(ms, table, k, k);
    RescanFills(ms, table, 0, k);
    VariablesFromFull(ms, table, k + 1, |ms|);
  }

  /**
   * The length of a successful pass: the number of descriptions, plus one
   * for every "Fast Transient" description in the run that directly follows
   * the first description without the phrase.
   */
  lemma VariablesLength(ms: seq<string>, table: seq<string>)
    requires VariablesFrom(ms, table, 0, 0).Success?
    ensures |VariablesFrom(ms, table, 0, 0).value|
      == |ms| + if FastRun(ms, 0) < |ms| then FastRun(ms, FastRun(ms, 0) + 1) else 0
  {
    VariablesFromLength(ms, table, 0);
  }

  /** A "Fast Transient" description in which line 116 finds no letter: `letter[0]` raises on it. */
  predicate Unlettered(m: string) {
    Contains(m, FastTransientName) && FastTransientLetter(m).None?
  }

  /**
   * With the list already full, the pass raises exactly when the run of
   * "Fast Transient" descriptions from `k` holds one without a letter: the
   * first other description ends the pass, so nothing after it is read.
   */
  lemma {:induction false} VariablesFromFullRaises(ms: seq<string>, table: seq<string>, k: nat, i: nat)
    requires k <= |ms| && |ms| <= i
    ensures VariablesFrom(ms, table, k, i).Failure? <==>
      exists d :: k <= d < k + FastRun(ms, k) && Unlettered(ms[d])
    ensures VariablesFrom(ms, table, k, i).Failure? ==> VariablesFrom(ms, table, k, i).error == IndexError
    decreases |ms| - k
  {
    if k < |ms| && Contains(ms[k], FastTransientName) {
      VariablesFromLetter(ms, table, k, i);
      if FastTransientLetter(ms[k]).Some? {
        VariablesFromFullRaises(ms, table, k + 1, i + 1);
        if exists d :: k <= d < k + FastRun(ms, k) && Unlettered(ms[d]) {
          var d :| k <= d < k + FastRun(ms, k) && Unlettered(ms[d]);
          assert k + 1 <= d < k + 1 + FastRun(ms, k + 1);
        }
      } else {
        assert Unlettered(ms[k]);
      }
    }
  }

  /**
   * Description `d` is one the outer loop reaches from description `k` with
   * the counter at `k`: it lies in the leading "Fast Transient" run, or in
   * the run right after the first other description.
   */
  predicate Reached(ms: seq<string>, k: nat, d: int)
    requires k <= |ms|
  {
    var o := k + FastRun(ms, k);
    k <= d < o || (o < |ms| && o < d <= o + FastRun(ms, o + 1))
  }

  /** A "Fast Transient" description at `k` is reached, and so is everything reached from `k + 1`. */
  lemma ReachedShift(ms: seq<string>, k: nat, d: int)
    requires k < |ms| && Contains(ms[k], FastTransientName)
    ensures Reached(ms, k, d) <==> d == k || Reached(ms, k + 1, d)
  {
    assert k + FastRun(ms, k) == k + 1 + FastRun(ms, k + 1);
  }

  /**
   * From description `k` with the counter at `k`, the pass raises exactly
   * when it reaches a description without a letter; descriptions past the
   * run after the first other description are never read.
   */
  lemma {:induction false} VariablesFromRaises(ms: seq<string>, table: seq<string>, k: nat)
    requires k <= |ms|
    ensures VariablesFrom(ms, table, k, k).Failure? <==>
      exists d :: 0 <= d < |ms| && Reached(ms, k, d) && Unlettered(ms[d])
    ensures VariablesFrom(ms, table, k, k).Failure? ==> VariablesFrom(ms, table, k, k).error == IndexError
    decreases |ms| - k
  {
    if k < |ms| {
      if Contains(ms[k], FastTransientName) {
        VariablesFromLetter(ms, table, k, k);
        if FastTransientLetter(ms[k]).Some? {
          VariablesFromRaises(ms, table, k + 1);
          if VariablesFrom(ms, table, k + 1, k + 1).Failure? {
            var d :| 0 <= d < |ms| && Reached(ms, k + 1, d) && Unlettered(ms[d]);
            ReachedShift(ms, k, d);
          }
          if exists d :: 0 <= d < |ms| && Reached(ms, k, d) && Unlettered(ms[d]) {
            var d :| 0 <= d < |ms| && Reached(ms, k, d) && Unlettered(ms[d]);
            ReachedShift(ms, k, d);
          }
        } else {
          assert Reached(ms, k, k) && Unlettered(ms[k]);
        }
      } else {
        VariablesFromOtherRaises(ms, table, k);
        assert FastRun(ms, k) == 0;
      }
    }
  }

  /** The first other description fills the list, so only the "Fast Transient" run right after it can still raise. */
  lemma VariablesFromOtherRaises(ms: seq<string>, table: seq<string>, k: nat)
    requires k < |ms| && !Contains(ms[k], FastTransientName)
    ensures VariablesFrom(ms, table, k, k).Failure? <==>
      exists d :: k < d <= k + FastRun(ms, k + 1) && Unlettered(ms[d])
    ensures VariablesFrom(ms, table, k, k).Failure? ==> VariablesFrom(ms, table, k, k).error == IndexError
  {
    VariablesFromOther(ms, table, k, k);
    RescanFills(ms, table, 0, k);
    VariablesFromFullRaises(ms, table, k + 1, |ms|);
  }

  /**
   * `extract_variables` raises `IndexError` exactly when a "Fast Transient"
   * description without a letter is one the outer loop reaches: one in the
   * leading run of such descriptions, or in the run right after the first
   * other description.
   */
  lemma VariablesRaise(ms: seq<string>, table: seq<string>)
    ensures var o := FastRun(ms, 0);
      VariablesFrom(ms, table, 0, 0).Failure? <==>
        exists d :: (0 <= d < o || (o < |ms| && o < d <= o + FastRun(ms, o + 1))) && Unlettered(ms[d])
    ensures VariablesFrom(ms, table, 0, 0).Failure? ==> VariablesFrom(ms, table, 0, 0).error == IndexError
  {
    VariablesFromRaises(ms, table, 0);
  }

  /** A "Fast Transient" description after the second other description is never read. */
  lemma LateUnletteredUnread()
    ensures VariablesOf(["x", "y", "Fast Transient"]).Success?
  {
    var ms := ["x", "y", "Fast Transient"];
    VariablesRaise(ms, TargetVariables);
    assert !Contains(ms[0], FastTransientName) && !Contains(ms[1], FastTransientName);
    assert FastRun(ms, 0) == 0 && FastRun(ms, 1) == 0;
  }
}

/**
 * The class pass (`extract_classes`).  Every description appends every class
 * label it contains, in taxonomy order, while the counter is below the number
 * of descriptions, or `None` when it appended nothing.  A description naming
 * two labels therefore yields two entries and shifts the entries of the
 * descriptions after it.
 */
module Classes {
  import opened Wrappers
  import opened Text
  import opened Taxonomy
  import opened TableScan

  /** The entries appended for descriptions `j..` with the counter at `i`. */
  function ClassesFrom(ms: seq<string>, table: seq<string>, j: nat, i: nat): seq<Option<string>>
    requires j <= |ms|
    decreases |ms| - j
  {
    if j == |ms| then []
    else
      var step := Step(ms[j], table, i, |ms|);
      step + ClassesFrom(ms, table, j + 1, i + |step|)
  }

  /** The list `extract_classes(ms)` returns. */
  function ClassesOf(ms: seq<string>): seq<Option<string>> {
    ClassesFrom(ms, ClassList, 0, 0)
  }

  /** One description scanned: the entries so far plus the rest of the pass still make up the whole pass. */
  lemma ClassesAdvance(ms: seq<string>, table: seq<string>, k: nat, i: nat,
                       acc: seq<Option<string>>, total: seq<Option<string>>)
    requires k < |ms| && acc + ClassesFrom(ms, table, k, i) == total
    ensures (acc + Step(ms[k], table, i, |ms|)) + ClassesFrom(ms, table, k + 1, i + |Step(ms[k], table, i, |ms|)|) == total
  {
  }

  /**
   * `extract_classes`, over the class table `classList` (the script passes
   * `ClassList`); the counter `i` is the length of the list built so far.
   */
  method ExtractClasses(matches: seq<string>, classList: seq<string>) returns (classes: seq<Option<string>>)
    ensures classes == ClassesFrom(matches, classList, 0, 0)
  {
    classes := [];
    if |matches| == 0 {
      return;
    }
    var i := 0;
    var k := 0;
    while k < |matches|
      invariant 0 <= k <= |matches|
      invariant i == |classes|
      invariant classes + ClassesFrom(matches, classList, k, i) == ClassesFrom(matches, classList, 0, 0)
    {
      ClassesAdvance(matches, classList, k, i, classes, ClassesFrom(matches, classList, 0, 0));
      classes := AppendStep(classes, matches[k], classList, |matches|);
      i := |classes|;
      k := k + 1;
    }
  }

  /** Every entry is `None` or a table label that some description contains. */
  lemma {:induction false} ClassesFromEntries(ms: seq<string>, table: seq<string>, j: nat, i: nat)
    requires j <= |ms|
    ensures forall k :: 0 <= k < |ClassesFrom(ms, table, j, i)| ==>
      ClassesFrom(ms, table, j, i)[k] == None
      || (ClassesFrom(ms, table, j, i)[k].value in table
          && exists d :: j <= d < |ms| && Contains(ms[d], ClassesFrom(ms, table, j, i)[k].value))
    decreases |ms| - j
  {
    if j < |ms| {
      var step := Step(ms[j], table, i, |ms|);
      StepBounds(ms[j], table, i, |ms|);
      ClassesFromEntries(ms, table, j + 1, i + |step|);
      var rest := ClassesFrom(ms, table, j + 1, i + |step|);
      forall k | 0 <= k < |step + rest| && (step + rest)[k] != None
        ensures (step + rest)[k].value in table
          && exists d :: j <= d < |ms| && Contains(ms[d], (step + rest)[k].value)
      {
        if k < |step| {
          assert Contains(ms[j], step[k].value);
        } else {
          assert (step + rest)[k] == rest[k - |step|];
        }
      }
    }
  }

  /** Every description appends at least one entry, so the list is never shorter than the descriptions. */
  lemma {:induction false} ClassesFromLength(ms: seq<string>, table: seq<string>, j: nat, i: nat)
    requires j <= |ms|
    ensures |ClassesFrom(ms, table, j, i)| >= |ms| - j
    decreases |ms| - j
  {
    if j < |ms| {
      StepBounds(ms[j], table, i, |ms|);
      ClassesFromLength(ms, table, j + 1, i + |Step(ms[j], table, i, |ms|)|);
    }
  }

  /**
   * When no description contains two labels, each description appends exactly
   * one entry, at the index equal to its own: the label it contains, or `None`.
   */
  lemma {:induction false} ClassesFromAligned(ms: seq<string>, table: seq<string>, j: nat)
    requires j <= |ms|
    requires forall d :: 0 <= d < |ms| ==> AtMostOneHit(ms[d], table)
    ensures |ClassesFrom(ms, table, j, j)| == |ms| - j
    ensures forall k :: 0 <= k < |ms| - j ==> ClassesFrom(ms, table, j, j)[k] == FirstHit(ms[j + k], table)
    decreases |ms| - j
  {
    if j < |ms| {
      StepSingle(ms[j], table, j, |ms|);
      ClassesFromAligned(ms, table, j + 1);
      var rest := ClassesFrom(ms, table, j + 1, j + 1);
      assert ClassesFrom(ms, table, j, j) == [FirstHit(ms[j], table)] + rest;
      forall k | 0 <= k < |ms| - j ensures ClassesFrom(ms, table, j, j)[k] == FirstHit(ms[j + k], table) {
        if k > 0 {
          assert ClassesFrom(ms, table, j, j)[k] == rest[k - 1];
        }
      }
    }
  }

  /**
   * What `extract_classes` promises: `[]` for no descriptions; every entry is
   * `None` or a class label some description contains; at least one entry
   * per description; and, when no description names two labels, exactly one
   * entry per description holding the label that description contains.
   */
  lemma ClassesSpec(ms: seq<string>)
    ensures ms == [] ==> ClassesOf(ms) == []
    ensures forall k :: 0 <= k < |ClassesOf(ms)| ==>
      ClassesOf(ms)[k] == None
      || (ClassesOf(ms)[k].value in ClassList
          && exists d :: 0 <= d < |ms| && Contains(ms[d], ClassesOf(ms)[k].value))
    ensures |ClassesOf(ms)| >= |ms|
    ensures (forall d :: 0 <= d < |ms| ==> AtMostOneHit(ms[d], ClassList)) ==>
      |ClassesOf(ms)| == |ms|
      && forall k :: 0 <= k < |ms| ==> ClassesOf(ms)[k] == FirstHit(ms[k], ClassList)
  {
    ClassesFromEntries(ms, ClassList, 0, 0);
    ClassesFromLength(ms, ClassList, 0, 0);
    if forall d :: 0 <= d < |ms| ==> AtMostOneHit(ms[d], ClassList) {
      ClassesFromAligned(ms, ClassList, 0);
    }
  }

  /**
   * A description naming two classes yields two entries, so the next
   * description's `None` lands one place later, past the number of
   * descriptions.
   */
  lemma TwoLabelsShift()
    ensures ClassesOf(["Sag Swell", "x"]) == [Some("Sag"), Some("Swell"), None]
  {
    var m := "Sag Swell";
    assert Contains(m, "Sag");
    assert Contains(m, "Swell");
    assert Hits(m, ClassList, 2) == [Some("Sag"), Some("Swell")];
  }
}

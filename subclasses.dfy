/**
 * The subclass pass (`extract_subclass`).  It walks the class list with a
 * counter `i` into the descriptions.  A class without subclass tokens
 * (including `None`) appends `None` and advances `i`; an eligible class
 * appends the first of its tokens found in description `i` and advances, or
 * appends nothing and leaves `i` where it is when none is found.  The walk
 * stops once `i` reaches the number of descriptions.
 */
module Subclasses {
  import opened Wrappers
  import opened Text
  import opened Taxonomy
  import opened TableScan

  /** `cls in sub_class_dict` */
  predicate Eligible(cls: Option<string>, subTable: map<string, seq<string>>) {
    cls.Some? && cls.value in subTable
  }

  /** The subclass a class would give description `m`. */
  function SubclassFor(cls: Option<string>, m: string, subTable: map<string, seq<string>>): Option<string> {
    if Eligible(cls, subTable) then FirstHit(m, subTable[cls.value]) else None
  }

  /** An eligible class none of whose tokens is in `m`: nothing is appended and the counter stays. */
  predicate Skips(cls: Option<string>, m: string, subTable: map<string, seq<string>>) {
    Eligible(cls, subTable) && FirstHit(m, subTable[cls.value]).None?
  }

  /** The entries appended for `classes` with the counter at `i`. */
  function SubclassesFrom(classes: seq<Option<string>>, ms: seq<string>, subTable: map<string, seq<string>>, i: nat)
    : seq<Option<string>>
    decreases |classes|
  {
    if classes == [] || i >= |ms| then []
    else if Skips(classes[0], ms[i], subTable) then SubclassesFrom(classes[1..], ms, subTable, i)
    else [SubclassFor(classes[0], ms[i], subTable)] + SubclassesFrom(classes[1..], ms, subTable, i + 1)
  }

  /** The list `extract_subclass(ms, classes)` returns. */
  function SubclassesOf(ms: seq<string>, classes: seq<Option<string>>): seq<Option<string>> {
    SubclassesFrom(classes, ms, SubClassTable, 0)
  }

  lemma SubclassesFromUnfold(classes: seq<Option<string>>, ms: seq<string>, subTable: map<string, seq<string>>, i: nat, k: nat)
    requires k < |classes| && i < |ms|
    ensures SubclassesFrom(classes[k..], ms, subTable, i) ==
      if Skips(classes[k], ms[i], subTable) then SubclassesFrom(classes[k + 1..], ms, subTable, i)
      else [SubclassFor(classes[k], ms[i], subTable)] + SubclassesFrom(classes[k + 1..], ms, subTable, i + 1)
  {
    assert classes[k..][1..] == classes[k + 1..];
  }

  /** One class examined: the entries so far plus the rest of the walk still make up the whole walk. */
  lemma SubclassesAdvance(classes: seq<Option<string>>, ms: seq<string>, subTable: map<string, seq<string>>, i: nat, k: nat,
                          acc: seq<Option<string>>, total: seq<Option<string>>)
    requires k < |classes| && i < |ms| && acc + SubclassesFrom(classes[k..], ms, subTable, i) == total
    ensures Skips(classes[k], ms[i], subTable) ==> acc + SubclassesFrom(classes[k + 1..], ms, subTable, i) == total
    ensures !Skips(classes[k], ms[i], subTable) ==>
      (acc + [SubclassFor(classes[k], ms[i], subTable)]) + SubclassesFrom(classes[k + 1..], ms, subTable, i + 1) == total
  {
    SubclassesFromUnfold(classes, ms, subTable, i, k);
  }

  /** The inner loop over one class's tokens: the first token, in table order, that `m` contains. */
  method FirstToken(m: string, tokens: seq<string>) returns (hit: Option<string>)
    ensures hit == FirstHit(m, tokens)
  {
    hit := None;
    var t := 0;
    while t < |tokens|
      invariant 0 <= t <= |tokens|
      invariant FirstHit(m, tokens[t..]) == FirstHit(m, tokens)
    {
      assert tokens[t..][1..] == tokens[t + 1..];
      if Contains(m, tokens[t]) {
        hit := Some(tokens[t]);
        return;
      }
      t := t + 1;
    }
  }

  /** `extract_subclass`, over the class-to-subclass table `subTable` (the script passes `SubClassTable`). */
  method ExtractSubclass(matches: seq<string>, classes: seq<Option<string>>, subTable: map<string, seq<string>>)
    returns (subClasses: seq<Option<string>>)
    ensures subClasses == SubclassesFrom(classes, matches, subTable, 0)
  {
    subClasses := [];
    var i := 0;
    var k := 0;
    while k < |classes|
      invariant 0 <= k <= |classes|
      invariant i == |subClasses| <= |matches|
      invariant subClasses + SubclassesFrom(classes[k..], matches, subTable, i)
        == SubclassesFrom(classes, matches, subTable, 0)
    {
      if i >= |matches| {
        break;
      }
      SubclassesAdvance(classes, matches, subTable, i, k, subClasses, SubclassesFrom(classes, matches, subTable, 0));
      var cls := classes[k];
      if cls.Some? && cls.value in subTable {
        var hit := FirstToken(matches[i], subTable[cls.value]);
        if hit.Some? {
          subClasses := subClasses + [hit];
          i := i + 1;
        }
      } else {
        subClasses := subClasses + [None];
        i := i + 1;
      }
      k := k + 1;
    }
    assert SubclassesFrom(classes[k..], matches, subTable, i) == [];
    assert subClasses + [] == subClasses;
  }

  /** The list never outgrows the descriptions: at most `|ms| - i` entries from counter `i`. */
  lemma {:induction false} SubclassesFromBounded(classes: seq<Option<string>>, ms: seq<string>, subTable: map<string, seq<string>>, i: nat)
    ensures |SubclassesFrom(classes, ms, subTable, i)| <= if i < |ms| then |ms| - i else 0
    decreases |classes|
  {
    if classes != [] && i < |ms| {
      SubclassesFromBounded(classes[1..], ms, subTable, i + 1);
      SubclassesFromBounded(classes[1..], ms, subTable, i);
    }
  }

  /**
   * Entry `k` concerns description `i + k`: it is `None` or the first token,
   * in table order, of some class's subclass list that the description contains.
   */
  lemma {:induction false} SubclassesFromEntries(classes: seq<Option<string>>, ms: seq<string>, subTable: map<string, seq<string>>, i: nat)
    ensures forall k :: 0 <= k < |SubclassesFrom(classes, ms, subTable, i)| ==>
      i + k < |ms|
      && (SubclassesFrom(classes, ms, subTable, i)[k] == None
          || exists c :: c in classes && SubclassFor(c, ms[i + k], subTable) == SubclassesFrom(classes, ms, subTable, i)[k])
    decreases |classes|
  {
    SubclassesFromBounded(classes, ms, subTable, i);
    if classes != [] && i < |ms| {
      var c := classes[0];
      var r := SubclassesFrom(classes, ms, subTable, i);
      if Skips(c, ms[i], subTable) {
        SubclassesFromEntries(classes[1..], ms, subTable, i);
        forall k | 0 <= k < |r| && r[k] != None
          ensures exists c' :: c' in classes && SubclassFor(c', ms[i + k], subTable) == r[k]
        {
          var c' :| c' in classes[1..] && SubclassFor(c', ms[i + k], subTable) == r[k];
          assert c' in classes;
        }
      } else {
        var rest := SubclassesFrom(classes[1..], ms, subTable, i + 1);
        SubclassesFromEntries(classes[1..], ms, subTable, i + 1);
        forall k | 0 <= k < |r| && r[k] != None
          ensures exists c' :: c' in classes && SubclassFor(c', ms[i + k], subTable) == r[k]
        {
          if k == 0 {
            assert c in classes && SubclassFor(c, ms[i], subTable) == r[0];
          } else {
            assert r[k] == rest[k - 1];
            var c' :| c' in classes[1..] && SubclassFor(c', ms[i + 1 + (k - 1)], subTable) == rest[k - 1];
            assert c' in classes;
          }
        }
      }
    }
  }

  /**
   * When every eligible class finds one of its tokens in the description at
   * its own index, and there are classes for all descriptions, the pass
   * yields one entry per description: entry `k` is the subclass class `k`
   * gives description `k`.
   */
  lemma {:induction false} SubclassesFromAligned(classes: seq<Option<string>>, ms: seq<string>, subTable: map<string, seq<string>>, i: nat)
    requires i <= |ms| && |classes| >= |ms| - i
    requires forall k :: 0 <= k < |ms| - i ==> !Skips(classes[k], ms[i + k], subTable)
    ensures |SubclassesFrom(classes, ms, subTable, i)| == |ms| - i
    ensures forall k :: 0 <= k < |ms| - i ==>
      SubclassesFrom(classes, ms, subTable, i)[k] == SubclassFor(classes[k], ms[i + k], subTable)
    decreases |classes|
  {
    if i < |ms| {
      var tail := classes[1..];
      assert forall k :: 0 <= k < |ms| - (i + 1) ==> tail[k] == classes[k + 1];
      SubclassesFromAligned(tail, ms, subTable, i + 1);
      var rest := SubclassesFrom(tail, ms, subTable, i + 1);
      assert !Skips(classes[0], ms[i], subTable);
      var r := SubclassesFrom(classes, ms, subTable, i);
      assert r == [SubclassFor(classes[0], ms[i], subTable)] + rest;
      forall k | 0 < k < |ms| - i
        ensures r[k] == SubclassFor(classes[k], ms[i + k], subTable)
      {
        assert r[k] == rest[k - 1] && tail[k - 1] == classes[k];
      }
    }
  }

  /**
   * What `extract_subclass` promises: never more entries than descriptions,
   * and entry `k` is `None` or the first token of some class's list found in
   * description `k`.
   */
  lemma SubclassesSpec(ms: seq<string>, classes: seq<Option<string>>, subTable: map<string, seq<string>>)
    ensures |SubclassesFrom(classes, ms, subTable, 0)| <= |ms|
    ensures forall k :: 0 <= k < |SubclassesFrom(classes, ms, subTable, 0)| ==>
      SubclassesFrom(classes, ms, subTable, 0)[k] == None
      || exists c :: c in classes && SubclassFor(c, ms[k], subTable) == SubclassesFrom(classes, ms, subTable, 0)[k]
  {
    SubclassesFromBounded(classes, ms, subTable, 0);
    SubclassesFromEntries(classes, ms, subTable, 0);
  }
}

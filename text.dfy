/**
 * Character classes and substring search over strings, as the regular
 * expressions and the `in` operator of the script use them.  Character
 * classes are the ASCII parts of Python's `\d`, `\s` and `\w`.
 */
module Text {
  import opened Wrappers

  /** `\d`, `[0-9]` */
  predicate IsDigit(c: char) { '0' <= c <= '9' }

  /** `\s`: space, tab, line feed, vertical tab, form feed, carriage return */
  predicate IsSpace(c: char) { c == ' ' || '\t' <= c <= '\r' }

  /** `[a-zA-Z]` */
  predicate IsLetter(c: char) { 'a' <= c <= 'z' || 'A' <= c <= 'Z' }

  /** `\w` */
  predicate IsWordChar(c: char) { IsLetter(c) || IsDigit(c) || c == '_' }

  predicate AllDigits(s: string) { forall k :: 0 <= k < |s| ==> IsDigit(s[k]) }

  /** `t` occurs in `s` starting at index `p`. */
  predicate OccursAt(s: string, t: string, p: nat) {
    p + |t| <= |s| && s[p..p + |t|] == t
  }

  /** Characters `n..` of `t` equal the characters of `s` at `p + n..`: the comparison a search makes at `p`. */
  predicate MatchesFrom(s: string, t: string, p: nat, n: nat)
    requires p + |t| <= |s| && n <= |t|
    decreases |t| - n
  {
    n == |t| || (s[p + n] == t[n] && MatchesFrom(s, t, p, n + 1))
  }

  lemma {:induction false} MatchesFromMeaning(s: string, t: string, p: nat, n: nat)
    requires p + |t| <= |s| && n <= |t|
    ensures MatchesFrom(s, t, p, n) <==> forall k :: n <= k < |t| ==> s[p + k] == t[k]
    decreases |t| - n
  {
    if n < |t| {
      MatchesFromMeaning(s, t, p, n + 1);
    }
  }

  /** Comparing character by character is comparing the slice. */
  lemma MatchesMeaning(s: string, t: string, p: nat)
    requires p + |t| <= |s|
    ensures MatchesFrom(s, t, p, 0) <==> OccursAt(s, t, p)
  {
    MatchesFromMeaning(s, t, p, 0);
    if MatchesFrom(s, t, p, 0) {
      assert forall k :: 0 <= k < |t| ==> s[p..p + |t|][k] == t[k];
    } else {
      var k :| 0 <= k < |t| && s[p + k] != t[k];
      assert s[p..p + |t|][k] != t[k];
    }
  }

  /** The leftmost occurrence of `t` in `s` at or after `p`. */
  function IndexFrom(s: string, t: string, p: nat): (r: Option<nat>)
    requires p <= |s|
    decreases |s| - p
  {
    if p + |t| > |s| then None
    else if MatchesFrom(s, t, p, 0) then Some(p)
    else IndexFrom(s, t, p + 1)
  }

  /** `IndexFrom` finds the leftmost occurrence, and finds none only when there is none. */
  lemma {:induction false} IndexFromLeftmost(s: string, t: string, p: nat)
    requires p <= |s|
    ensures IndexFrom(s, t, p).Some? ==>
      p <= IndexFrom(s, t, p).value && OccursAt(s, t, IndexFrom(s, t, p).value)
      && forall q :: p <= q < IndexFrom(s, t, p).value ==> !OccursAt(s, t, q)
    ensures IndexFrom(s, t, p).None? ==> forall q :: p <= q ==> !OccursAt(s, t, q)
    decreases |s| - p
  {
    if p + |t| <= |s| {
      MatchesMeaning(s, t, p);
      if !MatchesFrom(s, t, p, 0) {
        IndexFromLeftmost(s, t, p + 1);
      }
    }
  }

  /** Python's `t in s` for strings. */
  predicate Contains(s: string, t: string) {
    IndexFrom(s, t, 0).Some?
  }

  /** `t in s` holds exactly when `t` occurs somewhere in `s`. */
  lemma ContainsMeaning(s: string, t: string)
    ensures Contains(s, t) <==> exists p :: OccursAt(s, t, p)
  {
    IndexFromLeftmost(s, t, 0);
  }

  /** The first index at or after `c` holding a line feed, or `|s|`: where `[^\n]+` stops. */
  function LineEnd(s: string, c: nat): (e: nat)
    requires c <= |s|
    decreases |s| - c
    ensures c <= e <= |s|
    ensures e == |s| || s[e] == '\n'
    ensures forall k :: c <= k < e ==> s[k] != '\n'
  {
    if c == |s| || s[c] == '\n' then c else LineEnd(s, c + 1)
  }

  /** The end of the maximal run of digits starting at `c`: where a greedy `\d+` stops. */
  function DigitRunEnd(s: string, c: nat): (e: nat)
    requires c <= |s|
    decreases |s| - c
    ensures c <= e <= |s|
    ensures e == |s| || !IsDigit(s[e])
    ensures forall k :: c <= k < e ==> IsDigit(s[k])
  {
    if c == |s| || !IsDigit(s[c]) then c else DigitRunEnd(s, c + 1)
  }

  /** The end of the maximal run of whitespace starting at `c`: where a greedy `\s+` stops. */
  function SpaceRunEnd(s: string, c: nat): (e: nat)
    requires c <= |s|
    decreases |s| - c
    ensures c <= e <= |s|
    ensures e == |s| || !IsSpace(s[e])
    ensures forall k :: c <= k < e ==> IsSpace(s[k])
  {
    if c == |s| || !IsSpace(s[c]) then c else SpaceRunEnd(s, c + 1)
  }

  /** The end of the maximal run of ASCII letters starting at `c`: where a greedy `[a-zA-Z]*` stops. */
  function LetterRunEnd(s: string, c: nat): (e: nat)
    requires c <= |s|
    decreases |s| - c
    ensures c <= e <= |s|
    ensures e == |s| || !IsLetter(s[e])
    ensures forall k :: c <= k < e ==> IsLetter(s[k])
  {
    if c == |s| || !IsLetter(s[c]) then c else LetterRunEnd(s, c + 1)
  }

  /** ASCII lower case, as `re.IGNORECASE` compares letters. */
  function Lower(c: char): char {
    if 'A' <= c <= 'Z' then (c as int + 32) as char else c
  }

  /** `s` with every ASCII capital replaced by its small letter. */
  function LowerAll(s: string): (r: string)
    ensures |r| == |s| && forall k :: 0 <= k < |s| ==> r[k] == Lower(s[k])
  {
    if s == [] then [] else [Lower(s[0])] + LowerAll(s[1..])
  }

  /** `a` and `b` are equal under `re.IGNORECASE`. */
  predicate EqualIgnoringCase(a: string, b: string) {
    LowerAll(a) == LowerAll(b)
  }
}

/**
 * The description splitter: `re.findall(r"Description:.*?[+-]\d{4} ([^\n]+)", hdr)`.
 * From each `Description:` marker a lazy `.*?` walks along the line to the
 * first `[+-]dddd ` (a UTC offset followed by a space) after which the line
 * still has a character, and the rest of the line is captured.  Matches do
 * not overlap: the search resumes where the previous match ended.
 */
module Splitter {
  import opened Wrappers
  import opened Text

  const DescriptionMarker: string := "Description:"

  /** `[+-]\d{4} ` starts at `q`. */
  predicate OffsetAt(s: string, q: nat) {
    q + 6 <= |s| && (s[q] == '+' || s[q] == '-')
    && IsDigit(s[q + 1]) && IsDigit(s[q + 2]) && IsDigit(s[q + 3]) && IsDigit(s[q + 4])
    && s[q + 5] == ' '
  }

  /** An offset token at `q` that the rest of its line follows: where the lazy `.*?` can stop. */
  predicate OffsetBeforeText(s: string, q: nat) {
    OffsetAt(s, q) && q + 6 < |s| && s[q + 6] != '\n'
  }

  /**
   * The lazy `.*?` followed by `[+-]\d{4} ([^\n]+)`, tried from `q`: the index
   * where the captured rest of the line starts, or None when the line ends
   * first.  At each position the continuation is tried before `.` consumes a
   * (non-newline) character, so the first usable offset on the line wins.
   */
  function CaptureStart(s: string, q: nat): (c: Option<nat>)
    requires q <= |s|
    decreases |s| - q
    ensures c.Some? ==> q + 6 <= c.value && OffsetBeforeText(s, c.value - 6)
    ensures c.Some? ==> forall k :: q <= k < c.value - 6 ==> s[k] != '\n' && !OffsetBeforeText(s, k)
    ensures c.None? ==> forall k :: q <= k < LineEnd(s, q) ==> !OffsetBeforeText(s, k)
  {
    if q == |s| then None
    else if OffsetBeforeText(s, q) then Some(q + 6)
    else if s[q] == '\n' then None
    else CaptureStart(s, q + 1)
  }

  /**
   * The pattern matches at `p` and its capture starts at `c`: the marker at
   * `p`, then the walk along the line to the first offset token the line
   * continues after, which ends at `c`.
   */
  ghost predicate MatchAt(s: string, p: nat, c: nat) {
    OccursAt(s, DescriptionMarker, p) && p + 18 <= c && OffsetBeforeText(s, c - 6)
    && forall k :: p + 12 <= k < c - 6 ==> s[k] != '\n' && !OffsetBeforeText(s, k)
  }

  /** The walk from `q` stops at the first usable offset token on its line. */
  lemma {:induction false} CaptureStartFirst(s: string, q: nat, k: nat)
    requires q <= k && OffsetBeforeText(s, k)
    requires forall j :: q <= j < k ==> s[j] != '\n' && !OffsetBeforeText(s, j)
    ensures CaptureStart(s, q) == Some(k + 6)
    decreases k - q
  {
    if q < k {
      CaptureStartFirst(s, q + 1, k);
    }
  }

  /** After a marker, `CaptureStart` finds exactly the match of the pattern, and none when there is none. */
  lemma CaptureStartMatch(s: string, p: nat)
    requires OccursAt(s, DescriptionMarker, p)
    ensures forall c: nat :: MatchAt(s, p, c) <==> CaptureStart(s, p + 12) == Some(c)
  {
    forall c: nat | MatchAt(s, p, c)
      ensures CaptureStart(s, p + 12) == Some(c)
    {
      CaptureStartFirst(s, p + 12, c - 6);
    }
  }

  /** A description of header `s`: the capture of a match of the pattern, which runs to the end of its line. */
  ghost predicate IsDescriptionOf(s: string, d: string) {
    |d| > 0 && (forall k :: 0 <= k < |d| ==> d[k] != '\n')
    && exists p: nat, c: nat :: MatchAt(s, p, c) && d == s[c..LineEnd(s, c)]
  }

  /** `findall` from search position `pos`: the leftmost match, then the search resumes where it ended. */
  function SplitFrom(s: string, pos: nat): (r: seq<string>)
    requires pos <= |s|
    decreases |s| - pos
    ensures forall k :: 0 <= k < |r| ==> IsDescriptionOf(s, r[k])
  {
    if pos + |DescriptionMarker| > |s| then []
    else if s[pos..pos + |DescriptionMarker|] == DescriptionMarker then
      match CaptureStart(s, pos + |DescriptionMarker|)
      case None => SplitFrom(s, pos + 1)
      case Some(c) =>
        var e := LineEnd(s, c);
        assert MatchAt(s, pos, c);
        assert IsDescriptionOf(s, s[c..e]);
        [s[c..e]] + SplitFrom(s, e)
    else SplitFrom(s, pos + 1)
  }

  /** The search finds nothing exactly when the pattern matches nowhere from `pos` on. */
  lemma {:induction false} SplitFromEmpty(s: string, pos: nat)
    requires pos <= |s|
    ensures SplitFrom(s, pos) == [] <==> forall q: nat, c: nat :: pos <= q ==> !MatchAt(s, q, c)
    decreases |s| - pos
  {
    if pos + |DescriptionMarker| > |s| {
      forall q: nat, c: nat | pos <= q ensures !MatchAt(s, q, c) { }
    } else if OccursAt(s, DescriptionMarker, pos) {
      CaptureStartMatch(s, pos);
      if CaptureStart(s, pos + 12).None? {
        SplitFromEmpty(s, pos + 1);
      } else {
        assert MatchAt(s, pos, CaptureStart(s, pos + 12).value);
      }
    } else {
      SplitFromEmpty(s, pos + 1);
    }
  }

  /**
   * The search takes the leftmost match: when the pattern matches at `p` with
   * capture `c` and nowhere between `pos` and `p`, the first description is
   * the rest of `c`'s line and the search resumes at the end of that line.
   */
  lemma {:induction false} SplitFromLeftmost(s: string, pos: nat, p: nat, c: nat)
    requires pos <= p && MatchAt(s, p, c)
    requires forall q: nat, c': nat :: pos <= q < p ==> !MatchAt(s, q, c')
    ensures SplitFrom(s, pos) == [s[c..LineEnd(s, c)]] + SplitFrom(s, LineEnd(s, c))
    decreases p - pos
  {
    if pos == p {
      CaptureStartMatch(s, p);
    } else if OccursAt(s, DescriptionMarker, pos) {
      CaptureStartMatch(s, pos);
      SplitFromLeftmost(s, pos + 1, p, c);
    } else {
      SplitFromLeftmost(s, pos + 1, p, c);
    }
  }

  /** A header with two markers before one offset. */
  const NestedHeader: string := "Description:Description: +0000 y"

  /** Both markers of `NestedHeader` occur where they are written. */
  lemma NestedMarkers()
    ensures OccursAt(NestedHeader, DescriptionMarker, 0) && OccursAt(NestedHeader, DescriptionMarker, 12)
  {
    MatchesMeaning(NestedHeader, DescriptionMarker, 0);
    MatchesMeaning(NestedHeader, DescriptionMarker, 12);
    assert MatchesFrom(NestedHeader, DescriptionMarker, 0, 0);
    assert MatchesFrom(NestedHeader, DescriptionMarker, 12, 0);
  }

  /** The first usable offset of `NestedHeader` is at 25. */
  lemma NestedOffset()
    ensures OffsetBeforeText(NestedHeader, 25)
    ensures forall k :: 12 <= k < 25 ==> NestedHeader[k] != '\n' && !OffsetBeforeText(NestedHeader, k)
  {
    forall k | 12 <= k < 25 ensures NestedHeader[k] != '\n' && !OffsetBeforeText(NestedHeader, k) {
      assert NestedHeader[k] != '+' && NestedHeader[k] != '-' && NestedHeader[k] != '\n';
    }
  }

  /** The pattern matches at both markers of `NestedHeader`, with the same capture. */
  lemma NestedMatches()
    ensures MatchAt(NestedHeader, 0, 31) && MatchAt(NestedHeader, 12, 31)
  {
    NestedMarkers();
    NestedOffset();
  }

  /**
   * Matches can overlap: although the pattern matches at both markers of
   * `NestedHeader`, the search resumes after the first match's line and
   * finds one description.
   */
  lemma NestedMarkerOnce()
    ensures SplitFrom(NestedHeader, 0) == ["y"]
  {
    NestedMatches();
    SplitFromLeftmost(NestedHeader, 0, 0, 31);
    assert LineEnd(NestedHeader, 31) == 32;
    assert NestedHeader[31..32] == ['y'];
  }

  /** The descriptions of one header, in header order. */
  function Split(hdr: string): (r: seq<string>)
    ensures forall k :: 0 <= k < |r| ==> IsDescriptionOf(hdr, r[k])
    ensures r == [] <==> forall q: nat, c: nat :: !MatchAt(hdr, q, c)
    ensures !Contains(hdr, DescriptionMarker) ==> r == []
  {
    ContainsMeaning(hdr, DescriptionMarker);
    SplitFromEmpty(hdr, 0);
    SplitFrom(hdr, 0)
  }

  /**
   * `find_matches`: a recording whose files fail to load yields no
   * descriptions; a loaded recording whose header is `None` makes `findall`
   * raise.  `loaded` says whether `comtrade.load` returned normally and
   * `hdr` is the header text the object holds afterwards.
   */
  function FindMatches(loaded: bool, hdr: Option<string>): (r: Result<seq<string>>)
    ensures !loaded ==> r == Success([])
    ensures loaded && hdr.None? ==> r == Failure(TypeError)
    ensures loaded && hdr.Some? ==> r == Success(Split(hdr.value))
    ensures r.Success? ==> forall k :: 0 <= k < |r.value| ==> IsDescriptionOf(hdr.value, r.value[k])
  {
    if !loaded then Success([])
    else if hdr.None? then Failure(TypeError)
    else Success(Split(hdr.value))
  }
}

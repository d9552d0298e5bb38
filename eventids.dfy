/**
 * The event identifiers (`extract_eventid`): `re.findall(r"EventID=(\d+)\n", hdr)`.
 * Each identifier stays the digit string it was in the header.
 */
module EventIds {
  import opened Wrappers
  import opened Text

  const EventIdMarker: string := "EventID="

  /** The whole pattern matches at `p`: the marker, a digit run, and a line feed right after the run. */
  predicate EventAt(s: string, p: nat) {
    OccursAt(s, EventIdMarker, p)
    && DigitRunEnd(s, p + 8) > p + 8 && DigitRunEnd(s, p + 8) < |s| && s[DigitRunEnd(s, p + 8)] == '\n'
  }

  /** The digits captured by a match at `p`. */
  function EventIdAt(s: string, p: nat): (id: string)
    requires EventAt(s, p)
    ensures |id| > 0 && AllDigits(id)
  {
    s[p + 8..DigitRunEnd(s, p + 8)]
  }

  /**
   * `findall` from search position `pos`.  The greedy `\d+` can only be
   * followed by the line feed when it takes the whole digit run, and the
   * search resumes after the line feed.
   */
  function EventIdsFrom(s: string, pos: nat): (r: seq<string>)
    requires pos <= |s|
    decreases |s| - pos
    ensures forall k :: 0 <= k < |r| ==> |r[k]| > 0 && AllDigits(r[k])
  {
    if pos + |EventIdMarker| > |s| then []
    else if EventAt(s, pos) then [EventIdAt(s, pos)] + EventIdsFrom(s, DigitRunEnd(s, pos + 8) + 1)
    else EventIdsFrom(s, pos + 1)
  }

  /** `extract_eventid`: a header that is `None` makes `findall` raise. */
  function EventIdsOf(hdr: Option<string>): (r: Result<seq<string>>)
    ensures hdr.None? <==> r.Failure?
    ensures r.Failure? ==> r.error == TypeError
    ensures r.Success? ==> forall k :: 0 <= k < |r.value| ==> |r.value[k]| > 0 && AllDigits(r.value[k])
  {
    if hdr.None? then Failure(TypeError) else Success(EventIdsFrom(hdr.value, 0))
  }

  /** Reference definition: the identifiers of every position where the pattern matches, in header order. */
  function EveryEventId(s: string, pos: nat): seq<string>
    requires pos <= |s|
    decreases |s| - pos
  {
    if pos == |s| then []
    else (if EventAt(s, pos) then [EventIdAt(s, pos)] else []) + EveryEventId(s, pos + 1)
  }

  /** No match starts inside a match: after its `E`, a match holds only `ventID=`, digits and the line feed. */
  lemma NoEventInside(s: string, p: nat, q: nat)
    requires EventAt(s, p) && p < q <= DigitRunEnd(s, p + 8)
    ensures !EventAt(s, q)
  {
    if q < p + 8 {
      assert s[q] == s[p..p + 8][q - p] == EventIdMarker[q - p];
      assert s[q] != 'E';
    } else {
      assert s[q] != 'E';
    }
  }

  lemma {:induction false} EveryEventIdSkip(s: string, a: nat, b: nat)
    requires a <= b <= |s| && forall q :: a <= q < b ==> !EventAt(s, q)
    ensures EveryEventId(s, a) == EveryEventId(s, b)
    decreases b - a
  {
    if a < b {
      EveryEventIdSkip(s, a + 1, b);
      assert EveryEventId(s, a) == [] + EveryEventId(s, a + 1);
    }
  }

  lemma {:induction false} EveryEventIdTail(s: string, pos: nat)
    requires pos <= |s| && pos + |EventIdMarker| > |s|
    ensures EveryEventId(s, pos) == []
    decreases |s| - pos
  {
    if pos < |s| {
      EveryEventIdTail(s, pos + 1);
    }
  }

  /**
   * Matches never overlap, so the non-overlapping search finds a match at
   * every position where the pattern matches: `findall` returns every
   * identifier that follows `EventID=` and is ended by a line feed.
   */
  lemma {:induction false} EventIdsFromEvery(s: string, pos: nat)
    requires pos <= |s|
    ensures EventIdsFrom(s, pos) == EveryEventId(s, pos)
    decreases |s| - pos
  {
    if pos + |EventIdMarker| > |s| {
      EveryEventIdTail(s, pos);
    } else if EventAt(s, pos) {
      var d := DigitRunEnd(s, pos + 8);
      EventIdsFromEvery(s, d + 1);
      forall q | pos + 1 <= q < d + 1
        ensures !EventAt(s, q)
      {
        NoEventInside(s, pos, q);
      }
      EveryEventIdSkip(s, pos + 1, d + 1);
    } else {
      EventIdsFromEvery(s, pos + 1);
    }
  }

  /** A header without the marker has no identifiers. */
  lemma NoMarkerNoEventIds(s: string)
    requires !Contains(s, EventIdMarker)
    ensures EventIdsFrom(s, 0) == []
  {
    ContainsMeaning(s, EventIdMarker);
    EventIdsFromEvery(s, 0);
    EveryEventIdSkip(s, 0, |s|);
  }
}

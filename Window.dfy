/** The trailing time window: `getRecentEntries` with the clock reading
    `now` (milliseconds) passed in, since the source reads it once per call. */
module Window {
  import opened Wrappers
  import opened Series

  const MillisPerMinute: int := 60000

  /** The filter's test for one entry: the timestamp parsed and
      (now - ts) / 60000 <= minutes, which over exact reals is
      now - ts <= minutes * 60000. An unparseable timestamp yields NaN,
      and a comparison with NaN is false. */
  predicate InWindow(e: PricePoint, minutes: int, now: int)
  {
    match e.lastUpdatedAt
    case None => false
    case Some(ts) => now - ts <= minutes * MillisPerMinute
  }

  /** The entries that pass InWindow, in input order. */
  function RecentEntries(data: seq<PricePoint>, minutes: int, now: int): (r: seq<PricePoint>)
    ensures |r| <= |data|
    ensures forall k :: 0 <= k < |r| ==> InWindow(r[k], minutes, now)
  {
    if data == [] then []
    else
      var last := data[|data| - 1];
      RecentEntries(data[..|data| - 1], minutes, now)
        + (if InWindow(last, minutes, now) then [last] else [])
  }

  /** The positions of `data` whose entries pass InWindow, ascending. */
  function KeptPositions(data: seq<PricePoint>, minutes: int, now: int): (idx: seq<nat>)
    ensures forall k :: 0 <= k < |idx| ==> idx[k] < |data| && InWindow(data[idx[k]], minutes, now)
    ensures forall k, l :: 0 <= k < l < |idx| ==> idx[k] < idx[l]
    ensures forall j :: 0 <= j < |data| && InWindow(data[j], minutes, now) ==> j in idx
  {
    if data == [] then []
    else
      var n := |data| - 1;
      KeptPositions(data[..n], minutes, now) + (if InWindow(data[n], minutes, now) then [n] else [])
  }

  /** The result is exactly the input read at the kept positions: an
      order-preserving subsequence that keeps an entry if and only if its
      timestamp parses and lies within the window of the single `now`. */
  lemma {:induction false} RecentEntriesAreKeptPositions(data: seq<PricePoint>, minutes: int, now: int)
    ensures |RecentEntries(data, minutes, now)| == |KeptPositions(data, minutes, now)|
    ensures forall k :: 0 <= k < |KeptPositions(data, minutes, now)| ==>
      RecentEntries(data, minutes, now)[k] == data[KeptPositions(data, minutes, now)[k]]
  {
    if data != [] {
      RecentEntriesAreKeptPositions(data[..|data| - 1], minutes, now);
    }
  }

  /** The test is one-sided: with a window of zero or more minutes, an entry
      dated at or after `now` is always kept, however far ahead it lies. */
  lemma FutureEntryKept(data: seq<PricePoint>, minutes: int, now: int, i: nat)
    requires 0 <= minutes && i < |data|
    requires data[i].lastUpdatedAt.Some? && now <= data[i].lastUpdatedAt.value
    ensures data[i] in RecentEntries(data, minutes, now)
  {
    var idx := KeptPositions(data, minutes, now);
    RecentEntriesAreKeptPositions(data, minutes, now);
    assert i in idx;
    var k :| 0 <= k < |idx| && idx[k] == i;
    assert RecentEntries(data, minutes, now)[k] == data[i];
  }

  /** Entries whose timestamp does not parse are never kept, whatever the
      window. */
  lemma UnparseableExcluded(data: seq<PricePoint>, minutes: int, now: int)
    ensures forall e :: e in RecentEntries(data, minutes, now) ==> e.lastUpdatedAt.Some?
  {
    var r := RecentEntries(data, minutes, now);
    forall e | e in r ensures e.lastUpdatedAt.Some? {
      var k :| 0 <= k < |r| && r[k] == e;
    }
  }

  /** A window of zero (or negative) minutes keeps nothing when every
      timestamp lies strictly before `now`. */
  lemma {:induction false} EmptyWindowKeepsNothing(data: seq<PricePoint>, minutes: int, now: int)
    requires minutes <= 0
    requires forall i :: 0 <= i < |data| && data[i].lastUpdatedAt.Some? ==> data[i].lastUpdatedAt.value < now
    ensures RecentEntries(data, minutes, now) == []
  {
    if data != [] {
      EmptyWindowKeepsNothing(data[..|data| - 1], minutes, now);
    }
  }

  /** The entries whose timestamp parses, in input order. */
  function Parsed(data: seq<PricePoint>): (r: seq<PricePoint>)
    ensures forall k :: 0 <= k < |r| ==> r[k] in data && r[k].lastUpdatedAt.Some?
    ensures forall i :: 0 <= i < |data| && data[i].lastUpdatedAt.Some? ==> data[i] in r
  {
    if data == [] then []
    else
      var last := data[|data| - 1];
      Parsed(data[..|data| - 1]) + (if last.lastUpdatedAt.Some? then [last] else [])
  }

  /** A window reaching back to the earliest timestamp keeps every entry
      whose timestamp parses. */
  lemma {:induction false} WideWindowKeepsParsed(data: seq<PricePoint>, minutes: int, now: int, earliest: int)
    requires forall i :: 0 <= i < |data| && data[i].lastUpdatedAt.Some? ==> earliest <= data[i].lastUpdatedAt.value
    requires now - earliest <= minutes * MillisPerMinute
    ensures RecentEntries(data, minutes, now) == Parsed(data)
  {
    if data != [] {
      WideWindowKeepsParsed(data[..|data| - 1], minutes, now, earliest);
    }
  }

  /** When every timestamp parses, Parsed is the identity. */
  lemma {:induction false} ParsedAll(data: seq<PricePoint>)
    requires forall i :: 0 <= i < |data| ==> data[i].lastUpdatedAt.Some?
    ensures Parsed(data) == data
  {
    if data != [] {
      ParsedAll(data[..|data| - 1]);
    }
  }

  /** Filtering with a wider window and then a narrower one is filtering with
      the narrower one; with equal windows the filter is idempotent. */
  lemma {:induction false} NarrowingComposes(data: seq<PricePoint>, narrow: int, wide: int, now: int)
    requires narrow <= wide
    ensures RecentEntries(RecentEntries(data, wide, now), narrow, now) == RecentEntries(data, narrow, now)
  {
    if data != [] {
      var init, last := data[..|data| - 1], data[|data| - 1];
      NarrowingComposes(init, narrow, wide, now);
      var w := RecentEntries(init, wide, now);
      if InWindow(last, wide, now) {
        var w' := w + [last];
        assert w'[..|w'| - 1] == w;
      } else {
        assert !InWindow(last, narrow, now);
        assert RecentEntries(data, wide, now) == w;
        assert RecentEntries(data, narrow, now) == RecentEntries(init, narrow, now);
      }
    }
  }
}

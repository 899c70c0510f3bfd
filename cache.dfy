/**
  The in-memory store of the last bundle fetched per timeframe, with its
  two age thresholds. `Date.now()` is the `now` argument of each operation
  (milliseconds), and the two thresholds, read from the environment at
  start-up, are constructor arguments in milliseconds.
 */
module Cache {
  import opened Wrappers
  import opened Types

  /** `{ value, updatedAt }`. */
  datatype Entry = Entry(value: Bundle, updatedAt: int)

  /** `CACHE_TTL_HOURS` (default 6) and `REFRESH_MIN_AGE_MINUTES` (default 10), in milliseconds. */
  const DefaultTtl: int := 6 * 60 * 60 * 1000
  const DefaultMinRefresh: int := 10 * 60 * 1000

  class TimeframeCache {
    /** The module-level `store` map. */
    var store: map<Timeframe, Entry>
    /** `TTL_MS`: older entries are stale. */
    const ttl: int
    /** `MIN_REFRESH_MS`: older entries are refreshed when requested. */
    const minRefresh: int

    constructor(ttl: int, minRefresh: int)
      ensures store == map[]
      ensures this.ttl == ttl && this.minRefresh == minRefresh
    {
      store := map[];
      this.ttl := ttl;
      this.minRefresh := minRefresh;
    }

    /** `getFromCache(tf)`: the entry, or `undefined`. */
    function Lookup(tf: Timeframe): (e: Option<Entry>)
      reads this
      ensures e.Some? <==> tf in store
      ensures e.Some? ==> e.value == store[tf]
    {
      if tf in store then Some(store[tf]) else None
    }

    /** `isStale(e)`: older than the time-to-live. */
    predicate IsStale(e: Entry, now: int) {
      now - e.updatedAt > ttl
    }

    /** `shouldRefreshOnRequest(e)`: absent, or older than the minimum refresh age. */
    predicate ShouldRefresh(e: Option<Entry>, now: int) {
      e.None? || now - e.value.updatedAt > minRefresh
    }

    /** `setCache(tf, value)`: stamps the entry with `now`. */
    method SetCache(tf: Timeframe, value: Bundle, now: int)
      modifies this
      ensures store == old(store)[tf := Entry(value, now)]
      ensures Lookup(tf) == Some(Entry(value, now))
      ensures forall other :: other != tf ==> Lookup(other) == old(Lookup(other))
    {
      store := store[tf := Entry(value, now)];
    }

    /** `dumpAll()`: every timeframe of `TIMEFRAMES`, in order, with its value or `null`. */
    function DumpAll(): (r: seq<(Timeframe, Option<Bundle>)>)
      reads this
      ensures |r| == |Timeframes|
      ensures forall i :: 0 <= i < |r| ==> r[i].0 == Timeframes[i]
      ensures forall i :: 0 <= i < |r| ==>
        (r[i].1.Some? <==> Timeframes[i] in store)
        && (r[i].1.Some? ==> r[i].1.value == store[Timeframes[i]].value)
    {
      seq(|Timeframes|, i requires 0 <= i < |Timeframes| reads this =>
        (Timeframes[i], if Timeframes[i] in store then Some(store[Timeframes[i]].value) else None))
    }

    /** Nothing stored yet means a refresh is due. */
    lemma AbsentIsDue(now: int)
      ensures ShouldRefresh(None, now)
    {
    }

    /** An entry written at `now` is neither stale nor due at `now`, both tests being strict. */
    lemma FreshEntryIsCurrent(value: Bundle, now: int)
      requires ttl >= 0 && minRefresh >= 0
      ensures !IsStale(Entry(value, now), now)
      ensures !ShouldRefresh(Some(Entry(value, now)), now)
    {
    }

    /** With a time-to-live no shorter than the refresh age, a stale entry is always due. */
    lemma StaleIsDue(e: Entry, now: int)
      requires ttl >= minRefresh
      requires IsStale(e, now)
      ensures ShouldRefresh(Some(e), now)
    {
    }

    /** A stale entry stays stale as time goes on. */
    lemma StaleStaysStale(e: Entry, now: int, later: int)
      requires IsStale(e, now) && now <= later
      ensures IsStale(e, later)
    {
    }

    /** An entry due for a refresh stays due as time goes on; an entry not due was written less than the refresh age ago. */
    lemma DueStaysDue(e: Option<Entry>, now: int, later: int)
      requires now <= later
      ensures ShouldRefresh(e, now) ==> ShouldRefresh(e, later)
      ensures !ShouldRefresh(e, now) ==> e.Some? && now - e.value.updatedAt <= minRefresh
    {
    }

    /** After `setCache`, the dump shows the new value under its timeframe and nothing else changed. */
    lemma DumpAfterSet(old_store: map<Timeframe, Entry>, tf: Timeframe, value: Bundle, now: int)
      requires store == old_store[tf := Entry(value, now)]
      ensures forall i :: 0 <= i < |Timeframes| && Timeframes[i] == tf ==> DumpAll()[i].1 == Some(value)
      ensures forall i :: 0 <= i < |Timeframes| && Timeframes[i] != tf ==>
        DumpAll()[i].1 == if Timeframes[i] in old_store then Some(old_store[Timeframes[i]].value) else None
    {
    }
  }
}

// api/MCP/api_client.py: `search_clients` and `search_invoices` filter the server's records page by page
// and stop as soon as they have enough.

module PagedSearch {
  import opened Collections

  /** The two page-size settings. */
  datatype Config = Config(defaultPageSize: int, maxPageSize: int)

  predicate Sensible(config: Config) {
    config.defaultPageSize > 0 && config.maxPageSize > 0
  }

  function Min(a: int, b: int): int {
    if a <= b then a else b
  }

  /** `limit or DEFAULT_PAGE_SIZE`: both a missing limit and zero mean the default. */
  function EffectiveLimit(config: Config, limit: Option<int>): int {
    if limit.None? || limit.value == 0 then config.defaultPageSize else limit.value
  }

  function BatchSize(config: Config): int {
    Min(100, config.maxPageSize)
  }

  /** The server's answer to ?skip=...&limit=... */
  function Page<T>(records: seq<T>, skip: nat, limit: nat): seq<T> {
    records[Min(|records|, skip)..Min(|records|, skip + limit)]
  }

  /** Python's s[from : to], negative bounds counting from the end. */
  function Slice<T>(s: seq<T>, from: int, to: int): seq<T> {
    var lo := Bound(|s|, from);
    var hi := Bound(|s|, to);
    if lo < hi then s[lo..hi] else []
  }

  function Bound(length: nat, i: int): (b: nat)
    ensures b <= length
  {
    if i < 0 then (if length + i < 0 then 0 else length + i) else Min(length, i)
  }

  /** The matching ones of the first `n` records, or of all if there are fewer, in order. */
  function MatchesUpTo<T>(records: seq<T>, matching: T -> bool, n: nat): seq<T> {
    if n == 0 then []
    else MatchesUpTo(records, matching, n - 1)
         + (if n <= |records| && matching(records[n - 1]) then [records[n - 1]] else [])
  }

  function Matches<T>(records: seq<T>, matching: T -> bool): seq<T> {
    MatchesUpTo(records, matching, |records|)
  }

  /**
   * The server's collection at each fetch; after the last one listed it does not change any more. A
   * single version is a collection that stays the same.
   */
  type Versions<T> = v: seq<seq<T>> | |v| > 0 witness [[]]

  function At<T>(versions: Versions<T>, fetch: nat): seq<T> {
    versions[if fetch < |versions| then fetch else |versions| - 1]
  }

  /** `current_skip` before fetch number `fetch`. */
  function Offset(batch: nat, fetch: nat): nat {
    if fetch == 0 then 0 else Offset(batch, fetch - 1) + batch
  }

  function Batch<T>(versions: Versions<T>, batch: nat, fetch: nat): seq<T> {
    Page(At(versions, fetch), Offset(batch, fetch), batch)
  }

  /** What the first `fetches` batches contribute. */
  function Gathered<T>(versions: Versions<T>, matching: T -> bool, batch: nat, fetches: nat): seq<T> {
    if fetches == 0 then []
    else Gathered(versions, matching, batch, fetches - 1) + Matches(Batch(versions, batch, fetches - 1), matching)
  }

  /** The search stops after `fetches` fetches: it has `end` records, or the last batch was empty, and not earlier. */
  ghost predicate StopsAfter<T>(versions: Versions<T>, matching: T -> bool, batch: nat, end: int, fetches: nat) {
    && (|Gathered(versions, matching, batch, fetches)| >= end || (fetches > 0 && |Batch(versions, batch, fetches - 1)| == 0))
    && (fetches > 0 ==> |Gathered(versions, matching, batch, fetches - 1)| < end)
    && (fetches > 0 ==> NoneEmpty(versions, batch, fetches - 1))
  }

  /** The first `fetches` batches all hold something. */
  ghost predicate NoneEmpty<T>(versions: Versions<T>, batch: nat, fetches: nat) {
    fetches == 0 || (NoneEmpty(versions, batch, fetches - 1) && |Batch(versions, batch, fetches - 1)| > 0)
  }

  // ----- the search ------------------------------------------------------------------------

  /** `list_clients` / `list_invoices` */
  method ListRecords<T>(config: Config, records: seq<T>, skip: nat, limit: Option<int>) returns (page: seq<T>)
    requires Sensible(config) && EffectiveLimit(config, limit) > 0
    ensures page == Page(records, skip, Min(EffectiveLimit(config, limit), config.maxPageSize))
  {
    var size := if limit.None? || limit.value == 0 then config.defaultPageSize else limit.value;
    size := Min(size, config.maxPageSize);
    page := Page(records, skip, size);
  }

  /** The fetch in the search loop. */
  method FetchBatch<T>(config: Config, versions: Versions<T>, fetch: nat, currentSkip: nat) returns (batch: seq<T>)
    requires Sensible(config) && currentSkip == Offset(BatchSize(config), fetch)
    ensures batch == Batch(versions, BatchSize(config), fetch)
    ensures |batch| > 0 ==> fetch < LastFetch(versions)
  {
    batch := ListRecords(config, At(versions, fetch), currentSkip, Some(BatchSize(config)));
    if |batch| > 0 {
      NonEmptyBatch(versions, BatchSize(config), fetch);
    }
  }

  /** The loop over one batch. */
  method FilterBatch<T>(batch: seq<T>, matching: T -> bool, found: seq<T>) returns (more: seq<T>)
    ensures more == found + Matches(batch, matching)
  {
    more := found;
    for i := 0 to |batch|
      invariant more == found + MatchesUpTo(batch, matching, i)
    {
      if matching(batch[i]) {
        more := more + [batch[i]];
      }
    }
  }

  /** The batch loop, until `end` matches are found or the server has no more. */
  method GatherMatches<T>(config: Config, versions: Versions<T>, matching: T -> bool, end: int, batchSize: nat)
    returns (found: seq<T>, fetches: nat)
    requires Sensible(config) && batchSize == BatchSize(config)
    ensures found == Gathered(versions, matching, batchSize, fetches)
    ensures StopsAfter(versions, matching, batchSize, end, fetches)
  {
    found, fetches := [], 0;
    var currentSkip: nat := 0;
    ghost var last := LastFetch(versions);
    while |found| < end
      invariant currentSkip == Offset(batchSize, fetches)
      invariant found == Gathered(versions, matching, batchSize, fetches)
      invariant Reading(versions, matching, batchSize, end, fetches)
      invariant fetches <= last
      decreases last - fetches
    {
      var batch := FetchBatch(config, versions, fetches, currentSkip);
      OneFetchMore(versions, matching, batchSize, end, fetches);
      fetches := fetches + 1;
      if |batch| == 0 {
        return;
      }
      found := FilterBatch(batch, matching, found);
      currentSkip := currentSkip + batchSize;
      if |found| >= end {
        break;
      }
    }
    EnoughFound(versions, matching, batchSize, end, fetches);
  }

  /** The search has come to its fetch number `fetches`. */
  ghost predicate Reading<T>(versions: Versions<T>, matching: T -> bool, batch: nat, end: int, fetches: nat) {
    (fetches > 0 ==> |Gathered(versions, matching, batch, fetches - 1)| < end) && NoneEmpty(versions, batch, fetches)
  }

  lemma OneFetchMore<T>(versions: Versions<T>, matching: T -> bool, batch: nat, end: int, fetches: nat)
    requires Reading(versions, matching, batch, end, fetches) && |Gathered(versions, matching, batch, fetches)| < end
    ensures Gathered(versions, matching, batch, fetches + 1)
         == Gathered(versions, matching, batch, fetches) + Matches(Batch(versions, batch, fetches), matching)
    ensures Offset(batch, fetches + 1) == Offset(batch, fetches) + batch
    ensures if |Batch(versions, batch, fetches)| == 0
            then Gathered(versions, matching, batch, fetches + 1) == Gathered(versions, matching, batch, fetches)
                 && StopsAfter(versions, matching, batch, end, fetches + 1)
            else Reading(versions, matching, batch, end, fetches + 1)
  {
  }

  lemma EnoughFound<T>(versions: Versions<T>, matching: T -> bool, batch: nat, end: int, fetches: nat)
    requires Reading(versions, matching, batch, end, fetches) && |Gathered(versions, matching, batch, fetches)| >= end
    ensures StopsAfter(versions, matching, batch, end, fetches)
  {
  }

  /**
   * The search, on a collection that may change between fetches. It returns the requested window of what
   * it has gathered, and it stops for one of two reasons: it has enough, or the server has no more.
   */
  method Search<T>(config: Config, versions: Versions<T>, matching: T -> bool, skip: int, limit: Option<int>)
    returns (result: seq<T>, fetches: nat)
    requires Sensible(config)
    ensures StopsAfter(versions, matching, BatchSize(config), skip + EffectiveLimit(config, limit), fetches)
    ensures result == Slice(Gathered(versions, matching, BatchSize(config), fetches), skip, skip + EffectiveLimit(config, limit))
  {
    var end := skip + EffectiveLimit(config, limit);
    var found: seq<T>;
    found, fetches := GatherMatches(config, versions, matching, end, BatchSize(config));
    result := Slice(found, skip, end);
  }

  /** The search, on a collection that stays the same. */
  method SearchFixed<T>(config: Config, records: seq<T>, matching: T -> bool, skip: nat, limit: Option<int>)
    returns (result: seq<T>, fetches: nat)
    requires Sensible(config) && skip + EffectiveLimit(config, limit) >= 0
    ensures result == Slice(Matches(records, matching), skip, skip + EffectiveLimit(config, limit))
    ensures fetches <= Pages(|records|, BatchSize(config)) + 1
  {
    var batchSize, end := BatchSize(config), skip + EffectiveLimit(config, limit);
    var versions: Versions<T> := [records];
    var found: seq<T>;
    found, fetches := GatherMatches(config, versions, matching, end, batchSize);
    result := Slice(found, skip, end);
    ExactOnFixed(versions, matching, batchSize, skip, end, fetches);
  }

  lemma ExactOnFixed<T>(versions: Versions<T>, matching: T -> bool, batch: nat, skip: nat, end: nat, fetches: nat)
    requires |versions| == 1 && batch > 0 && StopsAfter(versions, matching, batch, end, fetches)
    ensures Slice(Gathered(versions, matching, batch, fetches), skip, end) == Slice(Matches(versions[0], matching), skip, end)
    ensures fetches <= Pages(|versions[0]|, batch) + 1
  {
    EarlyExitIsExact(versions, matching, batch, skip, end, fetches);
    FetchesAreBounded(versions, matching, batch, end, fetches);
  }

  /** Beyond this fetch every batch is empty. */
  function LastFetch<T>(versions: Versions<T>): nat {
    |versions| + |versions[|versions| - 1]|
  }

  lemma NonEmptyBatch<T>(versions: Versions<T>, batch: nat, fetch: nat)
    requires batch > 0 && |Batch(versions, batch, fetch)| > 0
    ensures fetch < LastFetch(versions)
  {
    OffsetGrows(batch, fetch);
  }

  lemma {:induction false} OffsetGrows(batch: nat, fetch: nat)
    requires batch > 0
    ensures Offset(batch, fetch) >= fetch
  {
    if fetch > 0 {
      OffsetGrows(batch, fetch - 1);
    }
  }

  // ----- on a collection that stays the same -----------------------------------------------

  lemma {:induction false} MatchesBeyond<T>(records: seq<T>, matching: T -> bool, n: nat)
    requires n >= |records|
    ensures MatchesUpTo(records, matching, n) == Matches(records, matching)
    decreases n
  {
    if n > |records| {
      MatchesBeyond(records, matching, n - 1);
    }
  }

  lemma PageElement<T>(records: seq<T>, skip: nat, limit: nat, i: nat)
    requires i < limit
    ensures i < |Page(records, skip, limit)| <==> skip + i < |records|
    ensures |Page(records, skip, limit)| <= limit
    ensures skip + i < |records| ==> Page(records, skip, limit)[i] == records[skip + i]
  {
  }

  /** Filtering a page on its own gives the matches of that stretch of the collection. */
  lemma {:induction false} MatchesOfPage<T>(records: seq<T>, skip: nat, limit: nat, n: nat, matching: T -> bool)
    requires n <= limit
    ensures MatchesUpTo(records, matching, skip + n)
         == MatchesUpTo(records, matching, skip) + MatchesUpTo(Page(records, skip, limit), matching, n)
  {
    if n > 0 {
      MatchesOfPage(records, skip, limit, n - 1, matching);
      PageElement(records, skip, limit, n - 1);
    }
  }

  /** The batches read so far are a prefix of the collection. */
  lemma {:induction false} GatheredIsPrefix<T>(versions: Versions<T>, matching: T -> bool, batch: nat, fetches: nat)
    requires |versions| == 1
    ensures Gathered(versions, matching, batch, fetches) == MatchesUpTo(versions[0], matching, Offset(batch, fetches))
  {
    if fetches > 0 {
      GatheredIsPrefix(versions, matching, batch, fetches - 1);
      OneBatchMore(versions, matching, batch, fetches - 1);
    }
  }

  lemma OneBatchMore<T>(versions: Versions<T>, matching: T -> bool, batch: nat, fetch: nat)
    requires |versions| == 1
    ensures MatchesUpTo(versions[0], matching, Offset(batch, fetch + 1))
         == MatchesUpTo(versions[0], matching, Offset(batch, fetch)) + Matches(Batch(versions, batch, fetch), matching)
  {
    WholePage(versions[0], Offset(batch, fetch), batch, matching);
  }

  lemma WholePage<T>(records: seq<T>, skip: nat, limit: nat, matching: T -> bool)
    ensures MatchesUpTo(records, matching, skip + limit)
         == MatchesUpTo(records, matching, skip) + Matches(Page(records, skip, limit), matching)
  {
    MatchesOfPage(records, skip, limit, limit, matching);
    MatchesBeyond(Page(records, skip, limit), matching, limit);
  }

  lemma {:induction false} MatchesOfPrefix<T>(records: seq<T>, n: nat, matching: T -> bool)
    ensures MatchesUpTo(records, matching, n) <= Matches(records, matching)
    ensures n >= |records| ==> MatchesUpTo(records, matching, n) == Matches(records, matching)
    decreases |records| - n
  {
    if n >= |records| {
      MatchesBeyond(records, matching, n);
    } else {
      MatchesOfPrefix(records, n + 1, matching);
    }
  }

  /**
   * On a fixed collection the search returns exactly the requested window of all matches, whatever the
   * batch size. (A negative limit that makes the window end before the first record gives nothing.)
   */
  lemma EarlyExitIsExact<T>(versions: Versions<T>, matching: T -> bool, batch: nat, skip: nat, end: int, fetches: nat)
    requires |versions| == 1 && batch > 0 && StopsAfter(versions, matching, batch, end, fetches)
    ensures Slice(Gathered(versions, matching, batch, fetches), skip, end)
         == if end >= 0 then Slice(Matches(versions[0], matching), skip, end) else []
  {
    var found, all := Gathered(versions, matching, batch, fetches), Matches(versions[0], matching);
    GatheredIsPrefix(versions, matching, batch, fetches);
    MatchesOfPrefix(versions[0], Offset(batch, fetches), matching);
    if end < 0 {
      assert fetches == 0;
    } else if |found| >= end {
      PrefixWindow(found, all, skip, end);
    } else {
      assert |Batch(versions, batch, fetches - 1)| == 0;
      assert Offset(batch, fetches - 1) >= |versions[0]|;
      assert found == all;
    }
  }

  lemma PrefixWindow<T>(found: seq<T>, all: seq<T>, skip: nat, end: nat)
    requires found <= all && |found| >= end
    ensures Slice(found, skip, end) == Slice(all, skip, end)
  {
  }

  /** On a fixed collection the search needs at most one fetch more than the collection has pages. */
  lemma FetchesAreBounded<T>(versions: Versions<T>, matching: T -> bool, batch: nat, end: int, fetches: nat)
    requires |versions| == 1 && batch > 0 && StopsAfter(versions, matching, batch, end, fetches)
    ensures fetches <= Pages(|versions[0]|, batch) + 1
  {
    if fetches > 1 {
      assert |Batch(versions, batch, fetches - 2)| > 0;
      assert Offset(batch, fetches - 2) < |versions[0]|;
      PagesBefore(|versions[0]|, batch, fetches - 2);
    }
  }

  /** The number of pages that `size` records take, the last one possibly short. */
  function Pages(size: nat, batch: nat): nat
    requires batch > 0
  {
    if size == 0 then 0 else if size <= batch then 1 else 1 + Pages(size - batch, batch)
  }

  /** If page `k` begins before the end, there are more than `k` pages. */
  lemma {:induction false} PagesBefore(size: nat, batch: nat, k: nat)
    requires batch > 0 && Offset(batch, k) < size
    ensures k < Pages(size, batch)
    decreases k
  {
    if k > 0 {
      PagesBefore(size - batch, batch, k - 1);
    }
  }

  lemma PageExtends<T>(records: seq<T>, from: nat, batch: nat)
    ensures Page(records, 0, from + batch) == Page(records, 0, from) + Page(records, from, batch)
  {
  }

  /** The listing's pages [0, size), [size, 2 * size), ... put together. */
  function Listed<T>(records: seq<T>, size: nat, count: nat): seq<T> {
    if count == 0 then [] else Listed(records, size, count - 1) + Page(records, Offset(size, count - 1), size)
  }

  /** Paging through the listing gives every record once, in order, as soon as there are enough pages. */
  lemma {:induction false} PagesTile<T>(records: seq<T>, size: nat, count: nat)
    ensures Listed(records, size, count) == Page(records, 0, Offset(size, count))
    ensures Offset(size, count) >= |records| ==> Listed(records, size, count) == records
  {
    if count > 0 {
      PagesTile(records, size, count - 1);
      PageExtends(records, Offset(size, count - 1), size);
    }
  }

  /** Lists put together. */
  function Joined<T>(parts: seq<seq<T>>): seq<T> {
    if |parts| == 0 then [] else Joined(parts[..|parts| - 1]) + parts[|parts| - 1]
  }

  lemma {:induction false} JoinedTiles<T>(all: seq<T>, size: nat, tiles: seq<seq<T>>)
    requires forall k: nat :: k < |tiles| ==> tiles[k] == Page(all, Offset(size, k), size)
    ensures Joined(tiles) == Page(all, 0, Offset(size, |tiles|))
  {
    if |tiles| > 0 {
      var n := |tiles| - 1;
      JoinedTiles(all, size, tiles[..n]);
      PageExtends(all, Offset(size, n), size);
    }
  }

  /** `result` is what a search for the window of `size` matches from `skip` on may return. */
  ghost predicate IsResult<T>(versions: Versions<T>, matching: T -> bool, batch: nat, skip: nat, size: nat, result: seq<T>) {
    exists fetches :: StopsAfter(versions, matching, batch, skip + size, fetches)
                      && result == Slice(Gathered(versions, matching, batch, fetches), skip, skip + size)
  }

  lemma ResultIsTile<T>(versions: Versions<T>, matching: T -> bool, batch: nat, skip: nat, size: nat, result: seq<T>)
    requires |versions| == 1 && batch > 0 && IsResult(versions, matching, batch, skip, size, result)
    ensures result == Page(Matches(versions[0], matching), skip, size)
  {
    var fetches :| StopsAfter(versions, matching, batch, skip + size, fetches)
                   && result == Slice(Gathered(versions, matching, batch, fetches), skip, skip + size);
    EarlyExitIsExact(versions, matching, batch, skip, skip + size, fetches);
    SliceIsPage(Matches(versions[0], matching), skip, size);
  }

  lemma SliceIsPage<T>(all: seq<T>, skip: nat, size: nat)
    ensures Slice(all, skip, skip + size) == Page(all, skip, size)
  {
  }

  /**
   * Searching for the windows [0, size), [size, 2 * size), ... of a fixed collection, each search stopping
   * on its own account, gives all matches, once and in order, as soon as there are enough windows.
   */
  lemma WindowsTile<T>(versions: Versions<T>, matching: T -> bool, batch: nat, size: nat, results: seq<seq<T>>)
    requires |versions| == 1 && batch > 0
    requires forall k: nat :: k < |results| ==> IsResult(versions, matching, batch, Offset(size, k), size, results[k])
    ensures Joined(results) == Page(Matches(versions[0], matching), 0, Offset(size, |results|))
    ensures Offset(size, |results|) >= |Matches(versions[0], matching)| ==> Joined(results) == Matches(versions[0], matching)
  {
    var all := Matches(versions[0], matching);
    forall k: nat | k < |results| ensures results[k] == Page(all, Offset(size, k), size) {
      ResultIsTile(versions, matching, batch, Offset(size, k), size, results[k]);
    }
    JoinedTiles(all, size, results);
  }

  // ----- the same, told from the records -----------------------------------------------------

  /** Fetch number `fetch` begins at the record numbered `fetch` times the batch size. */
  lemma {:induction false} OffsetIsProduct(batch: nat, fetch: nat)
    ensures Offset(batch, fetch) == batch * fetch
  {
    if fetch > 0 {
      OffsetIsProduct(batch, fetch - 1);
      assert batch * fetch == batch * (fetch - 1) + batch;
    }
  }

  /** How many of the first `n` records match. */
  ghost function MatchesBefore<T>(records: seq<T>, matching: T -> bool, n: nat): nat {
    |set q | 0 <= q < n && q < |records| && matching(records[q])|
  }

  lemma {:induction false} MatchesCounted<T>(records: seq<T>, matching: T -> bool, n: nat)
    ensures |MatchesUpTo(records, matching, n)| == MatchesBefore(records, matching, n)
  {
    var now := set q | 0 <= q < n && q < |records| && matching(records[q]);
    if n == 0 {
      assert now == {};
    } else {
      MatchesCounted(records, matching, n - 1);
      var before := set q | 0 <= q < n - 1 && q < |records| && matching(records[q]);
      assert now == if n <= |records| && matching(records[n - 1]) then before + {n - 1} else before;
    }
  }

  /**
   * The matches of a collection: as many as there are matching records, and each matching record stands at the
   * place that the number of matching records before it says.
   */
  lemma MatchesInOrder<T>(records: seq<T>, matching: T -> bool, p: nat)
    ensures |Matches(records, matching)| == MatchesBefore(records, matching, |records|)
    ensures p < |records| && matching(records[p]) ==>
              MatchesBefore(records, matching, p) < |Matches(records, matching)|
              && Matches(records, matching)[MatchesBefore(records, matching, p)] == records[p]
  {
    MatchesCounted(records, matching, |records|);
    if p < |records| && matching(records[p]) {
      MatchesCounted(records, matching, p);
      MatchesOfPrefix(records, p + 1, matching);
      assert MatchesUpTo(records, matching, p + 1) == MatchesUpTo(records, matching, p) + [records[p]];
    }
  }

  /** A missing limit and a limit of zero both mean the default page size; a listing asks for no more than the maximum. */
  lemma LimitTaken(config: Config, limit: Option<int>)
    ensures EffectiveLimit(config, limit) == match limit
                                             case None => config.defaultPageSize
                                             case Some(n) => if n == 0 then config.defaultPageSize else n
    ensures BatchSize(config) == if config.maxPageSize < 100 then config.maxPageSize else 100
  {
  }

  /** The listing: record after record from `skip` on, up to the limit, the maximum or the end, whichever comes first. */
  lemma ListedRecords<T>(records: seq<T>, skip: nat, size: nat)
    ensures |Page(records, skip, size)| == if skip >= |records| then 0 else if |records| - skip < size then |records| - skip else size
    ensures forall i :: 0 <= i < |Page(records, skip, size)| ==> Page(records, skip, size)[i] == records[skip + i]
  {
  }

  /**
   * What a search on a fixed collection returns, told from its arguments: match after match from number `skip`
   * on, up to the limit or the last one.
   */
  lemma ReturnedWindow<T>(config: Config, records: seq<T>, matching: T -> bool, skip: nat, limit: Option<int>, size: nat)
    requires size == match limit
                     case None => config.defaultPageSize
                     case Some(n) => if n == 0 then config.defaultPageSize else n
    ensures var all, result := Matches(records, matching), Slice(Matches(records, matching), skip, skip + EffectiveLimit(config, limit));
            && |result| == (if skip >= |all| then 0 else if |all| - skip < size then |all| - skip else size)
            && forall i :: 0 <= i < |result| ==> result[i] == all[skip + i]
  {
    LimitTaken(config, limit);
    SliceIsPage(Matches(records, matching), skip, size);
    ListedRecords(Matches(records, matching), skip, size);
  }

  /** The number of pages is the size divided by the page size, rounded up. */
  lemma {:induction false} PagesRoundedUp(size: nat, batch: nat)
    requires batch > 0
    ensures batch * Pages(size, batch) >= size
    ensures Pages(size, batch) > 0 ==> batch * (Pages(size, batch) - 1) < size
    decreases size
  {
    if size > batch {
      PagesRoundedUp(size - batch, batch);
      var rest := Pages(size - batch, batch);
      assert batch * (1 + rest) == batch + batch * rest;
      assert rest > 0 && batch * rest == batch + batch * (rest - 1);
    }
  }

  // ----- on a growing collection -----------------------------------------------------------

  /** Records are only ever appended between fetches. */
  ghost predicate Growing<T>(versions: Versions<T>) {
    forall i, k {:trigger Extends(versions[i], versions[k])} :: 0 <= i <= k < |versions| ==> Extends(versions[i], versions[k])
  }

  ghost predicate Extends<T>(earlier: seq<T>, later: seq<T>) {
    earlier <= later
  }

  /** The positions, in the final collection, of the records gathered. */
  function Positions<T>(versions: Versions<T>, matching: T -> bool, batch: nat, fetches: nat): seq<nat> {
    if fetches == 0 then []
    else Positions(versions, matching, batch, fetches - 1)
         + MatchingFrom(Batch(versions, batch, fetches - 1), matching, Offset(batch, fetches - 1),
                        |Batch(versions, batch, fetches - 1)|)
  }

  /** The positions of the matching ones of the page's first `n` records, the page beginning at `from`. */
  function MatchingFrom<T>(page: seq<T>, matching: T -> bool, from: nat, n: nat): seq<nat>
    requires n <= |page|
  {
    if n == 0 then []
    else MatchingFrom(page, matching, from, n - 1) + (if matching(page[n - 1]) then [from + n - 1] else [])
  }

  lemma {:induction false} PagePositions<T>(page: seq<T>, matching: T -> bool, from: nat, n: nat)
    requires n <= |page|
    ensures var at, found := MatchingFrom(page, matching, from, n), MatchesUpTo(page, matching, n);
            && |at| == |found|
            && (forall i :: 0 <= i < |at| ==> from <= at[i] < from + n)
            && (forall i :: 0 <= i < |at| ==> found[i] == page[at[i] - from] && matching(found[i]))
            && (forall i, k :: 0 <= i < k < |at| ==> at[i] < at[k])
  {
    if n > 0 {
      PagePositions(page, matching, from, n - 1);
    }
  }

  /** `at` are strictly increasing positions in `final`, below `bound`, of the matching records `found`. */
  ghost predicate FoundAt<T>(final: seq<T>, matching: T -> bool, found: seq<T>, at: seq<nat>, bound: int) {
    && |at| == |found|
    && (forall i :: 0 <= i < |at| ==> at[i] < |final| && at[i] < bound && final[at[i]] == found[i] && matching(found[i]))
    && (forall i, k :: 0 <= i < k < |at| ==> at[i] < at[k])
  }

  /**
   * However the collection grows between fetches, what is gathered are matching records of the final
   * collection in its order, none of them twice.
   */
  lemma {:induction false} GrowingStaysInOrder<T>(versions: Versions<T>, matching: T -> bool, batch: nat, fetches: nat)
    requires Growing(versions)
    ensures FoundAt(versions[|versions| - 1], matching, Gathered(versions, matching, batch, fetches),
                    Positions(versions, matching, batch, fetches), Offset(batch, fetches))
  {
    if fetches > 0 {
      var from, page := Offset(batch, fetches - 1), Batch(versions, batch, fetches - 1);
      var final := versions[|versions| - 1];
      GrowingStaysInOrder(versions, matching, batch, fetches - 1);
      assert Extends(At(versions, fetches - 1), final);
      PageInFinal(At(versions, fetches - 1), final, from, batch);
      FoundAtExtends(final, matching, Gathered(versions, matching, batch, fetches - 1),
                     Positions(versions, matching, batch, fetches - 1), from, page, batch);
    }
  }

  lemma PageInFinal<T>(version: seq<T>, final: seq<T>, from: nat, batch: nat)
    requires version <= final
    ensures var page := Page(version, from, batch);
            && (page == [] || (|page| <= batch && from + |page| <= |final|))
            && forall i :: 0 <= i < |page| ==> page[i] == final[from + i]
  {
  }

  lemma FoundAtExtends<T>(final: seq<T>, matching: T -> bool, found: seq<T>, at: seq<nat>, from: nat, page: seq<T>, batch: nat)
    requires FoundAt(final, matching, found, at, from)
    requires page == [] || (|page| <= batch && from + |page| <= |final|)
    requires forall i :: 0 <= i < |page| ==> page[i] == final[from + i]
    ensures FoundAt(final, matching, found + Matches(page, matching), at + MatchingFrom(page, matching, from, |page|), from + batch)
  {
    PagePositions(page, matching, from, |page|);
    var more, moreAt := Matches(page, matching), MatchingFrom(page, matching, from, |page|);
    forall i | 0 <= i < |moreAt|
      ensures from <= moreAt[i] < from + batch && moreAt[i] < |final| && final[moreAt[i]] == more[i] && matching(more[i])
    {
      assert more[i] == page[moreAt[i] - from] == final[from + (moreAt[i] - from)];
    }
    FoundAtJoins(final, matching, found, at, from, more, moreAt, from + batch);
  }

  lemma FoundAtJoins<T>(final: seq<T>, matching: T -> bool, found: seq<T>, at: seq<nat>, middle: nat,
                        more: seq<T>, moreAt: seq<nat>, end: int)
    requires FoundAt(final, matching, found, at, middle) && middle <= end
    requires FoundAt(final, matching, more, moreAt, end)
    requires forall i :: 0 <= i < |moreAt| ==> middle <= moreAt[i]
    ensures FoundAt(final, matching, found + more, at + moreAt, end)
  {
  }

  // ----- what growth hides -----------------------------------------------------------------

  function Final<T>(versions: Versions<T>): seq<T> {
    versions[|versions| - 1]
  }

  /** The record at position `p` came too late: fetch number `fetch` ended before it, the next one begins behind it. */
  predicate SkippedBy<T>(versions: Versions<T>, batch: nat, fetch: nat, p: nat) {
    p < |Final(versions)| && Offset(batch, fetch) + |Batch(versions, batch, fetch)| <= p < Offset(batch, fetch) + batch
  }

  ghost predicate NoMatchSkippedBy<T>(versions: Versions<T>, matching: T -> bool, batch: nat, fetch: nat) {
    forall p: nat :: SkippedBy(versions, batch, fetch, p) ==> !matching(Final(versions)[p])
  }

  /** None of the first `fetches` fetches came too early for a matching record. */
  ghost predicate NoMatchSkipped<T>(versions: Versions<T>, matching: T -> bool, batch: nat, fetches: nat) {
    fetches == 0
    || (NoMatchSkipped(versions, matching, batch, fetches - 1) && NoMatchSkippedBy(versions, matching, batch, fetches - 1))
  }

  lemma {:induction false} MatchesBetween<T>(records: seq<T>, matching: T -> bool, m: nat, n: nat)
    requires m <= n <= |records|
    ensures MatchesUpTo(records, matching, m) <= MatchesUpTo(records, matching, n)
    ensures |MatchesUpTo(records, matching, m)| == |MatchesUpTo(records, matching, n)|
       <==> forall i :: m <= i < n ==> !matching(records[i])
    decreases n
  {
    if m < n {
      MatchesBetween(records, matching, m, n - 1);
    }
  }

  lemma {:induction false} MatchesOfShorter<T>(short: seq<T>, long: seq<T>, matching: T -> bool, n: nat)
    requires short <= long && n <= |short|
    ensures MatchesUpTo(short, matching, n) == MatchesUpTo(long, matching, n)
  {
    if n > 0 {
      MatchesOfShorter(short, long, matching, n - 1);
    }
  }

  /** What was got is no more than all, and is all of it exactly if `none` holds. */
  ghost predicate CompleteIff<T>(got: seq<T>, all: seq<T>, none: bool) {
    |got| <= |all| && (none ==> got == all) && (!none ==> |got| < |all|)
  }

  ghost predicate NoneBehind<T>(short: seq<T>, long: seq<T>, matching: T -> bool) {
    forall i :: |short| <= i < |long| ==> !matching(long[i])
  }

  lemma MatchesOfBoth<T>(short: seq<T>, long: seq<T>, matching: T -> bool)
    requires short <= long
    ensures CompleteIff(Matches(short, matching), Matches(long, matching), NoneBehind(short, long, matching))
  {
    MatchesOfShorter(short, long, matching, |short|);
    MatchesBetween(long, matching, |short|, |long|);
  }

  lemma PageOfBoth<T>(earlier: seq<T>, later: seq<T>, from: nat, batch: nat)
    requires earlier <= later
    ensures Page(earlier, from, batch) <= Page(later, from, batch)
    ensures forall i :: 0 <= i < |Page(later, from, batch)| ==> from + i < |later| && Page(later, from, batch)[i] == later[from + i]
    ensures |Page(later, from, batch)| == Min(batch, if from < |later| then |later| - from else 0)
  {
  }

  /** What a fetch contributes, against what it contributes on the final collection. */
  lemma BatchAgainstFinal<T>(versions: Versions<T>, fixed: Versions<T>, matching: T -> bool, batch: nat, fetch: nat)
    requires Growing(versions) && |fixed| == 1 && fixed[0] == Final(versions)
    ensures CompleteIff(Matches(Batch(versions, batch, fetch), matching), Matches(Batch(fixed, batch, fetch), matching),
                        NoMatchSkippedBy(versions, matching, batch, fetch))
  {
    var final, from := Final(versions), Offset(batch, fetch);
    assert Extends(At(versions, fetch), final);
    PageOfBoth(At(versions, fetch), final, from, batch);
    MatchesOfBoth(Batch(versions, batch, fetch), Page(final, from, batch), matching);
    SkippedAreBehind(versions, matching, batch, fetch);
  }

  lemma SkippedAreBehind<T>(versions: Versions<T>, matching: T -> bool, batch: nat, fetch: nat)
    ensures NoneBehind(Batch(versions, batch, fetch), Page(Final(versions), Offset(batch, fetch), batch), matching)
       <==> NoMatchSkippedBy(versions, matching, batch, fetch)
  {
    var final, from := Final(versions), Offset(batch, fetch);
    var page, full := Batch(versions, batch, fetch), Page(final, from, batch);
    PageOfBoth(final, final, from, batch);
    if NoneBehind(page, full, matching) {
      forall p: nat | SkippedBy(versions, batch, fetch, p) ensures !matching(final[p]) {
        assert full[p - from] == final[from + (p - from)];
      }
    }
    if NoMatchSkippedBy(versions, matching, batch, fetch) {
      forall i | |page| <= i < |full| ensures !matching(full[i]) {
        assert SkippedBy(versions, batch, fetch, from + i);
      }
    }
  }

  lemma {:induction false} AgainstFinal<T>(versions: Versions<T>, fixed: Versions<T>, matching: T -> bool, batch: nat, fetches: nat)
    requires Growing(versions) && |fixed| == 1 && fixed[0] == Final(versions)
    ensures CompleteIff(Gathered(versions, matching, batch, fetches), Gathered(fixed, matching, batch, fetches),
                        NoMatchSkipped(versions, matching, batch, fetches))
  {
    if fetches > 0 {
      var fetch := fetches - 1;
      AgainstFinal(versions, fixed, matching, batch, fetch);
      BatchAgainstFinal(versions, fixed, matching, batch, fetch);
      BothComplete(Gathered(versions, matching, batch, fetch), Gathered(fixed, matching, batch, fetch),
                   NoMatchSkipped(versions, matching, batch, fetch),
                   Matches(Batch(versions, batch, fetch), matching), Matches(Batch(fixed, batch, fetch), matching),
                   NoMatchSkippedBy(versions, matching, batch, fetch));
    }
  }

  lemma BothComplete<T>(got: seq<T>, all: seq<T>, none: bool, now: seq<T>, later: seq<T>, noneNow: bool)
    requires CompleteIff(got, all, none) && CompleteIff(now, later, noneNow)
    ensures CompleteIff(got + now, all + later, none && noneNow)
  {
  }

  /**
   * What is gathered from a growing collection is all that matches in the final collection, as far as the
   * fetches reached, exactly when no matching record was appended behind a short page.
   */
  lemma NothingHiddenIff<T>(versions: Versions<T>, matching: T -> bool, batch: nat, fetches: nat)
    requires Growing(versions)
    ensures Gathered(versions, matching, batch, fetches) == MatchesUpTo(Final(versions), matching, Offset(batch, fetches))
       <==> NoMatchSkipped(versions, matching, batch, fetches)
  {
    var fixed: Versions<T> := versions[|versions| - 1..];
    AgainstFinal(versions, fixed, matching, batch, fetches);
    GatheredIsPrefix(fixed, matching, batch, fetches);
  }

  /** Spelled out: the skipped positions are those between the end of a short page and the next page's begin. */
  lemma {:induction false} SkippedSpelledOut<T>(versions: Versions<T>, matching: T -> bool, batch: nat, fetches: nat)
    ensures NoMatchSkipped(versions, matching, batch, fetches)
       <==> forall fetch: nat, p: nat ::
              (fetch < fetches && p < |Final(versions)|
               && Offset(batch, fetch) + |Batch(versions, batch, fetch)| <= p < Offset(batch, fetch) + batch)
              ==> !matching(Final(versions)[p])
  {
    if fetches > 0 {
      SkippedSpelledOut(versions, matching, batch, fetches - 1);
    }
  }

  // ----- the window a search returns from a growing collection -----------------------------

  /** One of the first `fetches` fetches has shown the record at position `p`. */
  predicate Shown<T>(versions: Versions<T>, batch: nat, fetches: nat, p: nat) {
    fetches > 0 && (Shown(versions, batch, fetches - 1, p) || ShownBy(versions, batch, fetches - 1, p))
  }

  predicate ShownBy<T>(versions: Versions<T>, batch: nat, fetch: nat, p: nat) {
    Offset(batch, fetch) <= p < Offset(batch, fetch) + |Batch(versions, batch, fetch)|
  }

  lemma {:induction false} InMatchingFrom<T>(page: seq<T>, matching: T -> bool, from: nat, n: nat, p: nat)
    requires n <= |page|
    ensures p in MatchingFrom(page, matching, from, n) <==> from <= p < from + n && matching(page[p - from])
  {
    if n > 0 {
      InMatchingFrom(page, matching, from, n - 1, p);
    }
  }

  /** A record is gathered exactly when it matches and some fetch has shown it. */
  lemma {:induction false} GatheredIff<T>(versions: Versions<T>, matching: T -> bool, batch: nat, fetches: nat, p: nat)
    requires Growing(versions)
    ensures p in Positions(versions, matching, batch, fetches)
       <==> p < |Final(versions)| && matching(Final(versions)[p]) && Shown(versions, batch, fetches, p)
  {
    if fetches > 0 {
      GatheredIff(versions, matching, batch, fetches - 1, p);
      GatheredByOne(versions, matching, batch, fetches - 1, p);
    }
  }

  lemma GatheredByOne<T>(versions: Versions<T>, matching: T -> bool, batch: nat, fetch: nat, p: nat)
    requires Growing(versions)
    ensures var page := Batch(versions, batch, fetch);
            p in MatchingFrom(page, matching, Offset(batch, fetch), |page|)
            <==> p < |Final(versions)| && matching(Final(versions)[p]) && ShownBy(versions, batch, fetch, p)
  {
    var page, from := Batch(versions, batch, fetch), Offset(batch, fetch);
    InMatchingFrom(page, matching, from, |page|, p);
    assert Extends(At(versions, fetch), Final(versions));
    PageInFinal(At(versions, fetch), Final(versions), from, batch);
    assert ShownBy(versions, batch, fetch, p) ==> page[p - from] == Final(versions)[from + (p - from)];
  }

  /** A list of positions that are all among those of another one. */
  ghost predicate PartOf(part: seq<nat>, whole: seq<nat>) {
    Ascending(part) && Ascending(whole) && Elements(part) <= Elements(whole)
  }

  /** In ascending lists, no part runs behind the whole. */
  lemma {:induction false} NotBehind(part: seq<nat>, whole: seq<nat>, i: nat)
    requires Ascending(part) && Ascending(whole) && i < |part|
    requires Elements(part[..i + 1]) <= Elements(whole)
    ensures i < |whole| && whole[i] <= part[i]
  {
    assert part[..i + 1][i] in Elements(part[..i + 1]);
    assert part[i] in Elements(whole);
    var j :| 0 <= j < |whole| && whole[j] == part[i];
    if i > 0 {
      assert part[..i + 1] == part[..i] + [part[i]];
      NotBehind(part, whole, i - 1);
      assert part[i - 1] < part[i];
    }
  }

  lemma PartsPrefix(part: seq<nat>, whole: seq<nat>, i: nat)
    requires PartOf(part, whole) && i < |part|
    ensures Elements(part[..i + 1]) <= Elements(whole)
  {
    assert forall x :: x in part[..i + 1] ==> x in part;
  }

  lemma {:induction false} SameBefore(part: seq<nat>, whole: seq<nat>, j: nat, i: nat)
    requires PartOf(part, whole) && j <= i < |part| && i < |whole| && part[i] == whole[i]
    ensures part[j] == whole[j]
    decreases i - j
  {
    if j < i {
      SameBefore(part, whole, j + 1, i);
      assert part[j] in Elements(whole) by { assert part[j] in Elements(part); }
      var m :| 0 <= m < |whole| && whole[m] == part[j];
      assert part[j] < part[j + 1];
      PartsPrefix(part, whole, j);
      NotBehind(part, whole, j);
    }
  }

  /** Nothing of `whole` up to `bound` is left out of `part`. */
  ghost predicate HasAllUpTo(part: seq<nat>, whole: seq<nat>, bound: int) {
    forall x :: x in Elements(whole) && x <= bound ==> x in Elements(part)
  }

  /** The i-th element of a part is the i-th of the whole exactly when nothing before it is left out. */
  lemma SameUpTo(part: seq<nat>, whole: seq<nat>, i: nat)
    requires PartOf(part, whole) && i < |part|
    ensures i < |whole|
    ensures part[i] == whole[i] <==> HasAllUpTo(part, whole, part[i])
  {
    PartsPrefix(part, whole, i);
    NotBehind(part, whole, i);
    if part[i] == whole[i] {
      forall x | x in Elements(whole) && x <= part[i] ensures x in Elements(part) {
        var j :| 0 <= j < |whole| && whole[j] == x;
        SameBefore(part, whole, j, i);
      }
    }
    if HasAllUpTo(part, whole, part[i]) {
      forall x | x in Elements(whole[..i + 1]) ensures x in Elements(part) {
        var j :| 0 <= j < i + 1 && whole[j] == x;
        assert whole[j] in Elements(whole);
      }
      NotBehind(whole, part, i);
    }
  }

  /** When the windows [skip, end) of a part and of the whole agree. */
  lemma WindowOfPart(part: seq<nat>, whole: seq<nat>, skip: nat, end: nat)
    requires PartOf(part, whole) && skip < end
    ensures Slice(part, skip, end) == Slice(whole, skip, end)
       <==> if |part| >= end then HasAllUpTo(part, whole, part[end - 1])
            else if |part| > skip then Elements(whole) <= Elements(part)
            else |whole| <= skip
  {
    if |part| >= end {
      SameUpTo(part, whole, end - 1);
      FullWindow(part, whole, skip, end);
    } else if |part| > skip {
      ShortWindow(part, whole, skip, end);
    }
  }

  lemma FullWindow(part: seq<nat>, whole: seq<nat>, skip: nat, end: nat)
    requires PartOf(part, whole) && skip < end <= |part| && end <= |whole|
    ensures Slice(part, skip, end) == Slice(whole, skip, end) <==> part[end - 1] == whole[end - 1]
  {
    var last := end - 1 - skip;
    assert Slice(part, skip, end) == part[skip..end] && Slice(whole, skip, end) == whole[skip..end];
    assert part[skip..end][last] == part[end - 1] && whole[skip..end][last] == whole[end - 1];
    if part[end - 1] == whole[end - 1] {
      SameStretch(part, whole, skip, end);
    }
  }

  lemma SameStretch(part: seq<nat>, whole: seq<nat>, skip: nat, end: nat)
    requires PartOf(part, whole) && skip < end <= |part| && end <= |whole| && part[end - 1] == whole[end - 1]
    ensures part[skip..end] == whole[skip..end]
  {
    forall j: nat | skip <= j < end ensures part[j] == whole[j] {
      SameBefore(part, whole, j, end - 1);
    }
  }

  lemma ShortWindow(part: seq<nat>, whole: seq<nat>, skip: nat, end: nat)
    requires PartOf(part, whole) && skip < |part| < end
    ensures Slice(part, skip, end) == Slice(whole, skip, end) <==> Elements(whole) <= Elements(part)
  {
    if Elements(whole) <= Elements(part) {
      AllOfIt(part, whole);
    }
    if Slice(part, skip, end) == Slice(whole, skip, end) {
      LastInWindow(part, whole, skip, end);
      SameStretch(part, whole, 0, |part|);
      assert part[0..|part|] == part && whole[0..|part|] == whole;
    }
  }

  lemma AllOfIt(part: seq<nat>, whole: seq<nat>)
    requires PartOf(part, whole) && Elements(whole) <= Elements(part) && |part| > 0
    ensures part == whole
  {
    var last := |part| - 1;
    assert whole[..|whole|] == whole && part[..|part|] == part;
    NotBehind(part, whole, last);
    NotBehind(whole, part, |whole| - 1);
    assert part[last] <= whole[last] && whole[last] <= part[last];
    SameStretch(part, whole, 0, |part|);
    assert part[0..|part|] == part && whole[0..|part|] == whole;
  }

  lemma LastInWindow(part: seq<nat>, whole: seq<nat>, skip: nat, end: nat)
    requires skip < |part| < end && Slice(part, skip, end) == Slice(whole, skip, end)
    ensures |whole| == |part| && part[|part| - 1] == whole[|part| - 1]
  {
    var last := |part| - 1;
    assert Slice(part, skip, end)[last - skip] == part[last] && Slice(whole, skip, end)[last - skip] == whole[last];
  }

  /** Every matching record of the final collection up to position `bound` has been shown. */
  ghost predicate NoneMissed<T>(versions: Versions<T>, matching: T -> bool, batch: nat, fetches: nat, bound: int) {
    forall p: nat :: p < |Final(versions)| && p <= bound && matching(Final(versions)[p]) ==> Shown(versions, batch, fetches, p)
  }

  /**
   * What a search returns from a growing collection, as positions in the final one, is the requested window
   * of all matching positions exactly when no match before the end of the window was missed: a full window
   * needs this up to its last record, a window cut short needs it for the whole collection, and an empty
   * one means that there are no more than `skip` matches.
   */
  lemma GrowingWindowIff<T>(versions: Versions<T>, matching: T -> bool, batch: nat, fetches: nat, skip: nat, end: nat)
    requires Growing(versions) && skip < end
    ensures var got, all := Positions(versions, matching, batch, fetches),
                            MatchingFrom(Final(versions), matching, 0, |Final(versions)|);
            Slice(got, skip, end) == Slice(all, skip, end)
            <==> if |got| >= end then NoneMissed(versions, matching, batch, fetches, got[end - 1])
                 else if |got| > skip then NoneMissed(versions, matching, batch, fetches, |Final(versions)|)
                 else |Matches(Final(versions), matching)| <= skip
  {
    var final := Final(versions);
    var got, all := Positions(versions, matching, batch, fetches), MatchingFrom(final, matching, 0, |final|);
    PositionsArePart(versions, matching, batch, fetches);
    WindowOfPart(got, all, skip, end);
    if |got| >= end {
      MissedIff(versions, matching, batch, fetches, got[end - 1]);
    } else {
      AllInIff(versions, matching, batch, fetches);
    }
  }

  lemma PositionsArePart<T>(versions: Versions<T>, matching: T -> bool, batch: nat, fetches: nat)
    requires Growing(versions)
    ensures var got, all := Positions(versions, matching, batch, fetches),
                            MatchingFrom(Final(versions), matching, 0, |Final(versions)|);
            PartOf(got, all) && |all| == |Matches(Final(versions), matching)|
  {
    var final := Final(versions);
    var got, all := Positions(versions, matching, batch, fetches), MatchingFrom(final, matching, 0, |final|);
    GrowingStaysInOrder(versions, matching, batch, fetches);
    PagePositions(final, matching, 0, |final|);
    forall p: nat | p in got ensures p in all {
      GatheredIff(versions, matching, batch, fetches, p);
      InMatchingFrom(final, matching, 0, |final|, p);
    }
  }

  lemma MissedIff<T>(versions: Versions<T>, matching: T -> bool, batch: nat, fetches: nat, bound: int)
    requires Growing(versions)
    ensures HasAllUpTo(Positions(versions, matching, batch, fetches),
                       MatchingFrom(Final(versions), matching, 0, |Final(versions)|), bound)
       <==> NoneMissed(versions, matching, batch, fetches, bound)
  {
    var final := Final(versions);
    var got, all := Positions(versions, matching, batch, fetches), MatchingFrom(final, matching, 0, |final|);
    forall p: nat
      ensures p in Elements(all) <==> p < |final| && matching(final[p])
      ensures p in Elements(got) <==> p < |final| && matching(final[p]) && Shown(versions, batch, fetches, p)
    {
      InMatchingFrom(final, matching, 0, |final|, p);
      GatheredIff(versions, matching, batch, fetches, p);
    }
  }

  lemma AllInIff<T>(versions: Versions<T>, matching: T -> bool, batch: nat, fetches: nat)
    requires Growing(versions)
    ensures var got, all := Positions(versions, matching, batch, fetches),
                            MatchingFrom(Final(versions), matching, 0, |Final(versions)|);
            Elements(all) <= Elements(got) <==> NoneMissed(versions, matching, batch, fetches, |Final(versions)|)
  {
    var final := Final(versions);
    var got, all := Positions(versions, matching, batch, fetches), MatchingFrom(final, matching, 0, |final|);
    MissedIff(versions, matching, batch, fetches, |final|);
    forall x | x in Elements(all) ensures x <= |final| {
      InMatchingFrom(final, matching, 0, |final|, x);
    }
  }

  /** The records a search returns are those at the window's positions. */
  lemma ResultAtPositions<T>(versions: Versions<T>, matching: T -> bool, batch: nat, fetches: nat, skip: nat, end: nat)
    requires Growing(versions) && skip <= end
    ensures var result, at := Slice(Gathered(versions, matching, batch, fetches), skip, end),
                              Slice(Positions(versions, matching, batch, fetches), skip, end);
            |result| == |at| && forall i :: 0 <= i < |at| ==> at[i] < |Final(versions)| && result[i] == Final(versions)[at[i]]
  {
    GrowingStaysInOrder(versions, matching, batch, fetches);
  }

  /**
   * Growth does hide records: those appended behind a short page, before the next fetch skips a
   * full page ahead. Here the second of three matching records is never looked at.
   */
  lemma GrowthCanHideRecords(matching: int -> bool)
    requires matching(7) && matching(8) && matching(9)
    ensures Growing(SHORT_THEN_LONG)
    ensures StopsAfter(SHORT_THEN_LONG, matching, 2, 2, 2)
    ensures 8 !in Gathered(SHORT_THEN_LONG, matching, 2, 2) && 8 in Matches(SHORT_THEN_LONG[1], matching)
  {
    OneMatch(7, matching);
    OneMatch(9, matching);
    ExampleBatches();
    TwoBatches(SHORT_THEN_LONG, matching, 2, [7], [9], 2);
    ThreeMatches(matching);
  }

  const SHORT_THEN_LONG: Versions<int> := [[7], [7, 8, 9]]

  lemma ExampleBatches()
    ensures Growing(SHORT_THEN_LONG) && SHORT_THEN_LONG[1] == [7, 8, 9]
    ensures Batch(SHORT_THEN_LONG, 2, 0) == [7] && Batch(SHORT_THEN_LONG, 2, 1) == [9]
  {
  }

  lemma TwoBatches<T>(versions: Versions<T>, matching: T -> bool, batch: nat, first: seq<T>, second: seq<T>, end: int)
    requires Batch(versions, batch, 0) == first && first != [] && Batch(versions, batch, 1) == second
    requires |Matches(first, matching)| < end <= |Matches(first, matching)| + |Matches(second, matching)|
    ensures Gathered(versions, matching, batch, 2) == Matches(first, matching) + Matches(second, matching)
    ensures StopsAfter(versions, matching, batch, end, 2)
  {
    var none: seq<T> := [];
    assert Gathered(versions, matching, batch, 0) == none;
    assert Gathered(versions, matching, batch, 1) == none + Matches(first, matching);
  }

  lemma ThreeMatches(matching: int -> bool)
    requires matching(8)
    ensures 8 in Matches([7, 8, 9], matching)
  {
    var all := [7, 8, 9];
    assert MatchesUpTo(all, matching, 2) == MatchesUpTo(all, matching, 1) + [8];
    MatchesOfPrefix(all, 2, matching);
    assert Matches(all, matching)[|MatchesUpTo(all, matching, 1)|] == 8;
  }

  lemma OneMatch(x: int, matching: int -> bool)
    requires matching(x)
    ensures Matches([x], matching) == [x]
  {
    assert MatchesUpTo([x], matching, 0) == [];
  }
}

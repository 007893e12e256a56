/**
  The anchor history store of `GeospatialController`: what loading does to the
  persisted records (drop those a whole day old or more) and what saving does
  (newest first, at most five). The controller applies these to its
  `_historyCollection.Collection` and to the persisted key.
 */
module HistoryStore {
  import opened ArTypes
  import opened AnchorHistory

  /** `_STORAGE_LIMIT`. */
  const StorageLimit: nat := 5

  const TicksPerDay: nat := 864_000_000_000

  /** `TimeSpan.Days` of a span of ticks: whole days, truncated toward zero. */
  function WholeDays(span: int): int {
    if span >= 0 then span / TicksPerDay else -((-span) / TicksPerDay)
  }

  /** The `RemoveAll` predicate of the load: `current.Subtract(data.CreatedTime).Days > 0`. */
  predicate Expired(now: Ticks, r: StoredRecord) {
    WholeDays(now - CreatedTime(r)) > 0
  }

  /** A record is removed exactly when it is at least 24 hours old. */
  lemma ExpiredIffADayOld(now: Ticks, r: StoredRecord)
    ensures Expired(now, r) <==> now - CreatedTime(r) >= TicksPerDay
  {
  }

  /** A record dated after the load time is never removed. */
  lemma FutureRecordIsKept(now: Ticks, r: StoredRecord)
    requires CreatedTime(r) > now
    ensures !Expired(now, r)
  {
  }

  /** `Collection.RemoveAll(Expired)`. */
  function Pruned(rs: seq<StoredRecord>, now: Ticks): (kept: seq<StoredRecord>)
    ensures |kept| <= |rs|
    decreases |rs|
  {
    if rs == [] then [] else (if Expired(now, rs[0]) then [] else [rs[0]]) + Pruned(rs[1..], now)
  }

  /** Pruning keeps each live record with its multiplicity and drops every expired one. */
  lemma {:induction false} PrunedKeepsLive(rs: seq<StoredRecord>, now: Ticks)
    ensures forall r :: multiset(Pruned(rs, now))[r] == if Expired(now, r) then 0 else multiset(rs)[r]
    ensures forall r :: r in Pruned(rs, now) <==> r in rs && !Expired(now, r)
    decreases |rs|
  {
    if rs != [] {
      PrunedKeepsLive(rs[1..], now);
      assert rs == [rs[0]] + rs[1..];
      forall r ensures r in Pruned(rs, now) <==> r in rs && !Expired(now, r) {
        assert r in Pruned(rs, now) <==> multiset(Pruned(rs, now))[r] > 0;
        assert r in rs <==> multiset(rs)[r] > 0;
      }
    }
  }

  /** Pruning keeps the survivors in their stored order: it distributes over concatenation. */
  lemma {:induction false} PrunedPreservesOrder(a: seq<StoredRecord>, b: seq<StoredRecord>, now: Ticks)
    ensures Pruned(a + b, now) == Pruned(a, now) + Pruned(b, now)
    decreases |a|
  {
    if a != [] {
      assert (a + b)[1..] == a[1..] + b;
      assert (a + b)[0] == a[0];
      PrunedPreservesOrder(a[1..], b, now);
    } else {
      assert a + b == b;
    }
  }

  /** A store with nothing a day old loads unchanged. */
  lemma {:induction false} PrunedFreshIsIdentity(rs: seq<StoredRecord>, now: Ticks)
    requires forall i :: 0 <= i < |rs| ==> !Expired(now, rs[i])
    ensures Pruned(rs, now) == rs
    decreases |rs|
  {
    if rs != [] {
      assert !Expired(now, rs[0]);
      assert forall i :: 0 <= i < |rs[1..]| ==> rs[1..][i] == rs[i + 1];
      PrunedFreshIsIdentity(rs[1..], now);
      assert rs == [rs[0]] + rs[1..];
    }
  }

  /** Sorted by descending key: the order of `right.CreatedTime.CompareTo(left.CreatedTime)`. */
  predicate NewestFirst<T>(rs: seq<T>, key: T -> int) {
    forall i, j :: 0 <= i < j < |rs| ==> key(rs[i]) >= key(rs[j])
  }

  /** Inserts `r` before the first element whose key is strictly smaller. */
  function Insert<T>(r: T, rs: seq<T>, key: T -> int): (out: seq<T>)
    ensures |out| == |rs| + 1
    decreases |rs|
  {
    if rs == [] then [r]
    else if key(r) >= key(rs[0]) then [r] + rs
    else [rs[0]] + Insert(r, rs[1..], key)
  }

  /** Insertion adds exactly `r`. */
  lemma {:induction false} InsertAddsOne<T>(r: T, rs: seq<T>, key: T -> int)
    ensures multiset(Insert(r, rs, key)) == multiset(rs) + multiset{r}
    decreases |rs|
  {
    if rs != [] && key(r) < key(rs[0]) {
      InsertAddsOne(r, rs[1..], key);
      assert rs == [rs[0]] + rs[1..];
    }
  }

  /** Inserting below a bound into a list below that bound stays below it. */
  lemma {:induction false} InsertStaysBelow<T>(r: T, rs: seq<T>, key: T -> int, bound: int)
    requires key(r) <= bound
    requires forall k :: 0 <= k < |rs| ==> key(rs[k]) <= bound
    ensures forall k :: 0 <= k < |Insert(r, rs, key)| ==> key(Insert(r, rs, key)[k]) <= bound
    decreases |rs|
  {
    if rs != [] && key(r) < key(rs[0]) {
      InsertStaysBelow(r, rs[1..], key, bound);
      var tail := Insert(r, rs[1..], key);
      assert forall k :: 1 <= k < |tail| + 1 ==> Insert(r, rs, key)[k] == tail[k - 1];
    }
  }

  /** Insertion into an ordered list keeps it ordered. */
  lemma {:induction false} InsertKeepsOrder<T>(r: T, rs: seq<T>, key: T -> int)
    requires NewestFirst(rs, key)
    ensures NewestFirst(Insert(r, rs, key), key)
    decreases |rs|
  {
    if rs != [] && key(r) < key(rs[0]) {
      var tail := Insert(r, rs[1..], key);
      InsertKeepsOrder(r, rs[1..], key);
      InsertStaysBelow(r, rs[1..], key, key(rs[0]));
      var out := [rs[0]] + tail;
      forall i, j | 0 <= i < j < |out| ensures key(out[i]) >= key(out[j]) {
        assert out[j] == tail[j - 1];
        if i > 0 {
          assert out[i] == tail[i - 1];
        }
      }
    }
  }

  /** `Collection.Sort(...)` by descending key, modelled as a stable insertion sort. */
  function SortNewestFirst<T>(rs: seq<T>, key: T -> int): (sorted: seq<T>)
    ensures |sorted| == |rs|
    decreases |rs|
  {
    if rs == [] then [] else Insert(rs[0], SortNewestFirst(rs[1..], key), key)
  }

  /** The sort yields a permutation of its input, ordered by descending key. */
  lemma {:induction false} SortPermutesAndOrders<T>(rs: seq<T>, key: T -> int)
    ensures multiset(SortNewestFirst(rs, key)) == multiset(rs)
    ensures NewestFirst(SortNewestFirst(rs, key), key)
    decreases |rs|
  {
    if rs != [] {
      var rest := SortNewestFirst(rs[1..], key);
      SortPermutesAndOrders(rs[1..], key);
      InsertAddsOne(rs[0], rest, key);
      InsertKeepsOrder(rs[0], rest, key);
      assert rs == [rs[0]] + rs[1..];
    }
  }

  /** Sorting a list that is already in order leaves it as it is. */
  lemma {:induction false} SortedIsFixpoint<T>(rs: seq<T>, key: T -> int)
    requires NewestFirst(rs, key)
    ensures SortNewestFirst(rs, key) == rs
    decreases |rs|
  {
    if rs != [] {
      SortedIsFixpoint(rs[1..], key);
      if |rs| > 1 {
        assert key(rs[0]) >= key(rs[1..][0]);
      }
      assert rs == [rs[0]] + rs[1..];
    }
  }

  /** The save's sort key. */
  function Created(r: StoredRecord): int {
    CreatedTime(r)
  }

  /** `SaveGeospatialAnchorHistory` on the collection: sort, then `RemoveRange` past the limit. */
  function Saved(rs: seq<StoredRecord>): (kept: seq<StoredRecord>)
    ensures |kept| == if |rs| > StorageLimit then StorageLimit else |rs|
  {
    var sorted := SortNewestFirst(rs, Created);
    if |sorted| > StorageLimit then sorted[..StorageLimit] else sorted
  }

  /** What a save keeps is newest first and drawn from the input. */
  lemma SavedIsNewestFirst(rs: seq<StoredRecord>)
    ensures NewestFirst(Saved(rs), Created)
    ensures multiset(Saved(rs)) <= multiset(rs)
  {
    var sorted := SortNewestFirst(rs, Created);
    SortPermutesAndOrders(rs, Created);
    if |sorted| > StorageLimit {
      assert sorted == sorted[..StorageLimit] + sorted[StorageLimit..];
    }
  }

  /** In a sorted list, nothing after position `n` has a larger key than anything before it. */
  lemma PrefixDominates<T>(sorted: seq<T>, n: nat, key: T -> int)
    requires NewestFirst(sorted, key) && n <= |sorted|
    ensures forall x, y :: x in multiset(sorted[..n]) && y in multiset(sorted[n..]) ==> key(x) >= key(y)
  {
    forall x, y | x in multiset(sorted[..n]) && y in multiset(sorted[n..])
      ensures key(x) >= key(y)
    {
      assert x in sorted[..n] && y in sorted[n..];
      var i :| 0 <= i < n && sorted[..n][i] == x;
      var j :| 0 <= j < |sorted| - n && sorted[n..][j] == y;
      assert sorted[i] == x && sorted[n + j] == y;
    }
  }

  /** The records a save keeps are the newest ones: none it drops is newer than one it keeps. */
  lemma SavedKeepsNewest(rs: seq<StoredRecord>)
    ensures forall x, y :: x in multiset(Saved(rs)) && y in multiset(rs) - multiset(Saved(rs))
              ==> CreatedTime(x) >= CreatedTime(y)
  {
    var sorted := SortNewestFirst(rs, Created);
    var n := |Saved(rs)|;
    SavedSplitsSorted(rs);
    SortPermutesAndOrders(rs, Created);
    PrefixDominates(sorted, n, Created);
    forall x, y | x in multiset(Saved(rs)) && y in multiset(rs) - multiset(Saved(rs))
      ensures CreatedTime(x) >= CreatedTime(y)
    {
      assert x in multiset(sorted[..n]) && y in multiset(sorted[n..]);
      assert Created(x) >= Created(y);
    }
  }

  /** A save keeps a prefix of the sorted list and drops the rest of it. */
  lemma SavedSplitsSorted(rs: seq<StoredRecord>)
    ensures var sorted := SortNewestFirst(rs, Created);
            var n := |Saved(rs)|;
            Saved(rs) == sorted[..n] && multiset(rs) - multiset(Saved(rs)) == multiset(sorted[n..])
  {
    var sorted := SortNewestFirst(rs, Created);
    var n := |Saved(rs)|;
    SortPermutesAndOrders(rs, Created);
    assert sorted == sorted[..n] + sorted[n..];
  }

  /** Saving twice is the same as saving once. */
  lemma SaveIdempotent(rs: seq<StoredRecord>)
    ensures Saved(Saved(rs)) == Saved(rs)
  {
    SavedIsNewestFirst(rs);
    SortedIsFixpoint(Saved(rs), Created);
  }
}

/** The limit on login attempts: ten in fifteen minutes under any one key, forgotten on success. */
module LoginLimiter {
  import opened Lists

  const WINDOW: int := 900_000_000_000
  const MAX_TRIES: nat := 10
  const MAX_KEYS: nat := 4096

  datatype Call = Allow(now: int, keys: seq<string>) | Succeeded(keys: seq<string>)

  /** The times still inside the window. */
  function Recent(times: seq<int>, now: int): (r: seq<int>)
    ensures |r| <= |times|
  {
    if times == [] then []
    else
      var t := times[|times| - 1];
      Recent(times[..|times| - 1], now) + InWindow(t, now)
  }

  function Occurs(keys: seq<string>, k: string): nat {
    if keys == [] then 0 else Occurs(keys[..|keys| - 1], k) + if keys[|keys| - 1] == k then 1 else 0
  }

  function Repeat(t: int, n: nat): (r: seq<int>)
    ensures |r| == n
  {
    if n == 0 then [] else Repeat(t, n - 1) + [t]
  }

  /** Every attempt under k since the last success under it. */
  function Attempts(calls: seq<Call>, k: string): seq<int> {
    if calls == [] then []
    else
      var before, c := Attempts(calls[..|calls| - 1], k), calls[|calls| - 1];
      match c
      case Allow(now, keys) => before + Repeat(now, Occurs(keys, k))
      case Succeeded(keys) => if k in keys then [] else before
  }

  /** How many attempts under k are in the window once a call with these keys is counted. */
  function Load(calls: seq<Call>, keys: seq<string>, k: string, now: int): nat {
    |Recent(Attempts(calls, k), now)| + Occurs(keys, k)
  }

  /** The attempts under k, counting those of a call in progress. */
  function During(calls: seq<Call>, keys: seq<string>, k: string, now: int): seq<int> {
    Attempts(calls, k) + Repeat(now, Occurs(keys, k))
  }

  /** The answer an unpruned record of all calls gives. */
  predicate Permitted(calls: seq<Call>, now: int, keys: seq<string>) {
    forall k :: k in keys ==> Load(calls, keys, k, now) <= MAX_TRIES
  }

  // ---- the window ----

  function InWindow(t: int, now: int): seq<int> { if now - t < WINDOW then [t] else [] }

  /** Kept are exactly the times less than fifteen minutes old, as often as they occur. */
  lemma {:induction false} RecentExactly(times: seq<int>, now: int, x: int)
    ensures multiset(Recent(times, now))[x] == if now - x < 15 * 60 * 1_000_000_000 then multiset(times)[x] else 0
    decreases |times|
  {
    if times != [] {
      RecentExactly(times[..|times| - 1], now, x);
      assert times == times[..|times| - 1] + [times[|times| - 1]];
    }
  }

  /** How often k was tried in the last fifteen minutes, not counting what was before its last success. */
  function Tries(calls: seq<Call>, k: string, now: int): nat {
    if calls == [] then 0
    else
      var before := Tries(calls[..|calls| - 1], k, now);
      match calls[|calls| - 1]
      case Allow(at, keys) => before + if now - at < 15 * 60 * 1_000_000_000 then multiset(keys)[k] else 0
      case Succeeded(keys) => if k in keys then 0 else before
  }

  lemma {:induction false} OccursCounts(keys: seq<string>, k: string)
    ensures Occurs(keys, k) == multiset(keys)[k]
    decreases |keys|
  {
    if keys != [] {
      OccursCounts(keys[..|keys| - 1], k);
      assert keys == keys[..|keys| - 1] + [keys[|keys| - 1]];
    }
  }

  lemma {:induction false} RecentOld(t: int, n: nat, now: int)
    requires now - t >= WINDOW
    ensures Recent(Repeat(t, n), now) == []
    decreases n
  {
    if n > 0 {
      RecentOld(t, n - 1, now);
      assert Repeat(t, n)[..n - 1] == Repeat(t, n - 1);
    }
  }

  lemma {:induction false} TriesAreRecent(calls: seq<Call>, k: string, now: int)
    ensures |Recent(Attempts(calls, k), now)| == Tries(calls, k, now)
    decreases |calls|
  {
    if calls != [] {
      var before, c := calls[..|calls| - 1], calls[|calls| - 1];
      TriesAreRecent(before, k, now);
      if c.Allow? {
        var n := Occurs(c.keys, k);
        OccursCounts(c.keys, k);
        RecentConcat(Attempts(before, k), Repeat(c.now, n), now);
        if now - c.now < WINDOW { RecentRepeat(c.now, n, now); } else { RecentOld(c.now, n, now); }
      }
    }
  }

  /** A call is let through exactly when under none of its keys it makes more than ten tries in fifteen minutes
      since the last success. */
  lemma PermittedExactly(calls: seq<Call>, now: int, keys: seq<string>)
    ensures Permitted(calls, now, keys) <==> forall k :: k in keys ==> Tries(calls, k, now) + multiset(keys)[k] <= 10
  {
    forall k | k in keys ensures Load(calls, keys, k, now) == Tries(calls, k, now) + multiset(keys)[k] {
      TriesAreRecent(calls, k, now);
      OccursCounts(keys, k);
    }
  }

  lemma RecentSnoc(times: seq<int>, t: int, now: int)
    ensures Recent(times + [t], now) == Recent(times, now) + InWindow(t, now)
  {
    assert (times + [t])[..|times|] == times;
  }

  lemma RecentNext(times: seq<int>, i: nat, now: int)
    requires i < |times|
    ensures Recent(times[..i + 1], now) == Recent(times[..i], now) + InWindow(times[i], now)
  {
    assert times[..i + 1] == times[..i] + [times[i]];
    RecentSnoc(times[..i], times[i], now);
  }

  lemma {:induction false} RecentConcat(a: seq<int>, b: seq<int>, now: int)
    ensures Recent(a + b, now) == Recent(a, now) + Recent(b, now)
    decreases |b|
  {
    if b == [] {
      assert a + b == a;
    } else {
      var b', t := b[..|b| - 1], b[|b| - 1];
      RecentConcat(a, b', now);
      assert a + b == a + b' + [t];
      RecentSnoc(a + b', t, now);
      Associative(Recent(a, now), Recent(b', now), InWindow(t, now));
    }
  }

  lemma {:induction false} RecentRepeat(t: int, n: nat, now: int)
    requires now - t < WINDOW
    ensures Recent(Repeat(t, n), now) == Repeat(t, n)
    decreases n
  {
    if n > 0 {
      RecentRepeat(t, n - 1, now);
      assert Repeat(t, n)[..n - 1] == Repeat(t, n - 1);
    }
  }

  /** What has left the window never returns to it. */
  lemma {:induction false} RecentLater(times: seq<int>, earlier: int, now: int)
    requires earlier <= now
    ensures Recent(Recent(times, earlier), now) == Recent(times, now)
    decreases |times|
  {
    if times != [] {
      var times', t := times[..|times| - 1], times[|times| - 1];
      RecentLater(times', earlier, now);
      var kept := Recent(times', earlier);
      if earlier - t < WINDOW {
        assert Recent(times, earlier) == kept + [t];
        RecentSnoc(kept, t, now);
      } else {
        assert Recent(times, earlier) == kept;
      }
    }
  }

  lemma {:induction false} RecentNone(times: seq<int>, now: int)
    requires forall i :: 0 <= i < |times| ==> now - times[i] >= WINDOW
    ensures Recent(times, now) == []
    decreases |times|
  {
    if times != [] { RecentNone(times[..|times| - 1], now); }
  }

  lemma {:induction false} RecentAmong(times: seq<int>, now: int, x: int)
    requires x in Recent(times, now)
    ensures x in times
    decreases |times|
  {
    if x in Recent(times[..|times| - 1], now) { RecentAmong(times[..|times| - 1], now, x); }
  }

  lemma {:induction false} RecentOrdered(times: seq<int>, now: int)
    requires Ordered(times, now)
    ensures Ordered(Recent(times, now), now)
    decreases |times|
  {
    if times != [] {
      var times', t := times[..|times| - 1], times[|times| - 1];
      RecentOrdered(times', now);
      var r := Recent(times', now);
      forall i | 0 <= i < |r| ensures r[i] <= t {
        RecentAmong(times', now, r[i]);
      }
      OrderedSnoc(r, t, now);
    }
  }

  lemma OrderedSnoc(times: seq<int>, t: int, now: int)
    requires Ordered(times, now) && t <= now && forall i :: 0 <= i < |times| ==> times[i] <= t
    ensures Ordered(times + [t], now)
  {
  }

  predicate Ordered(times: seq<int>, now: int) {
    && (forall i, j :: 0 <= i < j < |times| ==> times[i] <= times[j])
    && (forall i :: 0 <= i < |times| ==> times[i] <= now)
  }

  /** Times kept for a key stand for all its attempts: they agree on what is in the window, now and at any
      later time. */
  predicate Tracks(kept: seq<int>, all: seq<int>, now: int) {
    Ordered(kept, now) && Recent(kept, now) == Recent(all, now)
  }

  lemma TracksLater(kept: seq<int>, all: seq<int>, earlier: int, now: int)
    requires Tracks(kept, all, earlier) && earlier <= now
    ensures Tracks(kept, all, now)
  {
    RecentLater(kept, earlier, now);
    RecentLater(all, earlier, now);
  }

  /** One more attempt, compacting what was kept. */
  lemma TracksMore(kept: seq<int>, all: seq<int>, now: int, compacted: seq<int>)
    requires Tracks(kept, all, now) && compacted == Recent(kept, now)
    ensures Tracks(compacted + [now], all + [now], now)
    ensures |compacted| == |Recent(all, now)|
  {
    assert Ordered(compacted + [now], now) by {
      RecentOrdered(kept, now);
      OrderedSnoc(compacted, now, now);
    }
    assert Recent(compacted + [now], now) == Recent(all + [now], now) by {
      RecentLater(kept, now, now);
      RecentSnoc(compacted, now, now);
      RecentSnoc(all, now, now);
    }
  }

  /** Dropping a key whose last attempt has left the window loses nothing. */
  lemma TracksDropped(kept: seq<int>, all: seq<int>, now: int)
    requires Tracks(kept, all, now) && (kept == [] || now - kept[|kept| - 1] >= WINDOW)
    ensures Tracks([], all, now)
  {
    RecentNone(kept, now);
  }

  /** Compaction in place: kept times move down over the ones that left the window, and what is not read
      yet is not overwritten. */
  method Compact(times: array<int>, now: int) returns (kept: nat)
    modifies times
    ensures kept <= times.Length && times[..kept] == Recent(old(times[..]), now)
  {
    kept := 0;
    ghost var was := times[..];
    for i := 0 to times.Length
      invariant kept <= i && forall j :: i <= j < times.Length ==> times[j] == was[j]
      invariant times[..kept] == Recent(was[..i], now)
    {
      var t := times[i];
      RecentNext(was, i, now);
      if now - t < WINDOW {
        ghost var before := times[..kept];
        times[kept] := t;
        assert times[..kept + 1] == before + [t];
        kept := kept + 1;
      }
    }
    assert was[..times.Length] == was;
  }

  method Compacted(times: seq<int>, now: int) returns (r: seq<int>)
    ensures r == Recent(times, now)
  {
    var buf := new int[|times|](i requires 0 <= i < |times| => times[i]);
    assert buf[..] == times;
    var kept := Compact(buf, now);
    r := buf[..kept];
  }

  lemma DuringMore(calls: seq<Call>, done: seq<string>, key: string, k: string, now: int)
    ensures During(calls, done + [key], k, now) == During(calls, done, k, now) + if k == key then [now] else []
  {
    assert (done + [key])[..|done|] == done;
  }

  lemma DuringLoad(calls: seq<Call>, done: seq<string>, key: string, now: int)
    ensures |Recent(During(calls, done, key, now), now)| + 1 == Load(calls, done + [key], key, now)
  {
    assert (done + [key])[..|done|] == done;
    RecentConcat(Attempts(calls, key), Repeat(now, Occurs(done, key)), now);
    RecentRepeat(now, Occurs(done, key), now);
  }

  type Hits = map<string, seq<int>>

  /** Every key has been tried within the window. */
  predicate AllFresh(hits: Hits, now: int) {
    forall k :: k in hits ==> hits[k] != [] && now - hits[k][|hits[k]| - 1] < 15 * 60 * 1_000_000_000
  }

  function Kept(hits: Hits, k: string): seq<int> { if k in hits then hits[k] else [] }

  /** Every key's kept times stand for its attempts, in the middle of a call that has counted these keys. */
  ghost predicate AllTracked(hits: Hits, calls: seq<Call>, keys: seq<string>, now: int) {
    forall k :: Tracks(Kept(hits, k), During(calls, keys, k, now), now)
  }

  /** ... and between calls. */
  ghost predicate Tracked(hits: Hits, calls: seq<Call>, clock: int) {
    forall k :: Tracks(Kept(hits, k), Attempts(calls, k), clock)
  }

  lemma CallBegins(hits: Hits, calls: seq<Call>, clock: int, now: int)
    requires Tracked(hits, calls, clock) && clock <= now
    ensures AllTracked(hits, calls, [], now)
  {
    forall k ensures Tracks(Kept(hits, k), During(calls, [], k, now), now) {
      TracksLater(Kept(hits, k), Attempts(calls, k), clock, now);
      assert During(calls, [], k, now) == Attempts(calls, k);
    }
  }

  lemma CallEnds(hits: Hits, calls: seq<Call>, keys: seq<string>, now: int)
    requires AllTracked(hits, calls, keys, now)
    ensures Tracked(hits, calls + [Allow(now, keys)], now)
  {
    var more := calls + [Allow(now, keys)];
    assert more[..|calls|] == calls;
    forall k ensures Tracks(Kept(hits, k), Attempts(more, k), now) {
      assert Attempts(more, k) == During(calls, keys, k, now);
    }
  }

  /** Counting one key of a call. */
  lemma KeyCounted(hits: Hits, calls: seq<Call>, done: seq<string>, key: string, now: int, compacted: seq<int>)
    requires AllTracked(hits, calls, done, now) && compacted == Recent(Kept(hits, key), now)
    ensures AllTracked(hits[key := compacted + [now]], calls, done + [key], now)
    ensures |compacted| + 1 == Load(calls, done + [key], key, now)
  {
    var hits' := hits[key := compacted + [now]];
    TracksMore(Kept(hits, key), During(calls, done, key, now), now, compacted);
    DuringLoad(calls, done, key, now);
    forall k ensures Tracks(Kept(hits', k), During(calls, done + [key], k, now), now) {
      assert Tracks(Kept(hits, k), During(calls, done, k, now), now);
      DuringMore(calls, done, key, k, now);
      if k != key {
        assert Kept(hits', k) == Kept(hits, k);
        assert During(calls, done, k, now) + [] == During(calls, done, k, now);
      }
    }
  }

  lemma KeyDropped(hits: Hits, calls: seq<Call>, keys: seq<string>, key: string, now: int)
    requires AllTracked(hits, calls, keys, now) && key in hits
    requires hits[key] == [] || now - hits[key][|hits[key]| - 1] >= WINDOW
    ensures AllTracked(hits - {key}, calls, keys, now)
  {
    var hits' := hits - {key};
    assert Tracks(Kept(hits, key), During(calls, keys, key, now), now);
    TracksDropped(hits[key], During(calls, keys, key, now), now);
    forall k ensures Tracks(Kept(hits', k), During(calls, keys, k, now), now) {
      assert Tracks(Kept(hits, k), During(calls, keys, k, now), now);
    }
  }

  /** A success forgets its keys and no others. */
  lemma SuccessForgets(hits: Hits, hits': Hits, calls: seq<Call>, keys: seq<string>, clock: int)
    requires Tracked(hits, calls, clock)
    requires forall k :: Kept(hits', k) == if k in keys then [] else Kept(hits, k)
    ensures Tracked(hits', calls + [Succeeded(keys)], clock)
  {
    var more := calls + [Succeeded(keys)];
    assert more[..|calls|] == calls;
    forall k ensures Tracks(Kept(hits', k), Attempts(more, k), clock) {
      assert Tracks(Kept(hits, k), Attempts(calls, k), clock);
      assert Attempts(more, k) == if k in keys then [] else Attempts(calls, k);
    }
  }

  class Limiter {
    var hits: Hits
    ghost var calls: seq<Call>
    ghost var clock: int

    /** Every key's kept times stand for all its attempts since its last success. */
    ghost predicate Valid()
      reads this
    {
      Tracked(hits, calls, clock)
    }

    constructor (ghost now: int)
      ensures Valid() && calls == [] && clock == now && hits == map[]
    {
      hits, calls, clock := map[], [], now;
    }

    /** Answers as the record of all calls would, whatever was compacted or pruned before. */
    method Allow(now: int, keys: seq<string>) returns (ok: bool)
      requires Valid() && clock <= now
      modifies this
      ensures Valid() && clock == now && calls == old(calls) + [Call.Allow(now, keys)]
      ensures ok <==> Permitted(old(calls), now, keys)
      ensures |hits| > MAX_KEYS ==> AllFresh(hits, now)
    {
      CallBegins(hits, calls, clock, now);
      ok := CountAll(now, keys);
      Bound(now, keys);
    }

    /** Bounds the map where it has grown too large. */
    method Bound(now: int, ghost keys: seq<string>)
      requires AllTracked(hits, calls, keys, now)
      modifies this
      ensures Valid() && clock == now && calls == old(calls) + [Call.Allow(now, keys)]
      ensures |hits| > MAX_KEYS ==> AllFresh(hits, now)
    {
      if |hits| > MAX_KEYS { Prune(now, keys); }
      CallEnds(hits, calls, keys, now);
      calls, clock := calls + [Call.Allow(now, keys)], now;
    }

    method CountAll(now: int, keys: seq<string>) returns (ok: bool)
      requires AllTracked(hits, calls, [], now)
      modifies this`hits
      ensures AllTracked(hits, calls, keys, now)
      ensures ok <==> Permitted(calls, now, keys)
    {
      ok := true;
      for i := 0 to |keys|
        invariant AllTracked(hits, calls, keys[..i], now)
        invariant ok <==> Permitted(calls, now, keys[..i])
      {
        assert keys[..i + 1] == keys[..i] + [keys[i]];
        var fits := CountFits(now, keys[i], keys[..i], ok);
        ok := ok && fits;
      }
      assert keys[..|keys|] == keys;
    }

    method CountFits(now: int, key: string, ghost done: seq<string>, ghost ok: bool) returns (fits: bool)
      requires AllTracked(hits, calls, done, now) && (ok <==> Permitted(calls, now, done))
      modifies this`hits
      ensures AllTracked(hits, calls, done + [key], now)
      ensures ok && fits <==> Permitted(calls, now, done + [key])
    {
      var n := Count(now, key, done);
      PermittedMore(calls, now, done, key, ok, n);
      fits := n <= MAX_TRIES;
    }

    /** Notes one attempt under a key; n is how many are now in its window. */
    method Count(now: int, key: string, ghost done: seq<string>) returns (n: nat)
      requires AllTracked(hits, calls, done, now)
      modifies this`hits
      ensures AllTracked(hits, calls, done + [key], now)
      ensures n == Load(calls, done + [key], key, now)
    {
      var times := Kept(hits, key);
      var kept := Compacted(times, now);
      KeyCounted(hits, calls, done, key, now, kept);
      hits := hits[key := kept + [now]];
      n := |kept| + 1;
    }

    /** Drops the keys whose last attempt has left the window. */
    method Prune(now: int, ghost keys: seq<string>)
      requires AllTracked(hits, calls, keys, now)
      modifies this`hits
      ensures AllTracked(hits, calls, keys, now)
      ensures hits.Keys <= old(hits).Keys
      ensures forall k :: k in hits ==> hits[k] == old(hits)[k] && hits[k] != [] && now - hits[k][|hits[k]| - 1] < WINDOW
    {
      var left := hits.Keys;
      while left != {}
        invariant left <= hits.Keys <= old(hits).Keys && AllTracked(hits, calls, keys, now)
        invariant forall k :: k in hits ==> hits[k] == old(hits)[k]
        invariant forall k :: k in hits && k !in left ==> hits[k] != [] && now - hits[k][|hits[k]| - 1] < WINDOW
        decreases left
      {
        var k :| k in left;
        left := left - {k};
        var v := hits[k];
        if |v| == 0 || now - v[|v| - 1] >= WINDOW {
          KeyDropped(hits, calls, keys, k, now);
          hits := hits - {k};
        }
      }
    }

    method Succeed(keys: seq<string>)
      requires Valid()
      modifies this
      ensures Valid() && clock == old(clock) && calls == old(calls) + [Succeeded(keys)]
    {
      for i := 0 to |keys|
        invariant calls == old(calls) && clock == old(clock)
        invariant forall k :: Kept(hits, k) == if k in keys[..i] then [] else Kept(old(hits), k)
      {
        assert keys[..i + 1] == keys[..i] + [keys[i]];
        hits := hits - {keys[i]};
      }
      assert keys[..|keys|] == keys;
      SuccessForgets(old(hits), hits, calls, keys, clock);
      calls := calls + [Succeeded(keys)];
    }
  }

  /** A key's own load decides when it is added: loads only grow over the keys of one call. */
  lemma PermittedMore(calls: seq<Call>, now: int, done: seq<string>, key: string, ok: bool, n: nat)
    requires ok <==> Permitted(calls, now, done)
    requires n == Load(calls, done + [key], key, now)
    ensures (ok && n <= MAX_TRIES) <==> Permitted(calls, now, done + [key])
  {
    var more := done + [key];
    assert more[..|done|] == done;
    if !ok {
      var k :| k in done && Load(calls, done, k, now) > MAX_TRIES;
      assert k in more && Load(calls, more, k, now) > MAX_TRIES;
    }
    forall k | k in more && k != key ensures k in done && Load(calls, more, k, now) == Load(calls, done, k, now) {
    }
    assert key in more;
  }
}

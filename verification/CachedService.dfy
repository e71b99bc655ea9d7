/** pkg/redis/cache.go: values under keys that expire. Times are milliseconds. */
module RedisCache {
  import opened Prelude

  datatype Entry<V> = Entry(value: V, expires: int)
  type Entries<V> = map<string, Entry<V>>

  datatype Read<V> = Hit(value: V) | Miss | ReadFailed

  /** One reply to SCAN, and whether the DEL that follows it fails; a run of replies that stops short is
      a cancelled context. */
  datatype ScanReply = Batch(keys: seq<string>, next: nat, delFails: bool) | ScanFailed

  function Lookup<V>(entries: Entries<V>, key: string, now: int): Option<V> {
    if key in entries && now < entries[key].expires then Some(entries[key].value) else None
  }

  function Stored<V>(entries: Entries<V>, key: string, value: V, now: int, ttl: int): Entries<V> {
    entries[key := Entry(value, now + ttl)]
  }

  function KeySet(keys: seq<string>): set<string> {
    set k | k in keys
  }

  /** The loop of ScanAndDelete over the replies from the i-th on. */
  function Scanned<V>(entries: Entries<V>, replies: seq<ScanReply>, i: nat): (Entries<V>, bool)
    requires i <= |replies|
    decreases |replies| - i
  {
    if i == |replies| || replies[i].ScanFailed? then (entries, false)
    else if replies[i].keys != [] && replies[i].delFails then (entries, false)
    else
      var kept := entries - KeySet(replies[i].keys);
      if replies[i].next == 0 then (kept, true) else Scanned(kept, replies, i + 1)
  }

  /** The keys that SCAN has returned from the i-th reply on when it ends. */
  function Returned(replies: seq<ScanReply>, i: nat): set<string>
    requires i <= |replies|
    decreases |replies| - i
  {
    if i == |replies| || replies[i].ScanFailed? then {}
    else KeySet(replies[i].keys) + if replies[i].next == 0 then {} else Returned(replies, i + 1)
  }

  /** A completed scan deletes exactly the keys it was shown; one that fails deletes nothing else. */
  lemma {:induction false} ScanDeletesReturned<V>(entries: Entries<V>, replies: seq<ScanReply>, i: nat)
    requires i <= |replies|
    ensures Scanned(entries, replies, i).1 ==> Scanned(entries, replies, i).0 == entries - Returned(replies, i)
    ensures forall k :: k in entries && k !in Returned(replies, i) ==>
              k in Scanned(entries, replies, i).0 && Scanned(entries, replies, i).0[k] == entries[k]
    decreases |replies| - i
  {
    if i < |replies| && replies[i].Batch? && !(replies[i].keys != [] && replies[i].delFails) && replies[i].next != 0 {
      var keys := KeySet(replies[i].keys);
      ScanDeletesReturned(entries - keys, replies, i + 1);
      assert entries - keys - Returned(replies, i + 1) == entries - (keys + Returned(replies, i + 1));
    }
  }

  /** Reply j ends the scan, and every reply from the i-th to it is deleted without an error. */
  ghost predicate EndsAt(replies: seq<ScanReply>, i: nat, j: nat) {
    && i <= j < |replies|
    && forall k :: i <= k <= j ==>
         && replies[k].Batch? && (replies[k].keys == [] || !replies[k].delFails)
         && (replies[k].next == 0 <==> k == j)
  }

  ghost predicate Ends(replies: seq<ScanReply>, i: nat) {
    exists j: nat :: EndsAt(replies, i, j)
  }

  lemma EndsLater(replies: seq<ScanReply>, i: nat)
    requires i < |replies| && replies[i].Batch? && (replies[i].keys == [] || !replies[i].delFails) && replies[i].next != 0
    ensures forall j: nat :: EndsAt(replies, i, j) <==> EndsAt(replies, i + 1, j)
    ensures Ends(replies, i) <==> Ends(replies, i + 1)
  {
    if Ends(replies, i + 1) {
      var later := i + 1;
      var j: nat :| EndsAt(replies, later, j);
      assert EndsAt(replies, i, j);
    }
  }

  /** When a scan completes, and what it leaves: it completes if and only if the replies reach cursor 0
      without an error, and then the entries without every key of every reply up to that one are left. */
  lemma {:induction false} ScanCompletes<V>(entries: Entries<V>, replies: seq<ScanReply>, i: nat)
    requires i <= |replies|
    ensures Scanned(entries, replies, i).1 <==> Ends(replies, i)
    ensures forall j: nat :: EndsAt(replies, i, j) ==>
              forall key :: key in Scanned(entries, replies, i).0
                       <==> key in entries && forall k :: i <= k <= j ==> key !in replies[k].keys
    decreases |replies| - i
  {
    if i < |replies| && replies[i].Batch? && (replies[i].keys == [] || !replies[i].delFails) {
      if replies[i].next == 0 {
        assert EndsAt(replies, i, i);
      } else {
        EndsLater(replies, i);
        ScanCompletes(entries - KeySet(replies[i].keys), replies, i + 1);
      }
    }
  }

  class Cache<V> {
    var entries: Entries<V>

    constructor ()
      ensures entries == map[]
    {
      entries := map[];
    }

    method Get(key: string, now: int, fails: bool) returns (r: Read<V>)
      ensures fails ==> r == ReadFailed
      ensures !fails ==> r == match Lookup(entries, key, now) case Some(v) => Hit(v) case None => Miss
    {
      if fails {
        return ReadFailed;
      }
      var found := Lookup(entries, key, now);
      if found.None? {
        return Miss;
      }
      return Hit(found.value);
    }

    method Set(key: string, value: V, ttl: int, now: int, fails: bool) returns (ok: bool)
      modifies this
      ensures ok <==> !fails
      ensures entries == if fails then old(entries) else Stored(old(entries), key, value, now, ttl)
    {
      if fails {
        return false;
      }
      entries := Stored(entries, key, value, now, ttl);
      return true;
    }

    method Delete(keys: seq<string>, fails: bool) returns (ok: bool)
      modifies this
      ensures ok <==> keys == [] || !fails
      ensures entries == if ok then old(entries) - KeySet(keys) else old(entries)
    {
      if keys == [] {
        assert entries - {} == entries;
        return true;
      }
      if fails {
        return false;
      }
      entries := entries - KeySet(keys);
      return true;
    }

    method ScanAndDelete(replies: seq<ScanReply>) returns (ok: bool)
      modifies this
      ensures (entries, ok) == Scanned(old(entries), replies, 0)
    {
      var i := 0;
      while i < |replies|
        invariant i <= |replies|
        invariant Scanned(entries, replies, i) == Scanned(old(entries), replies, 0)
      {
        if replies[i].ScanFailed? {
          return false;
        }
        if |replies[i].keys| > 0 {
          var deleted := Delete(replies[i].keys, replies[i].delFails);
          if !deleted {
            return false;
          }
        } else {
          assert entries - KeySet(replies[i].keys) == entries;
        }
        if replies[i].next == 0 {
          return true;
        }
        i := i + 1;
      }
      return false;
    }
  }
}

/** internal/service/cached_job_service.go: the cache-aside decorator, one call at a time. */
module CachedService {
  import opened Prelude
  import opened Filters
  import opened RedisCache
  import SearchKey

  datatype Request = SearchRequest(filter: SearchFilter) | JobRequest(id: string) | StatsRequest

  // TTLCacheSearch, TTLCacheJob, TTLCacheStats
  function Ttl(q: Request): (ttl: int)
    ensures ttl > 0
  {
    match q
    case SearchRequest(_) => 60 * 1000
    case JobRequest(_) => 5 * 60 * 1000
    case StatsRequest => 3600 * 1000
  }

  function KeyFor(q: Request, hash: string -> string): string {
    match q
    case SearchRequest(f) => SearchKey.KeyOf(f, hash)
    case JobRequest(id) => SearchKey.JobKey(id)
    case StatsRequest => SearchKey.STATS_KEY
  }

  predicate Distinguishes(hash: string -> string, a: string, b: string) {
    hash(a) == hash(b) ==> a == b
  }

  /** No two of the filters searched for have encodings that SHA-256 maps together. */
  ghost predicate CollisionFree(requests: set<Request>, hash: string -> string) {
    forall p, q :: p in requests && q in requests && p.SearchRequest? && q.SearchRequest? ==>
      Distinguishes(hash, SearchKey.Encode(p.filter), SearchKey.Encode(q.filter))
  }

  /** Different requests never share a key. */
  lemma SameKeySameRequest(requests: set<Request>, hash: string -> string, p: Request, q: Request)
    requires CollisionFree(requests, hash) && p in requests && q in requests && KeyFor(p, hash) == KeyFor(q, hash)
    ensures p == q
  {
    if p.SearchRequest? && q.SearchRequest? {
      SearchKey.SameKeySameFilter(p.filter, q.filter, hash);
    } else if p.JobRequest? && q.JobRequest? {
      SearchKey.JobKeysDiffer(p.id, q.id);
    } else {
      var f := if p.SearchRequest? then p.filter else if q.SearchRequest? then q.filter
               else SearchFilter("", "", "", None, 0, None, 1, 25, "");
      SearchKey.KeySpacesAreDisjoint(f, if p.JobRequest? then p.id else if q.JobRequest? then q.id else "", hash);
    }
  }

  /** What surrounds one call: the time of the lookup and whether Redis fails, the inner answer (None is
      an error), and the time of the write and whether it fails. */
  datatype Io<V> = Io(now: int, getFails: bool, answer: Option<V>, setAt: int, setFails: bool)

  function Served<V>(entries: Entries<V>, q: Request, hash: string -> string, io: Io<V>): (Entries<V>, Option<V>) {
    ServedUnder(entries, KeyFor(q, hash), Ttl(q), io)
  }

  /** The cache after a call that uses the key, and what the caller gets. */
  function ServedUnder<V>(entries: Entries<V>, key: string, ttl: int, io: Io<V>): (Entries<V>, Option<V>) {
    var cached := if io.getFails then None else Lookup(entries, key, io.now);
    if cached.Some? then (entries, cached)
    else if io.answer.None? || io.setFails then (entries, io.answer)
    else (Stored(entries, key, io.answer.value, io.setAt, ttl), io.answer)
  }

  /** The call looks in vain, and has an answer that it manages to write. */
  predicate Fills<V>(entries: Entries<V>, key: string, io: Io<V>) {
    (io.getFails || Lookup(entries, key, io.now).None?) && io.answer.Some? && !io.setFails
  }

  /** The key gives the value until the instant and nothing from then on. */
  ghost predicate KeptUntil<V>(entries: Entries<V>, key: string, value: V, until: int) {
    forall now :: Lookup(entries, key, now) == if now < until then Some(value) else None
  }

  class CachedJobService<V> {
    const cache: Cache<V>
    const hash: string -> string

    constructor (cache: Cache<V>, hash: string -> string)
      ensures this.cache == cache && this.hash == hash
    {
      this.cache, this.hash := cache, hash;
    }

    method Search(f: SearchFilter, io: Io<V>) returns (r: Option<V>)
      modifies cache
      ensures (cache.entries, r) == Served(old(cache.entries), SearchRequest(f), hash, io)
      ensures Fills(old(cache.entries), SearchKey.KeyOf(f, hash), io) ==>
                KeptUntil(cache.entries, SearchKey.KeyOf(f, hash), io.answer.value, io.setAt + 60_000)
    {
      var key := SearchKey.KeyOf(f, hash);
      var cached := cache.Get(key, io.now, io.getFails);
      if cached.Hit? {
        return Some(cached.value);
      }
      if io.answer.None? {
        return None;
      }
      var ok := cache.Set(key, io.answer.value, 60 * 1000, io.setAt, io.setFails);
      return io.answer;
    }

    method GetByID(id: string, io: Io<V>) returns (r: Option<V>)
      modifies cache
      ensures (cache.entries, r) == Served(old(cache.entries), JobRequest(id), hash, io)
      ensures Fills(old(cache.entries), SearchKey.JobKey(id), io) ==>
                KeptUntil(cache.entries, SearchKey.JobKey(id), io.answer.value, io.setAt + 300_000)
    {
      var key := SearchKey.JobKey(id);
      var cached := cache.Get(key, io.now, io.getFails);
      if cached.Hit? {
        return Some(cached.value);
      }
      if io.answer.None? {
        return None;
      }
      var ok := cache.Set(key, io.answer.value, 5 * 60 * 1000, io.setAt, io.setFails);
      return io.answer;
    }

    method GetStats(io: Io<V>) returns (r: Option<V>)
      modifies cache
      ensures (cache.entries, r) == Served(old(cache.entries), StatsRequest, hash, io)
      ensures Fills(old(cache.entries), SearchKey.STATS_KEY, io) ==>
                KeptUntil(cache.entries, SearchKey.STATS_KEY, io.answer.value, io.setAt + 3_600_000)
    {
      var key := SearchKey.STATS_KEY;
      var cached := cache.Get(key, io.now, io.getFails);
      if cached.Hit? {
        return Some(cached.value);
      }
      if io.answer.None? {
        return None;
      }
      var ok := cache.Set(key, io.answer.value, 3600 * 1000, io.setAt, io.setFails);
      return io.answer;
    }

    /** Failures are only logged. When Redis answers and the scan shows every search key that is there
        and no other, what is left is every entry but the searches, this job and the statistics. */
    method Invalidate(id: string, jobFails: bool, replies: seq<ScanReply>, statsFails: bool)
      modifies cache
      ensures var e := if jobFails then old(cache.entries) else old(cache.entries) - {SearchKey.JobKey(id)};
              var s := Scanned(e, replies, 0).0;
              cache.entries == if statsFails then s else s - {SearchKey.STATS_KEY}
      ensures !jobFails && !statsFails && ScansSearches(old(cache.entries), replies) ==>
                cache.entries == map k | k in old(cache.entries) && !SearchKey.IsSearchKey(k)
                                         && k != SearchKey.JobKey(id) && k != SearchKey.STATS_KEY :: old(cache.entries)[k]
    {
      var jobKey := SearchKey.JobKey(id);
      var ok := cache.Delete([jobKey], jobFails);
      assert KeySet([jobKey]) == {jobKey};
      ghost var e := cache.entries;
      ok := cache.ScanAndDelete(replies);
      ok := cache.Delete([SearchKey.STATS_KEY], statsFails);
      assert KeySet([SearchKey.STATS_KEY]) == {SearchKey.STATS_KEY};
      ScanDeletesReturned(e, replies, 0);
      ScanOutcomeIgnoresEntries(e, old(cache.entries), replies, 0);
    }
  }

  /** The SCAN runs to its end and shows exactly the search keys. */
  ghost predicate ScansSearches<V>(entries: Entries<V>, replies: seq<ScanReply>) {
    && Scanned(entries, replies, 0).1
    && forall k :: k in entries ==> (k in Returned(replies, 0) <==> SearchKey.IsSearchKey(k))
  }

  lemma {:induction false} ScanOutcomeIgnoresEntries<V>(a: Entries<V>, b: Entries<V>, replies: seq<ScanReply>, i: nat)
    requires i <= |replies|
    ensures Scanned(a, replies, i).1 == Scanned(b, replies, i).1
    decreases |replies| - i
  {
    if i < |replies| && replies[i].Batch? {
      ScanOutcomeIgnoresEntries(a - KeySet(replies[i].keys), b - KeySet(replies[i].keys), replies, i + 1);
    }
  }
}

/** internal/service/cached_job_service.go under concurrency: any number of readers, store updates,
    invalidations, evictions and Redis failures interleaved. */
module CacheStaleness {
  import opened Prelude
  import opened RedisCache
  import opened CachedService

  /** A state of the store and the instant from which it held. */
  datatype Version<S> = Version(from: int, store: S)

  /** The SQL statements that an uncached answer takes: a search counts and then reads its page, and the
      statistics are five aggregates. */
  function Statements(q: Request): (n: nat)
    ensures n >= 1
  {
    match q
    case SearchRequest(_) => 2
    case JobRequest(_) => 1
    case StatsRequest => 5
  }

  /** `inner` is the decorated service: what it makes of the states that the statements of a request
      read, or an error. */
  datatype World<!S, !V> = World(inner: (seq<S>, Request) -> Option<V>, key: Request -> string, requests: set<Request>, lag: nat)

  ghost predicate Separates(key: Request -> string, requests: set<Request>) {
    forall p, q :: p in requests && q in requests && key(p) == key(q) ==> p == q
  }

  /** A call that missed has read the states `seen`, the first at instant `since`. */
  datatype Phase<S, V> = Reading(seen: seq<S>, since: int) | Answered(reply: V, at: int) | Failed

  datatype Reader<S, V> = Reader(request: Request, phase: Phase<S, V>)

  datatype State<S, V> = State(entries: Entries<V>, now: int, history: seq<Version<S>>, readers: map<nat, Reader<S, V>>)

  datatype Step<S> =
    | Look(at: int, id: nat, request: Request, getFails: bool)  // a new call looks in the cache
    | Ask(at: int, id: nat, fails: bool)                        // it missed, and runs its next statement
    | Fill(at: int, id: nat, written: bool)                     // it has the answer, and fills the cache or fails to
    | Update(at: int, store: S)                                 // the processor or the janitor changes the store
    | Remove(at: int, key: string)                              // Invalidate, ScanAndDelete, expiry or eviction drops a key

  function Current<S, V>(s: State<S, V>): S
    requires s.history != []
  {
    Last(s.history).store
  }

  /** The inner answer of a call whose statements have all run. */
  function Reply<S, V>(w: World<S, V>, r: Reader<S, V>): Option<V> {
    if r.phase.Reading? && |r.phase.seen| == Statements(r.request) then w.inner(r.phase.seen, r.request) else None
  }

  /** Steps follow the clock, and the write follows the first statement within the lag. */
  predicate Enabled<S, V>(w: World<S, V>, s: State<S, V>, step: Step<S>) {
    && step.at >= s.now && s.history != []
    && match step
       case Look(_, id, request, _) => id !in s.readers && request in w.requests
       case Ask(_, id, _) =>
         id in s.readers && s.readers[id].phase.Reading? && |s.readers[id].phase.seen| < Statements(s.readers[id].request)
       case Fill(at, id, _) =>
         id in s.readers && Reply(w, s.readers[id]).Some? && at <= s.readers[id].phase.since + w.lag
       case Update(_, _) => true
       case Remove(_, _) => true
  }

  function Next<S, V>(w: World<S, V>, s: State<S, V>, step: Step<S>): State<S, V>
    requires Enabled(w, s, step)
  {
    match step
    case Look(at, id, request, getFails) =>
      var found := if getFails then None else Lookup(s.entries, w.key(request), at);
      s.(now := at,
         readers := s.readers[id := Reader(request, match found case Some(v) => Answered(v, at) case None => Reading([], at))])
    case Ask(at, id, fails) =>
      var r := s.readers[id];
      var seen, since := r.phase.seen + [Current(s)], if r.phase.seen == [] then at else r.phase.since;
      s.(now := at, readers := s.readers[id := Reader(r.request, if fails then Failed else Reading(seen, since))])
    case Fill(at, id, written) =>
      var r := s.readers[id];
      var v := Reply(w, r).value;
      State(if written then Stored(s.entries, w.key(r.request), v, at, Ttl(r.request)) else s.entries,
            at, s.history, s.readers[id := Reader(r.request, Answered(v, at))])
    case Update(at, store) => s.(now := at, history := s.history + [Version(at, store)])
    case Remove(at, key) => s.(now := at, entries := s.entries - {key})
  }

  function Initial<S, V>(store: S, now: int): State<S, V> {
    State(map[], now, [Version(now, store)], map[])
  }

  ghost predicate Reachable<S(!new), V(!new)>(w: World<S, V>, start: State<S, V>, steps: seq<Step<S>>, s: State<S, V>)
    decreases |steps|
  {
    if steps == [] then s == start
    else exists p :: Reachable(w, start, Front(steps), p) && Enabled(w, p, Last(steps)) && s == Next(w, p, Last(steps))
  }

  lemma Extend<S(!new), V(!new)>(w: World<S, V>, start: State<S, V>, steps: seq<Step<S>>, s: State<S, V>, step: Step<S>)
    requires Reachable(w, start, steps, s) && Enabled(w, s, step)
    ensures Reachable(w, start, steps + [step], Next(w, s, step))
  {
    assert Front(steps + [step]) == steps;
  }

  // ---- A call on its own ----

  function Same<S>(store: S, n: nat): (r: seq<S>)
    ensures |r| == n
  {
    seq(n, i => store)
  }

  /** The next statement of a call, run at once. */
  lemma AskNow<S(!new), V(!new)>(w: World<S, V>, start: State<S, V>, before: seq<Step<S>>, p: State<S, V>, id: nat)
    returns (steps: seq<Step<S>>, s: State<S, V>)
    requires Reachable(w, start, before, p) && Enabled(w, p, Ask(p.now, id, false))
    ensures Reachable(w, start, steps, s)
    ensures var r := p.readers[id];
            var since := if r.phase.seen == [] then p.now else r.phase.since;
            s == p.(readers := p.readers[id := Reader(r.request, Reading(r.phase.seen + [Current(p)], since))])
  {
    Extend(w, start, before, p, Ask(p.now, id, false));
    steps, s := before + [Ask(p.now, id, false)], Next(w, p, Ask(p.now, id, false));
  }

  /** A call's first n statements, run at one instant with nothing in between. */
  lemma {:induction false} AskAll<S(!new), V(!new)>(w: World<S, V>, start: State<S, V>, before: seq<Step<S>>, p: State<S, V>,
          id: nat, q: Request, n: nat) returns (steps: seq<Step<S>>, s: State<S, V>)
    requires Reachable(w, start, before, p) && p.history != [] && n <= Statements(q)
    requires id in p.readers && p.readers[id] == Reader(q, Reading([], p.now))
    ensures Reachable(w, start, steps, s)
    ensures s == p.(readers := p.readers[id := Reader(q, Reading(Same(Current(p), n), p.now))])
  {
    if n == 0 {
      steps, s := before, p;
      assert p.readers == p.readers[id := p.readers[id]];
    } else {
      var b, t := AskAll(w, start, before, p, id, q, n - 1);
      steps, s := AskNow(w, start, b, t, id);
      assert Same(Current(p), n - 1) + [Current(p)] == Same(Current(p), n);
    }
  }

  /** Taken without interruption, a call's steps reach exactly what the methods of the service do. */
  lemma AloneIsServed<S(!new), V(!new)>(w: World<S, V>, p: State<S, V>, id: nat, q: Request, io: Io<V>)
    returns (steps: seq<Step<S>>, s: State<S, V>)
    requires p.history != [] && id !in p.readers && q in w.requests && p.now <= io.now <= io.setAt <= io.now + w.lag
    requires io.answer == w.inner(Same(Current(p), Statements(q)), q)
    ensures Reachable(w, p, steps, s) && id in s.readers
    ensures var served := ServedUnder(p.entries, w.key(q), Ttl(q), io);
            && s.entries == served.0
            && (s.readers[id].phase.Answered? <==> served.1.Some?)
            && (served.1.Some? ==> s.readers[id].phase.reply == served.1.value)
  {
    var look := Look(io.now, id, q, io.getFails);
    Extend(w, p, [], p, look);
    steps, s := [] + [look], Next(w, p, look);
    if s.readers[id].phase.Reading? {
      steps, s := AskAll(w, p, steps, s, id, q, Statements(q));
      if io.answer.Some? {
        var fill := Fill(io.setAt, id, !io.setFails);
        Extend(w, p, steps, s, fill);
        steps, s := steps + [fill], Next(w, s, fill);
      }
    }
  }

  // ---- Bounded staleness ----

  /** The i-th version of the store held at the instant. */
  predicate HeldAt<S>(history: seq<Version<S>>, i: int, at: int) {
    0 <= i < |history| && history[i].from <= at && (i + 1 < |history| ==> at <= history[i + 1].from)
  }

  /** Reads of the given versions one after another, from instant `since` to `until`. */
  ghost predicate Reads<S>(history: seq<Version<S>>, versions: seq<int>, ats: seq<int>, since: int, until: int) {
    && |versions| == |ats|
    && (forall k :: 0 <= k < |ats| ==> since <= ats[k] <= until && HeldAt(history, versions[k], ats[k]))
    && (forall j, k :: 0 <= j < k < |ats| ==> ats[j] <= ats[k])
  }

  /** These states were read one after another between the two instants. */
  ghost predicate SeenBetween<S>(history: seq<Version<S>>, seen: seq<S>, since: int, until: int) {
    exists versions, ats :: Reads(history, versions, ats, since, until) && |versions| == |seen|
      && forall k :: 0 <= k < |seen| ==> seen[k] == history[versions[k]].store
  }

  /** The value is what the inner service answers to the request from states of the store that its
      statements read one after another between the two instants. */
  ghost predicate AnswerBetween<S(!new), V>(w: World<S, V>, history: seq<Version<S>>, q: Request, v: V, since: int, until: int) {
    exists seen :: |seen| == Statements(q) && SeenBetween(history, seen, since, until) && w.inner(seen, q) == Some(v)
  }

  /** What a cache entry holds answered its request no earlier than its expiry less the TTL and the lag. */
  ghost predicate EntryIsRecent<S(!new), V>(w: World<S, V>, s: State<S, V>, q: Request) {
    var key := w.key(q);
    key in s.entries ==>
      AnswerBetween(w, s.history, q, s.entries[key].value, s.entries[key].expires - Ttl(q) - w.lag, s.now)
  }

  ghost predicate ReaderIsRecent<S(!new), V>(w: World<S, V>, s: State<S, V>, r: Reader<S, V>) {
    && r.request in w.requests
    && (r.phase.Reading? ==> r.phase.since <= s.now && SeenBetween(s.history, r.phase.seen, r.phase.since, s.now))
    && (r.phase.Answered? ==>
          r.phase.at <= s.now
          && AnswerBetween(w, s.history, r.request, r.phase.reply, r.phase.at - Ttl(r.request) - w.lag, r.phase.at))
  }

  ghost predicate Recent<S(!new), V>(w: World<S, V>, s: State<S, V>) {
    && s.history != [] && Last(s.history).from <= s.now
    && (forall q :: q in w.requests ==> EntryIsRecent(w, s, q))
    && (forall id :: id in s.readers ==> ReaderIsRecent(w, s, s.readers[id]))
  }

  /** What later versions may be added to a history after an instant. */
  predicate Follows<S>(more: seq<Version<S>>, until: int) {
    more == [] || (|more| == 1 && until <= more[0].from)
  }

  lemma SeenStays<S>(history: seq<Version<S>>, seen: seq<S>, since: int, until: int,
          since': int, until': int, more: seq<Version<S>>)
    requires SeenBetween(history, seen, since, until) && since' <= since && until <= until' && Follows(more, until)
    ensures SeenBetween(history + more, seen, since', until')
  {
    var versions, ats :| Reads(history, versions, ats, since, until) && |versions| == |seen|
                         && forall k :: 0 <= k < |seen| ==> seen[k] == history[versions[k]].store;
    forall k | 0 <= k < |ats|
      ensures HeldAt(history + more, versions[k], ats[k]) && (history + more)[versions[k]] == history[versions[k]]
    {
      assert HeldAt(history, versions[k], ats[k]);
    }
    assert Reads(history + more, versions, ats, since', until');
  }

  lemma AnswerStays<S(!new), V>(w: World<S, V>, history: seq<Version<S>>, q: Request, v: V, since: int, until: int,
          since': int, until': int, more: seq<Version<S>>)
    requires AnswerBetween(w, history, q, v, since, until) && since' <= since && until <= until' && Follows(more, until)
    ensures AnswerBetween(w, history + more, q, v, since', until')
  {
    var seen :| |seen| == Statements(q) && SeenBetween(history, seen, since, until) && w.inner(seen, q) == Some(v);
    SeenStays(history, seen, since, until, since', until', more);
  }

  /** One more statement reads the latest version. */
  lemma SeenGrows<S>(history: seq<Version<S>>, seen: seq<S>, since: int, until: int, at: int)
    requires SeenBetween(history, seen, since, until) && since <= at && until <= at
    requires history != [] && Last(history).from <= at
    ensures SeenBetween(history, seen + [Last(history).store], since, at)
  {
    var versions, ats :| Reads(history, versions, ats, since, until) && |versions| == |seen|
                         && forall k :: 0 <= k < |seen| ==> seen[k] == history[versions[k]].store;
    var versions', ats' := versions + [|history| - 1], ats + [at];
    assert HeldAt(history, |history| - 1, at);
    assert Reads(history, versions', ats', since, at);
  }

  lemma NothingSeen<S>(history: seq<Version<S>>, since: int, until: int)
    ensures SeenBetween(history, [], since, until)
  {
    var none: seq<int> := [];
    assert Reads(history, none, none, since, until);
  }

  /** The versions that a step adds to the history. */
  function NewVersions<S>(step: Step<S>): seq<Version<S>> {
    if step.Update? then [Version(step.at, step.store)] else []
  }

  lemma StepKeepsEntry<S(!new), V>(w: World<S, V>, s: State<S, V>, step: Step<S>, q: Request)
    requires Separates(w.key, w.requests) && Recent(w, s) && Enabled(w, s, step) && q in w.requests
    ensures EntryIsRecent(w, Next(w, s, step), q)
  {
    var t, key := Next(w, s, step), w.key(q);
    assert s.history + [] == s.history;
    if key in t.entries {
      if step.Fill? && step.written && w.key(s.readers[step.id].request) == key {
        var r := s.readers[step.id];
        assert r.request == q && ReaderIsRecent(w, s, r);
        SeenStays(s.history, r.phase.seen, r.phase.since, s.now, step.at - w.lag, step.at, []);
      } else {
        var e := s.entries[key];
        assert EntryIsRecent(w, s, q);
        var since := e.expires - Ttl(q) - w.lag;
        AnswerStays(w, s.history, q, e.value, since, s.now, since, step.at, NewVersions(step));
      }
    }
  }

  lemma StepKeepsReader<S(!new), V>(w: World<S, V>, s: State<S, V>, step: Step<S>, id: nat)
    requires Recent(w, s) && Enabled(w, s, step) && id in Next(w, s, step).readers
    ensures ReaderIsRecent(w, Next(w, s, step), Next(w, s, step).readers[id])
  {
    assert s.history + [] == s.history;
    if step.Look? && step.id == id {
      var q, key := step.request, w.key(step.request);
      assert EntryIsRecent(w, s, q);
      NothingSeen(s.history, step.at, step.at);
      if !step.getFails && Lookup(s.entries, key, step.at).Some? {
        var e := s.entries[key];
        AnswerStays(w, s.history, q, e.value, e.expires - Ttl(q) - w.lag, s.now, step.at - Ttl(q) - w.lag, step.at, []);
      }
    } else {
      var r := s.readers[id];
      assert ReaderIsRecent(w, s, r);
      if step.Ask? && step.id == id {
        NothingSeen(s.history, step.at, s.now);
        SeenGrows(s.history, r.phase.seen, if r.phase.seen == [] then step.at else r.phase.since, s.now, step.at);
      } else if step.Fill? && step.id == id {
        SeenStays(s.history, r.phase.seen, r.phase.since, s.now, step.at - Ttl(r.request) - w.lag, step.at, []);
      } else {
        ReaderStays(w, s, r, Next(w, s, step), NewVersions(step));
      }
    }
  }

  lemma ReplyStays<S(!new), V>(w: World<S, V>, s: State<S, V>, r: Reader<S, V>, t: State<S, V>, more: seq<Version<S>>)
    requires ReaderIsRecent(w, s, r) && s.now <= t.now && t.history == s.history + more && Follows(more, s.now)
    requires r.phase.Answered?
    ensures ReaderIsRecent(w, t, r)
  {
    var since := r.phase.at - Ttl(r.request) - w.lag;
    AnswerStays(w, s.history, r.request, r.phase.reply, since, r.phase.at, since, r.phase.at, more);
  }

  lemma ReaderStays<S(!new), V>(w: World<S, V>, s: State<S, V>, r: Reader<S, V>, t: State<S, V>, more: seq<Version<S>>)
    requires ReaderIsRecent(w, s, r) && s.now <= t.now && t.history == s.history + more && Follows(more, s.now)
    ensures ReaderIsRecent(w, t, r)
  {
    if r.phase.Reading? {
      SeenStays(s.history, r.phase.seen, r.phase.since, s.now, r.phase.since, t.now, more);
    } else if r.phase.Answered? {
      ReplyStays(w, s, r, t, more);
    }
  }

  lemma StepKeepsRecent<S(!new), V>(w: World<S, V>, s: State<S, V>, step: Step<S>)
    requires Separates(w.key, w.requests) && Recent(w, s) && Enabled(w, s, step)
    ensures Recent(w, Next(w, s, step))
  {
    var t := Next(w, s, step);
    forall q | q in w.requests ensures EntryIsRecent(w, t, q) {
      StepKeepsEntry(w, s, step, q);
    }
    forall id | id in t.readers ensures ReaderIsRecent(w, t, t.readers[id]) {
      StepKeepsReader(w, s, step, id);
    }
  }

  lemma {:induction false} ReachableIsRecent<S(!new), V(!new)>(w: World<S, V>, store: S, now: int,
          steps: seq<Step<S>>, s: State<S, V>)
    requires Separates(w.key, w.requests) && Reachable(w, Initial(store, now), steps, s)
    ensures Recent(w, s)
    decreases |steps|
  {
    if steps != [] {
      var p :| Reachable(w, Initial(store, now), Front(steps), p) && Enabled(w, p, Last(steps)) && s == Next(w, p, Last(steps));
      ReachableIsRecent(w, store, now, Front(steps), p);
      StepKeepsRecent(w, p, Last(steps));
    }
  }

  ghost predicate KeysAre(key: Request -> string, requests: set<Request>, hash: string -> string) {
    forall q :: q in requests ==> key(q) == KeyFor(q, hash)
  }

  lemma CollisionFreeSeparates(key: Request -> string, requests: set<Request>, hash: string -> string)
    requires CollisionFree(requests, hash) && KeysAre(key, requests, hash)
    ensures Separates(key, requests)
  {
    forall p, q | p in requests && q in requests && key(p) == key(q) ensures p == q {
      SameKeySameRequest(requests, hash, p, q);
    }
  }

  /** How old a cached answer to a request may be. */
  function MaxAge(q: Request): int {
    match q case SearchRequest(_) => 60_000 case JobRequest(_) => 300_000 case StatsRequest => 3_600_000
  }

  lemma TtlIsMaxAge(q: Request)
    ensures Ttl(q) == MaxAge(q)
  {
  }

  /** Bounded staleness: on any run, what a call answers is what the inner service answers to the same
      request from states of the store read no further back than a minute for a search, five for a job
      and an hour for the statistics, plus the longest delay from a call's first statement to its write. */
  lemma BoundedStaleness<S(!new), V(!new)>(w: World<S, V>, store: S, now: int, steps: seq<Step<S>>, s: State<S, V>, id: nat,
          hash: string -> string)
    requires CollisionFree(w.requests, hash) && KeysAre(w.key, w.requests, hash)
    requires Reachable(w, Initial(store, now), steps, s)
    requires id in s.readers && s.readers[id].phase.Answered?
    ensures var r := s.readers[id];
            AnswerBetween(w, s.history, r.request, r.phase.reply, r.phase.at - MaxAge(r.request) - w.lag, r.phase.at)
  {
    CollisionFreeSeparates(w.key, w.requests, hash);
    ReplyByAge(w, store, now, steps, s, id);
  }

  lemma ReplyByAge<S(!new), V(!new)>(w: World<S, V>, store: S, now: int, steps: seq<Step<S>>, s: State<S, V>, id: nat)
    requires Separates(w.key, w.requests) && Reachable(w, Initial(store, now), steps, s)
    requires id in s.readers && s.readers[id].phase.Answered?
    ensures var r := s.readers[id];
            AnswerBetween(w, s.history, r.request, r.phase.reply, r.phase.at - MaxAge(r.request) - w.lag, r.phase.at)
  {
    TtlIsMaxAge(s.readers[id].request);
    RecentReply(w, store, now, steps, s, id);
  }

  lemma RecentReply<S(!new), V(!new)>(w: World<S, V>, store: S, now: int, steps: seq<Step<S>>, s: State<S, V>, id: nat)
    requires Separates(w.key, w.requests) && Reachable(w, Initial(store, now), steps, s)
    requires id in s.readers && s.readers[id].phase.Answered?
    ensures var r := s.readers[id];
            AnswerBetween(w, s.history, r.request, r.phase.reply, r.phase.at - Ttl(r.request) - w.lag, r.phase.at)
  {
    ReachableIsRecent(w, store, now, steps, s);
    assert ReaderIsRecent(w, s, s.readers[id]);
  }

  // ---- The bound is attained ----

  /** A call reads the old store, and the update and the invalidation come before it fills the cache. */
  lemma ReadBeforeUpdate<S(!new), V(!new)>(w: World<S, V>, q: Request, before: S, after: S)
    returns (steps: seq<Step<S>>, s: State<S, V>)
    requires q in w.requests
    ensures Reachable(w, Initial(before, 0), steps, s)
    ensures s == State(map[], 0, [Version(0, before), Version(0, after)],
                       map[0 := Reader(q, Reading(Same(before, Statements(q)), 0))])
  {
    var start: State<S, V>, key := Initial(before, 0), w.key(q);
    Extend(w, start, [], start, Look(0, 0, q, false));
    steps, s := [] + [Look(0, 0, q, false)], Next(w, start, Look(0, 0, q, false));
    steps, s := AskAll(w, start, steps, s, 0, q, Statements(q));
    Extend(w, start, steps, s, Update(0, after));
    steps, s := steps + [Update(0, after)], Next(w, s, Update(0, after));
    Extend(w, start, steps, s, Remove(0, key));
    steps, s := steps + [Remove(0, key)], Next(w, s, Remove(0, key));
  }

  /** From instant 1 on only the new store is there to be read. */
  lemma ReplacedStoreHoldsNoLonger<S(!new), V>(w: World<S, V>, q: Request, before: S, after: S, v: V, until: int)
    requires w.inner(Same(after, Statements(q)), q) != Some(v)
    ensures !AnswerBetween(w, [Version(0, before), Version(0, after)], q, v, 1, until)
  {
    var history := [Version(0, before), Version(0, after)];
    forall seen | |seen| == Statements(q) && SeenBetween(history, seen, 1, until) ensures seen == Same(after, Statements(q)) {
      var versions, ats :| Reads(history, versions, ats, 1, until) && |versions| == |seen|
                           && forall k :: 0 <= k < |seen| ==> seen[k] == history[versions[k]].store;
      assert forall k :: 0 <= k < |seen| ==> HeldAt(history, versions[k], ats[k]);
    }
  }

  /** A call that has its answer fills the cache, and a new call for the same request is given it. */
  lemma FillAndLook<S(!new), V(!new)>(w: World<S, V>, start: State<S, V>, before: seq<Step<S>>, p: State<S, V>,
          id: nat, fillAt: int, newId: nat, lookAt: int) returns (steps: seq<Step<S>>, s: State<S, V>)
    requires Reachable(w, start, before, p) && Enabled(w, p, Fill(fillAt, id, true))
    requires newId !in p.readers && p.readers[id].request in w.requests
    requires fillAt <= lookAt < fillAt + Ttl(p.readers[id].request)
    ensures Reachable(w, start, steps, s) && s.history == p.history && newId in s.readers
    ensures s.readers[newId] == Reader(p.readers[id].request, Answered(Reply(w, p.readers[id]).value, lookAt))
  {
    var q := p.readers[id].request;
    var fill, look := Fill(fillAt, id, true), Look(lookAt, newId, q, false);
    Extend(w, start, before, p, fill);
    var filled := Next(w, p, fill);
    assert Lookup(filled.entries, w.key(q), lookAt) == Reply(w, p.readers[id]);
    Extend(w, start, before + [fill], filled, look);
    steps, s := before + [fill] + [look], Next(w, filled, look);
  }

  /** An update and an invalidation at instant 0 do not stop a call that read just before them from
      filling the cache up to `lag` later, so a call as late as lag + TTL - 1 is still given the answer
      of the store that was replaced at instant 0. */
  lemma StalenessIsAttained<S(!new), V(!new)>(w: World<S, V>, q: Request, before: S, after: S, v: V)
    returns (steps: seq<Step<S>>, s: State<S, V>)
    requires q in w.requests && w.inner(Same(before, Statements(q)), q) == Some(v)
    requires w.inner(Same(after, Statements(q)), q) != Some(v)
    ensures Reachable(w, Initial(before, 0), steps, s) && 1 in s.readers
    ensures s.history == [Version(0, before), Version(0, after)]
    ensures s.readers[1] == Reader(q, Answered(v, w.lag + Ttl(q) - 1))
    ensures !AnswerBetween(w, s.history, q, v, 1, w.lag + Ttl(q) - 1)
  {
    steps, s := ReadBeforeUpdate(w, q, before, after);
    steps, s := FillAndLook(w, Initial(before, 0), steps, s, 0, w.lag, 1, w.lag + Ttl(q) - 1);
    ReplacedStoreHoldsNoLonger(w, q, before, after, v, w.lag + Ttl(q) - 1);
  }
}

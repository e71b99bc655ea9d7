/** internal/service/cached_job_service.go, Invalidate: exactly when the calls that come after it are
    given answers of the store as it is then or later. */
module Invalidation {
  import opened Prelude
  import opened RedisCache
  import opened CachedService
  import opened CacheStaleness

  // ---- Reads that never go back ----

  ghost predicate Rising(at: seq<int>, n: int) {
    && (forall k :: 0 <= k < |at| ==> 0 <= at[k] < n)
    && (forall j, k :: 0 <= j < k < |at| ==> at[j] <= at[k])
  }

  ghost predicate PickedAt<S>(stores: seq<S>, picks: seq<S>, at: seq<int>) {
    |at| == |picks| && Rising(at, |stores|) && forall k :: 0 <= k < |picks| ==> picks[k] == stores[at[k]]
  }

  /** The picks are states among the stores, in their order, some perhaps repeated. */
  ghost predicate PickedFrom<S>(stores: seq<S>, picks: seq<S>) {
    exists at :: PickedAt(stores, picks, at)
  }

  lemma PickedTwice<S>(a: seq<S>, b: seq<S>, c: seq<S>)
    requires PickedFrom(a, b) && PickedFrom(b, c)
    ensures PickedFrom(a, c)
  {
    var at :| PickedAt(a, b, at);
    var of :| PickedAt(b, c, of);
    assert PickedAt(a, c, seq(|c|, k requires 0 <= k < |c| => at[of[k]]));
  }

  lemma PickedFromLonger<S>(stores: seq<S>, more: seq<S>, picks: seq<S>)
    requires PickedFrom(stores, picks)
    ensures PickedFrom(stores + more, picks)
  {
    var at :| PickedAt(stores, picks, at);
    assert PickedAt(stores + more, picks, at);
  }

  lemma PickLast<S>(stores: seq<S>, picks: seq<S>)
    requires PickedFrom(stores, picks) && stores != []
    ensures PickedFrom(stores, picks + [Last(stores)])
  {
    var at :| PickedAt(stores, picks, at);
    assert PickedAt(stores, picks + [Last(stores)], at + [|stores| - 1]);
  }

  lemma PickFirst<S>(stores: seq<S>, picks: seq<S>)
    requires PickedFrom(stores, picks) && stores != []
    ensures PickedFrom(stores, [stores[0]] + picks)
  {
    var at :| PickedAt(stores, picks, at);
    assert PickedAt(stores, [stores[0]] + picks, [0] + at);
  }

  lemma PickNone<S>(stores: seq<S>)
    ensures PickedFrom(stores, [])
  {
    assert PickedAt(stores, [], []);
  }

  lemma PickRest<S>(first: S, rest: seq<S>)
    ensures PickedFrom([first] + rest, rest)
  {
    assert PickedAt([first] + rest, rest, seq(|rest|, k => k + 1));
  }

  /** The value is the inner service's answer from some of the stores. */
  ghost predicate AnswersFrom<S(!new), V>(w: World<S, V>, stores: seq<S>, q: Request, v: V) {
    exists picks :: |picks| == Statements(q) && PickedFrom(stores, picks) && w.inner(picks, q) == Some(v)
  }

  lemma AnswersFromLonger<S(!new), V>(w: World<S, V>, stores: seq<S>, more: seq<S>, q: Request, v: V)
    requires AnswersFrom(w, stores, q, v)
    ensures AnswersFrom(w, stores + more, q, v)
  {
    var picks :| |picks| == Statements(q) && PickedFrom(stores, picks) && w.inner(picks, q) == Some(v);
    PickedFromLonger(stores, more, picks);
  }

  // ---- What is asked of the calls that come after ----

  /** The stores that have held since the n-th version. */
  function StoresFrom<S>(history: seq<Version<S>>, n: nat): seq<S>
    requires n <= |history|
  {
    seq(|history| - n, i requires 0 <= i < |history| - n => history[n + i].store)
  }

  /** On every continuation, what a call that is new since p answers comes from the store as it was at p
      or became later. */
  ghost predicate Fresh<S(!new), V(!new)>(w: World<S, V>, p: State<S, V>, q: Request)
    requires p.history != []
  {
    forall steps, s, id :: Reachable(w, p, steps, s) && id in s.readers ==> FreshReply(w, p, s, id, q)
  }

  ghost predicate FreshReply<S(!new), V>(w: World<S, V>, p: State<S, V>, s: State<S, V>, id: nat, q: Request)
    requires p.history != [] && id in s.readers
  {
    var r := s.readers[id];
    id !in p.readers && r.request == q && r.phase.Answered? && |p.history| <= |s.history| ==>
      AnswersFrom(w, StoresFrom(s.history, |p.history| - 1), q, r.phase.reply)
  }

  /** A live entry that is not the answer of the current store. */
  ghost predicate StaleEntry<S(!new), V>(w: World<S, V>, p: State<S, V>, q: Request)
    requires p.history != []
  {
    var key := w.key(q);
    key in p.entries && p.now < p.entries[key].expires && !AnswersFrom(w, [Current(p)], q, p.entries[key].value)
  }

  /** What has been read can be completed to an answer that the current and later stores alone do not
      give. */
  ghost predicate Spoils<S(!new), V>(w: World<S, V>, seen: seq<S>, current: S, q: Request) {
    exists rest :: Completes(w, seen, rest, q) && !AnswersFrom(w, [current] + rest, q, w.inner(seen + rest, q).value)
  }

  predicate Completes<S, V>(w: World<S, V>, seen: seq<S>, rest: seq<S>, q: Request) {
    |seen| + |rest| == Statements(q) && w.inner(seen + rest, q).Some?
  }

  /** A call in flight that may still fill the cache in time, with such an answer. */
  ghost predicate Threatens<S(!new), V>(w: World<S, V>, p: State<S, V>, q: Request, r: Reader<S, V>)
    requires p.history != []
  {
    r.request == q && r.phase.Reading? && p.now <= r.phase.since + w.lag && Spoils(w, r.phase.seen, Current(p), q)
  }

  ghost predicate KnownRequests<S, V>(w: World<S, V>, s: State<S, V>) {
    forall id :: id in s.readers ==> s.readers[id].request in w.requests
  }

  /** A call that has read nothing yet is no threat. */
  lemma NothingReadSpoilsNothing<S(!new), V>(w: World<S, V>, current: S, q: Request)
    ensures !Spoils(w, [], current, q)
  {
    forall rest | Completes(w, [], rest, q) ensures AnswersFrom(w, [current] + rest, q, w.inner([] + rest, q).value) {
      assert [] + rest == rest;
      PickRest(current, rest);
    }
  }

  lemma OneAnswer<S(!new), V>(w: World<S, V>, current: S, q: Request, v: V)
    requires Statements(q) == 1
    ensures AnswersFrom(w, [current], q, v) <==> w.inner([current], q) == Some(v)
  {
    forall picks | |picks| == 1 && PickedFrom([current], picks) ensures picks == [current] {
    }
    assert PickedAt([current], [current], [0]);
  }

  /** A request of one statement is spoilt exactly by an answer that is not the current store's. */
  lemma SingleStatementSpoils<S(!new), V>(w: World<S, V>, seen: seq<S>, current: S, q: Request)
    requires Statements(q) == 1
    ensures Spoils(w, seen, current, q)
       <==> |seen| == 1 && w.inner(seen, q).Some? && w.inner(seen, q) != w.inner([current], q)
  {
    if seen == [] {
      NothingReadSpoilsNothing(w, current, q);
    } else {
      assert seen + [] == seen && [current] + [] == [current];
      forall rest | Completes(w, seen, rest, q) ensures rest == [] && |seen| == 1 {
      }
      if |seen| == 1 && w.inner(seen, q).Some? {
        OneAnswer(w, current, q, w.inner(seen, q).value);
        assert Completes(w, seen, [], q);
      }
    }
  }

  // ---- Without a stale entry or a threat, every later answer is fresh ----

  /** What a call had read at p. */
  function Before<S, V>(p: State<S, V>, id: nat): seq<S> {
    if id in p.readers && p.readers[id].phase.Reading? then p.readers[id].phase.seen else []
  }

  /** The call has read on from what it had read at p, from the stores since then. */
  ghost predicate ReadsOn<S(!new), V>(p: State<S, V>, stores: seq<S>, id: nat, r: Reader<S, V>)
    requires r.phase.Reading?
  {
    && (id in p.readers ==> p.readers[id].request == r.request && p.readers[id].phase.Reading?)
    && (Before(p, id) != [] ==> r.phase.since == p.readers[id].phase.since)
    && exists rest :: PickedFrom(stores, rest) && r.phase.seen == Before(p, id) + rest
  }

  ghost predicate CleanReader<S(!new), V>(w: World<S, V>, p: State<S, V>, stores: seq<S>, q: Request, id: nat, r: Reader<S, V>) {
    r.request == q ==>
      && (r.phase.Reading? ==> ReadsOn(p, stores, id, r))
      && (r.phase.Answered? && id !in p.readers ==> AnswersFrom(w, stores, q, r.phase.reply))
  }

  ghost predicate CleanEntry<S(!new), V>(w: World<S, V>, stores: seq<S>, q: Request, t: State<S, V>) {
    var key := w.key(q);
    key in t.entries && t.now < t.entries[key].expires ==> AnswersFrom(w, stores, q, t.entries[key].value)
  }

  ghost predicate Clean<S(!new), V>(w: World<S, V>, p: State<S, V>, q: Request, t: State<S, V>)
    requires p.history != []
  {
    && p.history <= t.history && p.now <= t.now && p.readers.Keys <= t.readers.Keys && KnownRequests(w, t)
    && CleanEntry(w, StoresFrom(t.history, |p.history| - 1), q, t)
    && forall id :: id in t.readers ==> CleanReader(w, p, StoresFrom(t.history, |p.history| - 1), q, id, t.readers[id])
  }

  ghost predicate Unthreatened<S(!new), V>(w: World<S, V>, p: State<S, V>, q: Request)
    requires p.history != []
  {
    forall id :: id in p.readers ==> !Threatens(w, p, q, p.readers[id])
  }

  /** A call that may fill the cache in time answers from the stores since p. */
  lemma ReplyIsClean<S(!new), V>(w: World<S, V>, p: State<S, V>, q: Request, stores: seq<S>, id: nat, r: Reader<S, V>)
    requires p.history != [] && Unthreatened(w, p, q) && stores != [] && stores[0] == Current(p)
    requires r.request == q && Reply(w, r).Some? && p.now <= r.phase.since + w.lag && ReadsOn(p, stores, id, r)
    ensures AnswersFrom(w, stores, q, Reply(w, r).value)
  {
    var before, v := Before(p, id), Reply(w, r).value;
    var rest :| PickedFrom(stores, rest) && r.phase.seen == before + rest;
    if before == [] {
      assert r.phase.seen == rest;
    } else {
      assert !Threatens(w, p, q, p.readers[id]);
      assert Completes(w, before, rest, q);
      var picks :| |picks| == Statements(q) && PickedFrom([stores[0]] + rest, picks) && w.inner(picks, q) == Some(v);
      PickFirst(stores, rest);
      PickedTwice(stores, [stores[0]] + rest, picks);
    }
  }

  /** A call that the step leaves alone, when the step adds stores. */
  lemma CleanReaderStays<S(!new), V>(w: World<S, V>, p: State<S, V>, stores: seq<S>, more: seq<S>, q: Request,
          id: nat, r: Reader<S, V>)
    requires CleanReader(w, p, stores, q, id, r)
    ensures CleanReader(w, p, stores + more, q, id, r)
  {
    if r.request == q {
      if r.phase.Reading? {
        var rest :| PickedFrom(stores, rest) && r.phase.seen == Before(p, id) + rest;
        PickedFromLonger(stores, more, rest);
      } else if r.phase.Answered? && id !in p.readers {
        AnswersFromLonger(w, stores, more, q, r.phase.reply);
      }
    }
  }

  /** The call whose statement the step runs. */
  lemma CleanAsk<S(!new), V>(w: World<S, V>, p: State<S, V>, stores: seq<S>, q: Request, id: nat, r: Reader<S, V>, since: int)
    requires CleanReader(w, p, stores, q, id, r) && r.phase.Reading? && stores != []
    requires r.phase.seen != [] ==> since == r.phase.since
    ensures CleanReader(w, p, stores, q, id, Reader(r.request, Reading(r.phase.seen + [Last(stores)], since)))
  {
    if r.request == q {
      var rest :| PickedFrom(stores, rest) && r.phase.seen == Before(p, id) + rest;
      PickLast(stores, rest);
      assert r.phase.seen + [Last(stores)] == Before(p, id) + (rest + [Last(stores)]);
    }
  }

  lemma CleanLook<S(!new), V>(w: World<S, V>, p: State<S, V>, stores: seq<S>, q: Request, id: nat, r: Reader<S, V>)
    requires id !in p.readers && (r.phase.Reading? ==> r.phase.seen == [])
    requires r.phase.Answered? && r.request == q ==> AnswersFrom(w, stores, q, r.phase.reply)
    ensures CleanReader(w, p, stores, q, id, r)
  {
    PickNone(stores);
  }

  lemma StepStores<S, V>(w: World<S, V>, p: State<S, V>, t: State<S, V>, step: Step<S>)
    requires p.history != [] && p.history <= t.history && Enabled(w, t, step)
    ensures p.history <= Next(w, t, step).history
    ensures StoresFrom(Next(w, t, step).history, |p.history| - 1)
         == StoresFrom(t.history, |p.history| - 1) + (if step.Update? then [step.store] else [])
    ensures StoresFrom(t.history, |p.history| - 1) != []
    ensures StoresFrom(t.history, |p.history| - 1)[0] == Current(p) && Last(StoresFrom(t.history, |p.history| - 1)) == Current(t)
  {
  }

  lemma StepKeepsCleanReader<S(!new), V>(w: World<S, V>, p: State<S, V>, q: Request, t: State<S, V>, step: Step<S>, id: nat)
    requires p.history != [] && Unthreatened(w, p, q) && Clean(w, p, q, t) && Enabled(w, t, step)
    requires id in Next(w, t, step).readers
    ensures CleanReader(w, p, StoresFrom(Next(w, t, step).history, |p.history| - 1), q, id, Next(w, t, step).readers[id])
  {
    var stores := StoresFrom(t.history, |p.history| - 1);
    var more := if step.Update? then [step.store] else [];
    StepStores(w, p, t, step);
    assert stores + [] == stores;
    var r := Next(w, t, step).readers[id];
    if step.Look? && step.id == id {
      CleanLook(w, p, stores, q, id, r);
    } else {
      assert CleanReader(w, p, stores, q, id, t.readers[id]);
      if step.Ask? && step.id == id {
        if !step.fails {
          CleanAsk(w, p, stores, q, id, t.readers[id], r.phase.since);
        }
      } else if step.Fill? && step.id == id {
        if r.request == q { ReplyIsClean(w, p, q, stores, id, t.readers[id]); }
      } else {
        CleanReaderStays(w, p, stores, more, q, id, t.readers[id]);
      }
    }
  }

  lemma StepKeepsCleanEntry<S(!new), V>(w: World<S, V>, p: State<S, V>, q: Request, t: State<S, V>, step: Step<S>)
    requires p.history != [] && Unthreatened(w, p, q) && Clean(w, p, q, t) && Enabled(w, t, step)
    requires Separates(w.key, w.requests) && q in w.requests
    ensures CleanEntry(w, StoresFrom(Next(w, t, step).history, |p.history| - 1), q, Next(w, t, step))
  {
    var stores := StoresFrom(t.history, |p.history| - 1);
    StepStores(w, p, t, step);
    assert stores + [] == stores;
    if step.Fill? && step.written && w.key(t.readers[step.id].request) == w.key(q) {
      assert t.readers[step.id].request == q;
      assert CleanReader(w, p, stores, q, step.id, t.readers[step.id]);
      ReplyIsClean(w, p, q, stores, step.id, t.readers[step.id]);
    } else if w.key(q) in t.entries && t.now < t.entries[w.key(q)].expires {
      AnswersFromLonger(w, stores, if step.Update? then [step.store] else [], q, t.entries[w.key(q)].value);
    }
  }

  lemma StepKeepsClean<S(!new), V>(w: World<S, V>, p: State<S, V>, q: Request, t: State<S, V>, step: Step<S>)
    requires p.history != [] && Unthreatened(w, p, q) && Clean(w, p, q, t) && Enabled(w, t, step)
    requires Separates(w.key, w.requests) && q in w.requests
    ensures Clean(w, p, q, Next(w, t, step))
  {
    var u := Next(w, t, step);
    StepStores(w, p, t, step);
    StepKeepsCleanEntry(w, p, q, t, step);
    forall id | id in u.readers ensures CleanReader(w, p, StoresFrom(u.history, |p.history| - 1), q, id, u.readers[id]) {
      StepKeepsCleanReader(w, p, q, t, step, id);
    }
  }

  lemma {:induction false} ReachableIsClean<S(!new), V(!new)>(w: World<S, V>, p: State<S, V>, q: Request,
          steps: seq<Step<S>>, t: State<S, V>)
    requires p.history != [] && KnownRequests(w, p) && Separates(w.key, w.requests) && q in w.requests
    requires !StaleEntry(w, p, q) && Unthreatened(w, p, q) && Reachable(w, p, steps, t)
    ensures Clean(w, p, q, t)
    decreases |steps|
  {
    if steps == [] {
      StartIsClean(w, p, q);
    } else {
      var u :| Reachable(w, p, Front(steps), u) && Enabled(w, u, Last(steps)) && t == Next(w, u, Last(steps));
      ReachableIsClean(w, p, q, Front(steps), u);
      StepKeepsClean(w, p, q, u, Last(steps));
    }
  }

  lemma StartIsClean<S(!new), V>(w: World<S, V>, p: State<S, V>, q: Request)
    requires p.history != [] && KnownRequests(w, p) && !StaleEntry(w, p, q)
    ensures Clean(w, p, q, p)
  {
    assert StoresFrom(p.history, |p.history| - 1) == [Current(p)];
    PickNone([Current(p)]);
    forall id | id in p.readers ensures CleanReader(w, p, [Current(p)], q, id, p.readers[id]) {
      if p.readers[id].phase.Reading? {
        assert p.readers[id].phase.seen == Before(p, id) + [];
      }
    }
  }

  // ---- A stale entry or a threat comes true ----

  lemma {:induction false} UnusedId(ids: set<nat>) returns (id: nat)
    ensures forall i :: i in ids ==> i < id
  {
    if ids == {} {
      id := 0;
      assert forall i :: i !in ids;
    } else {
      var some :| some in ids;
      var above := UnusedId(ids - {some});
      id := if some < above then above else some + 1;
      assert forall i :: i in ids ==> i == some || i in ids - {some};
    }
  }

  function Versions<S>(at: int, stores: seq<S>): (r: seq<Version<S>>)
    ensures |r| == |stores|
  {
    seq(|stores|, i requires 0 <= i < |stores| => Version(at, stores[i]))
  }

  /** The state when the call has read the given stores one after another, each just put there. */
  function ReadingOn<S, V>(p: State<S, V>, id: nat, rest: seq<S>): State<S, V>
    requires id in p.readers && p.readers[id].phase.Reading?
  {
    var r := p.readers[id];
    p.(history := p.history + Versions(p.now, rest),
       readers := p.readers[id := Reader(r.request, Reading(r.phase.seen + rest, r.phase.since))])
  }

  lemma ReadNext<S(!new), V(!new)>(w: World<S, V>, start: State<S, V>, before: seq<Step<S>>, p: State<S, V>, id: nat, store: S)
    returns (steps: seq<Step<S>>, s: State<S, V>)
    requires p.history != [] && id in p.readers && p.readers[id].phase.Reading? && p.readers[id].phase.seen != []
    requires |p.readers[id].phase.seen| < Statements(p.readers[id].request) && Reachable(w, start, before, p)
    ensures Reachable(w, start, steps, s) && s == ReadingOn(p, id, [store])
  {
    var update := Update(p.now, store);
    Extend(w, start, before, p, update);
    steps, s := AskNow(w, start, before + [update], Next(w, p, update), id);
  }

  lemma {:induction false} ReadRest<S(!new), V(!new)>(w: World<S, V>, p: State<S, V>, id: nat, rest: seq<S>)
    returns (steps: seq<Step<S>>, s: State<S, V>)
    requires p.history != [] && id in p.readers && p.readers[id].phase.Reading? && p.readers[id].phase.seen != []
    requires |p.readers[id].phase.seen| + |rest| <= Statements(p.readers[id].request)
    ensures Reachable(w, p, steps, s) && s == ReadingOn(p, id, rest)
    decreases |rest|
  {
    var r := p.readers[id];
    if rest == [] {
      steps, s := [], p;
      assert p.history + Versions(p.now, []) == p.history && r.phase.seen + [] == r.phase.seen;
      assert p.readers[id := r] == p.readers;
    } else {
      var before, t := ReadRest(w, p, id, Front(rest));
      steps, s := ReadNext(w, p, before, t, id, Last(rest));
      ReadingOnTwice(p, id, rest);
    }
  }

  lemma ReadingOnTwice<S, V>(p: State<S, V>, id: nat, rest: seq<S>)
    requires id in p.readers && p.readers[id].phase.Reading? && rest != []
    ensures ReadingOn(ReadingOn(p, id, Front(rest)), id, [Last(rest)]) == ReadingOn(p, id, rest)
  {
    var seen := p.readers[id].phase.seen;
    assert seen + Front(rest) + [Last(rest)] == seen + rest;
    assert p.history + Versions(p.now, Front(rest)) + Versions(p.now, [Last(rest)]) == p.history + Versions(p.now, rest);
  }

  lemma StoresReadOn<S, V>(p: State<S, V>, id: nat, rest: seq<S>)
    requires p.history != [] && id in p.readers && p.readers[id].phase.Reading?
    ensures StoresFrom(ReadingOn(p, id, rest).history, |p.history| - 1) == [Current(p)] + rest
  {
  }

  /** A call that has read on and now fills the cache passes its answer on to a new call. */
  lemma ReadOnIsPassedOn<S(!new), V(!new)>(w: World<S, V>, p: State<S, V>, id: nat, rest: seq<S>, newId: nat)
    returns (steps: seq<Step<S>>, s: State<S, V>)
    requires p.history != [] && id in p.readers && p.readers[id].request in w.requests && newId !in p.readers
    requires p.readers[id].phase.Reading? && p.readers[id].phase.seen != [] && p.now <= p.readers[id].phase.since + w.lag
    requires Completes(w, p.readers[id].phase.seen, rest, p.readers[id].request)
    ensures Reachable(w, p, steps, s) && s.history == ReadingOn(p, id, rest).history && newId in s.readers
    ensures var q := p.readers[id].request;
            s.readers[newId] == Reader(q, Answered(w.inner(p.readers[id].phase.seen + rest, q).value, p.now))
  {
    var before, t := ReadRest(w, p, id, rest);
    assert Reply(w, t.readers[id]) == w.inner(p.readers[id].phase.seen + rest, p.readers[id].request);
    steps, s := FillAndLook(w, p, before, t, id, p.now, newId, p.now);
  }

  lemma ThreatComesTrue<S(!new), V(!new)>(w: World<S, V>, p: State<S, V>, q: Request, id: nat)
    requires p.history != [] && q in w.requests && id in p.readers && Threatens(w, p, q, p.readers[id])
    ensures !Fresh(w, p, q)
  {
    var seen := p.readers[id].phase.seen;
    var rest :| Completes(w, seen, rest, q) && !AnswersFrom(w, [Current(p)] + rest, q, w.inner(seen + rest, q).value);
    if seen == [] { NothingReadSpoilsNothing(w, Current(p), q); }
    var newId := UnusedId(p.readers.Keys);
    var steps, s := ReadOnIsPassedOn(w, p, id, rest, newId);
    StoresReadOn(p, id, rest);
    assert !FreshReply(w, p, s, newId, q);
  }

  lemma StaleEntryIsServed<S(!new), V(!new)>(w: World<S, V>, p: State<S, V>, q: Request)
    requires p.history != [] && q in w.requests && StaleEntry(w, p, q)
    ensures !Fresh(w, p, q)
  {
    var newId := UnusedId(p.readers.Keys);
    var look := Look(p.now, newId, q, false);
    Extend(w, p, [], p, look);
    var s := Next(w, p, look);
    assert Reachable(w, p, [] + [look], s);
    assert StoresFrom(s.history, |p.history| - 1) == [Current(p)];
    assert !FreshReply(w, p, s, newId, q);
  }

  // ---- The exact condition ----

  /** From a state on, every new call for a request is given an answer of the store as it is there or
      becomes later, if and only if there is no live entry with another answer and no call in flight
      that may still fill the cache in time with one. */
  lemma FreshFromHereOn<S(!new), V(!new)>(w: World<S, V>, p: State<S, V>, q: Request)
    requires p.history != [] && KnownRequests(w, p) && Separates(w.key, w.requests) && q in w.requests
    ensures Fresh(w, p, q) <==> !StaleEntry(w, p, q) && Unthreatened(w, p, q)
  {
    if StaleEntry(w, p, q) {
      StaleEntryIsServed(w, p, q);
    } else if !Unthreatened(w, p, q) {
      var id :| id in p.readers && Threatens(w, p, q, p.readers[id]);
      ThreatComesTrue(w, p, q, id);
    } else {
      forall steps, s, id | Reachable(w, p, steps, s) && id in s.readers ensures FreshReply(w, p, s, id, q) {
        ReachableIsClean(w, p, q, steps, s);
        assert CleanReader(w, p, StoresFrom(s.history, |p.history| - 1), q, id, s.readers[id]);
      }
    }
  }

  /** Invalidation works exactly when no call for the request is in flight that read the store before a
      change that mattered and may still fill the cache in time. */
  lemma InvalidationIsExact<S(!new), V(!new)>(w: World<S, V>, s: State<S, V>, at: int, q: Request)
    requires Enabled(w, s, Remove(at, w.key(q))) && KnownRequests(w, s) && Separates(w.key, w.requests) && q in w.requests
    ensures var p := Next(w, s, Remove(at, w.key(q))); Fresh(w, p, q) <==> Unthreatened(w, p, q)
  {
    FreshFromHereOn(w, Next(w, s, Remove(at, w.key(q))), q);
  }
}

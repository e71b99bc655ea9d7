/** The sorted-set commands of Redis that the sliding-window limiter uses, on one key.
    A key that holds no members does not exist and carries no expiry. */
module RedisSortedSet {
  import opened Prelude

  datatype ZKey = ZKey(members: map<string, int>, expireAt: Option<int>)

  const ABSENT := ZKey(map[], None)

  /** The key as the server sees it at time `at`: gone once its expiry has passed. */
  function Live(z: ZKey, at: int): ZKey {
    if z.expireAt.Some? && at >= z.expireAt.value then ABSENT else z
  }

  function ZRemRangeByScore(z: ZKey, at: int, lo: int, hi: int): ZKey {
    var l := Live(z, at);
    var kept := map m | m in l.members && !(lo <= l.members[m] <= hi) :: l.members[m];
    if kept == map[] then ABSENT else ZKey(kept, l.expireAt)
  }

  function ZCard(z: ZKey, at: int): nat {
    |Live(z, at).members|
  }

  function ZAdd(z: ZKey, at: int, member: string, score: int): ZKey {
    var l := Live(z, at);
    ZKey(l.members[member := score], l.expireAt)
  }

  function Expire(z: ZKey, at: int, ttl: int): ZKey {
    var l := Live(z, at);
    if l.members == map[] || ttl <= 0 then ABSENT else ZKey(l.members, Some(at + ttl))
  }

  /** The commands of a pipeline. ZCARD only reports, so it leaves the key as Live shows it. */
  datatype Command = Prune(lo: int, hi: int) | Card | Add(member: string, score: int) | SetExpiry(ttl: int)

  function Execute(z: ZKey, at: int, command: Command): ZKey {
    match command
    case Prune(lo, hi) => ZRemRangeByScore(z, at, lo, hi)
    case Card => Live(z, at)
    case Add(member, score) => ZAdd(z, at, member, score)
    case SetExpiry(ttl) => Expire(z, at, ttl)
  }

  /** The key after the first n of the commands. */
  function ExecuteAll(z: ZKey, at: int, commands: seq<Command>, n: nat): ZKey
    requires n <= |commands|
  {
    if n == 0 then z else Execute(ExecuteAll(z, at, commands, n - 1), at, commands[n - 1])
  }
}

/** pkg/redis/rate_limiter.go: the sliding-window log, and the crawler's polling caller. */
module RateLimiter {
  import opened Prelude
  import opened RedisSortedSet
  import Decimal
  import Strings

  // Times are Unix milliseconds; one second of slack is added to the window for the key's expiry.
  const BUFFER := 1000

  /** One call of Allow: the stamp the client reads, the member it records, and the server time at
      which the pipeline executes. */
  datatype Call = Call(now: int, member: string, at: int)

  /** The sorted-set member for a stamp and a nanosecond reading: "<ms>.<nanos mod 10^6>". */
  function MemberName(now: nat, nanos: nat): string {
    Decimal.PrintNat(now) + "." + Decimal.PrintNat(nanos % 1_000_000)
  }

  /** The four commands of a call, in order. */
  function Commands(window: int, c: Call): seq<Command> {
    [Prune(0, c.now - window - 1), Card, Add(c.member, c.now), SetExpiry(window + BUFFER)]
  }

  /** The key after a call's pipeline. */
  function Pipeline(z: ZKey, window: int, c: Call): ZKey {
    ExecuteAll(z, c.at, Commands(window, c), 4)
  }

  /** The cardinality a call's pipeline reports, after its prune and before its add. */
  function Counted(z: ZKey, window: int, c: Call): nat {
    ZCard(ZRemRangeByScore(z, c.at, 0, c.now - window - 1), c.at)
  }

  lemma PipelineSteps(z: ZKey, window: int, c: Call)
    ensures var pruned := ZRemRangeByScore(z, c.at, 0, c.now - window - 1);
            Pipeline(z, window, c) == Expire(ZAdd(Live(pruned, c.at), c.at, c.member, c.now), c.at, window + BUFFER)
  {
    var commands := Commands(window, c);
    var pruned := Execute(z, c.at, commands[0]);
    assert ExecuteAll(z, c.at, commands, 1) == pruned;
    assert ExecuteAll(z, c.at, commands, 2) == Live(pruned, c.at);
    assert ExecuteAll(z, c.at, commands, 3) == ZAdd(Live(pruned, c.at), c.at, c.member, c.now);
  }

  // Below, `calls` are the atomic, error-free calls on one key in the order Redis executes them,
  // starting from an absent key; call k finds the state left by calls 0..k-1.

  /** The key after the first n calls. */
  function KeyAfter(window: int, calls: seq<Call>, n: nat): ZKey
    requires n <= |calls|
  {
    if n == 0 then ABSENT else Pipeline(KeyAfter(window, calls, n - 1), window, calls[n - 1])
  }

  /** Whether Allow admits call k. */
  predicate Admits(limit: int, window: int, calls: seq<Call>, k: nat)
    requires k < |calls|
  {
    Counted(KeyAfter(window, calls, k), window, calls[k]) < limit
  }

  /** The full history: every attempt of the first n, admitted or denied, with nothing pruned. */
  function Log(calls: seq<Call>, n: nat): map<string, int>
    requires n <= |calls|
  {
    if n == 0 then map[] else Log(calls, n - 1)[calls[n - 1].member := calls[n - 1].now]
  }

  /** The part of the history stamped `from` or later. */
  function Since(log: map<string, int>, from: int): map<string, int> {
    map m | m in log && log[m] >= from :: log[m]
  }

  /** How many of the first n calls are stamped inside the closed window [lo, hi]. */
  function CountIn(calls: seq<Call>, n: nat, lo: int, hi: int): nat
    requires n <= |calls|
  {
    if n == 0 then 0
    else CountIn(calls, n - 1, lo, hi) + if lo <= calls[n - 1].now <= hi then 1 else 0
  }

  /** How many of the first n calls are stamped inside [lo, hi] and admitted. */
  function AdmittedIn(calls: seq<Call>, decisions: seq<bool>, n: nat, lo: int, hi: int): nat
    requires n <= |calls| == |decisions|
  {
    if n == 0 then 0
    else AdmittedIn(calls, decisions, n - 1, lo, hi)
         + if lo <= calls[n - 1].now <= hi && decisions[n - 1] then 1 else 0
  }

  /** What the sequential theorems ask of the clocks: stamps are non-negative and never decrease,
      and the delay from reading a stamp to executing the pipeline grows by less than the buffer. */
  ghost predicate SteadyClock(calls: seq<Call>) {
    && (forall i :: 0 <= i < |calls| ==> 0 <= calls[i].now)
    && (forall i, j :: 0 <= i < j < |calls| ==> calls[i].now <= calls[j].now)
    && (forall i, j :: 0 <= i < j < |calls| ==>
          (calls[j].at - calls[j].now) - (calls[i].at - calls[i].now) < BUFFER)
  }

  ghost predicate DistinctMembers(calls: seq<Call>) {
    forall i, j :: 0 <= i < j < |calls| ==> calls[i].member != calls[j].member
  }

  // ---- The pruned, expiring key is indistinguishable from the full history ----

  /** The key holds exactly the part of the history inside the window that ends at the latest call,
      and expires one window plus the buffer after that call executed. */
  ghost predicate HoldsWindow(z: ZKey, window: int, log: map<string, int>, latest: Call) {
    && z.members == Since(log, latest.now - window)
    && z.expireAt == Some(latest.at + window + BUFFER)
    && forall m :: m in log ==> 0 <= log[m] <= latest.now
  }

  /** Pruning for the next call leaves exactly the history inside that call's window: if the key has
      expired, nothing of the history was inside. */
  lemma PruneLeavesTheWindow(z: ZKey, window: int, log: map<string, int>, latest: Call, c: Call)
    requires window >= 0 && HoldsWindow(z, window, log, latest)
    requires latest.now <= c.now && c.at - latest.at < c.now - latest.now + BUFFER
    ensures var pruned := ZRemRangeByScore(z, c.at, 0, c.now - window - 1);
            pruned.members == Since(log, c.now - window) && Live(pruned, c.at) == pruned
  {
    if c.at >= latest.at + window + BUFFER {
      assert Since(log, c.now - window) == map[];
    }
  }

  /** Once the prune has left the window of a history, adding and expiring extend that history. */
  lemma AddExtendsTheWindow(z: ZKey, window: int, log: map<string, int>, c: Call)
    requires window >= 0 && 0 <= c.now && forall m :: m in log ==> 0 <= log[m] <= c.now
    requires var pruned := ZRemRangeByScore(z, c.at, 0, c.now - window - 1);
             pruned.members == Since(log, c.now - window) && Live(pruned, c.at) == pruned
    ensures HoldsWindow(Pipeline(z, window, c), window, log[c.member := c.now], c)
  {
    PipelineSteps(z, window, c);
    var m := c.member;
    var pruned := ZRemRangeByScore(z, c.at, 0, c.now - window - 1);
    var added := ZAdd(pruned, c.at, m, c.now);
    assert added.members == Since(log[m := c.now], c.now - window);
    assert m in added.members;
    assert Live(added, c.at) == added;
  }

  lemma {:induction false} KeyHoldsTheWindow(window: int, calls: seq<Call>, n: nat)
    requires window >= 0 && SteadyClock(calls) && 0 < n <= |calls|
    ensures HoldsWindow(KeyAfter(window, calls, n), window, Log(calls, n), calls[n - 1])
  {
    var z, log, c := KeyAfter(window, calls, n - 1), Log(calls, n - 1), calls[n - 1];
    if n > 1 {
      KeyHoldsTheWindow(window, calls, n - 1);
      PruneLeavesTheWindow(z, window, log, calls[n - 2], c);
    }
    AddExtendsTheWindow(z, window, log, c);
  }

  /** The count a call sees is the number of members the full history has in its window. */
  lemma CountIsTheHistory(window: int, calls: seq<Call>, k: nat)
    requires window >= 0 && SteadyClock(calls) && k < |calls|
    ensures Counted(KeyAfter(window, calls, k), window, calls[k]) == |Since(Log(calls, k), calls[k].now - window)|
  {
    if k > 0 {
      KeyHoldsTheWindow(window, calls, k);
      PruneLeavesTheWindow(KeyAfter(window, calls, k), window, Log(calls, k), calls[k - 1], calls[k]);
    }
  }

  /** Sequential refinement, with nothing assumed about members: a call is admitted exactly when
      the full history has fewer than `limit` distinct members in the closed window [now-W, now]. */
  lemma {:induction false} AdmitsByTheHistory(limit: int, window: int, calls: seq<Call>, k: nat)
    requires window >= 0 && SteadyClock(calls) && k < |calls|
    ensures Admits(limit, window, calls, k) <==> |Since(Log(calls, k), calls[k].now - window)| < limit
  {
    CountIsTheHistory(window, calls, k);
  }

  lemma {:induction false} LogStamps(calls: seq<Call>, n: nat, m: string)
    requires n <= |calls| && m in Log(calls, n)
    ensures exists i :: 0 <= i < n && calls[i].member == m && calls[i].now == Log(calls, n)[m]
  {
    if calls[n - 1].member != m {
      LogStamps(calls, n - 1, m);
    }
  }

  /** With distinct members, members in the window are attempts in the window. */
  lemma {:induction false} DistinctMembersCountAttempts(calls: seq<Call>, n: nat, from: int, to: int)
    requires n <= |calls| && DistinctMembers(calls)
    requires forall i :: 0 <= i < n ==> calls[i].now <= to
    ensures |Since(Log(calls, n), from)| == CountIn(calls, n, from, to)
  {
    if n > 0 {
      var c := calls[n - 1];
      DistinctMembersCountAttempts(calls, n - 1, from, to);
      if c.member in Log(calls, n - 1) {
        LogStamps(calls, n - 1, c.member);
        assert false;
      }
      var before := Since(Log(calls, n - 1), from);
      assert Since(Log(calls, n), from) == if c.now >= from then before[c.member := c.now] else before;
    }
  }

  /** The documented rule: with distinct members a call is admitted exactly when fewer than
      `limit` earlier attempts, admitted or denied, are stamped in the closed window. */
  lemma AllowCountsEarlierAttempts(limit: int, window: int, calls: seq<Call>, k: nat)
    requires window >= 0 && SteadyClock(calls) && DistinctMembers(calls) && k < |calls|
    ensures Admits(limit, window, calls, k) <==> CountIn(calls, k, calls[k].now - window, calls[k].now) < limit
  {
    AdmitsByTheHistory(limit, window, calls, k);
    DistinctMembersCountAttempts(calls, k, calls[k].now - window, calls[k].now);
  }

  // ---- Window bound ----

  /** The decisions of a run, call by call. */
  function Decisions(limit: int, window: int, calls: seq<Call>): (r: seq<bool>)
    ensures |r| == |calls|
  {
    seq(|calls|, k requires 0 <= k < |calls| => Admits(limit, window, calls, k))
  }

  ghost predicate FollowsRule(limit: int, window: int, calls: seq<Call>, decisions: seq<bool>) {
    && |decisions| == |calls|
    && forall k {:trigger decisions[k]} :: 0 <= k < |calls| ==>
         (decisions[k] <==> CountIn(calls, k, calls[k].now - window, calls[k].now) < limit)
  }

  lemma DecisionsFollowTheRule(limit: int, window: int, calls: seq<Call>)
    requires window >= 0 && SteadyClock(calls) && DistinctMembers(calls)
    ensures FollowsRule(limit, window, calls, Decisions(limit, window, calls))
  {
    var decisions := Decisions(limit, window, calls);
    forall k | 0 <= k < |calls|
      ensures decisions[k] <==> CountIn(calls, k, calls[k].now - window, calls[k].now) < limit
    {
      AllowCountsEarlierAttempts(limit, window, calls, k);
    }
  }

  /** Admissions in a window are bounded by the attempts in any window that covers it. */
  lemma {:induction false} AdmittedAtMostAttempts(calls: seq<Call>, decisions: seq<bool>, n: nat, lo: int, hi: int,
          lo': int, hi': int)
    requires n <= |calls| == |decisions| && lo' <= lo
    requires forall i :: 0 <= i < n ==> calls[i].now <= hi'
    ensures AdmittedIn(calls, decisions, n, lo, hi) <= CountIn(calls, n, lo', hi')
  {
    if n > 0 {
      AdmittedAtMostAttempts(calls, decisions, n - 1, lo, hi, lo', hi');
    }
  }

  /** A call admitted inside a window finds fewer than `limit` admissions there before it. */
  lemma AdmissionFindsRoom(limit: int, window: int, calls: seq<Call>, decisions: seq<bool>, k: nat, start: int)
    requires SteadyClock(calls) && FollowsRule(limit, window, calls, decisions)
    requires k < |calls| && decisions[k] && start <= calls[k].now <= start + window
    ensures AdmittedIn(calls, decisions, k, start, start + window) < limit
  {
    var now := calls[k].now;
    AdmittedAtMostAttempts(calls, decisions, k, start, start + window, now - window, now);
  }

  lemma {:induction false} RuleBoundsTheWindow(limit: int, window: int, calls: seq<Call>, decisions: seq<bool>,
          n: nat, start: int)
    requires SteadyClock(calls) && n <= |calls| && FollowsRule(limit, window, calls, decisions)
    ensures AdmittedIn(calls, decisions, n, start, start + window) <= Max(limit, 0)
  {
    if n > 0 {
      RuleBoundsTheWindow(limit, window, calls, decisions, n - 1, start);
      if decisions[n - 1] && start <= calls[n - 1].now <= start + window {
        AdmissionFindsRoom(limit, window, calls, decisions, n - 1, start);
      }
    }
  }

  /** Any closed window of the limiter's own length holds at most `limit` admissions. */
  lemma WindowBound(limit: int, window: int, calls: seq<Call>, start: int)
    requires window >= 0 && SteadyClock(calls) && DistinctMembers(calls)
    ensures AdmittedIn(calls, Decisions(limit, window, calls), |calls|, start, start + window) <= Max(limit, 0)
  {
    DecisionsFollowTheRule(limit, window, calls);
    RuleBoundsTheWindow(limit, window, calls, Decisions(limit, window, calls), |calls|, start);
  }

  // ---- Quiet gaps ----

  /** A call more than a window after the one before it is always admitted. */
  lemma QuietGapAdmits(limit: int, window: int, calls: seq<Call>, k: nat)
    requires window >= 0 && limit >= 1 && SteadyClock(calls) && k < |calls|
    requires k > 0 ==> calls[k].now - calls[k - 1].now > window
    ensures Admits(limit, window, calls, k)
  {
    AdmitsByTheHistory(limit, window, calls, k);
    var log := Log(calls, k);
    forall m | m in log
      ensures log[m] < calls[k].now - window
    {
      LogStamps(calls, k, m);
    }
    assert Since(log, calls[k].now - window) == map[];
  }

  /** With limit 1 the rule is exact: admitted if and only if it is the first attempt or comes
      more than a window after the previous attempt, whether or not that one was admitted. */
  lemma LimitOneRule(window: int, calls: seq<Call>, k: nat)
    requires window >= 0 && SteadyClock(calls) && k < |calls|
    ensures Admits(1, window, calls, k) <==> k == 0 || calls[k].now - calls[k - 1].now > window
  {
    if k == 0 || calls[k].now - calls[k - 1].now > window {
      QuietGapAdmits(1, window, calls, k);
    } else {
      AdmitsByTheHistory(1, window, calls, k);
      assert calls[k - 1].member in Since(Log(calls, k), calls[k].now - window);
    }
  }

  /** Attempts at the same nanosecond share one member and count once: under limit 2 every one of
      any number of them is admitted. */
  lemma CollidingMembersCountOnce(calls: seq<Call>, k: nat)
    requires k < |calls| && forall i :: 0 <= i < |calls| ==> calls[i] == Call(5000, MemberName(5000, 7), 5000)
    ensures SteadyClock(calls) && Admits(2, 2000, calls, k)
  {
    AdmitsByTheHistory(2, 2000, calls, k);
    SameCallLog(calls, k);
    var recent := Since(Log(calls, k), 3000);
    SubsetSize(recent.Keys, {calls[k].member});
    assert |recent| == |recent.Keys|;
  }

  lemma {:induction false} SameCallLog(calls: seq<Call>, n: nat)
    requires n < |calls| && forall i :: 0 <= i < |calls| ==> calls[i] == calls[n]
    ensures Log(calls, n).Keys <= {calls[n].member}
  {
    if n > 0 {
      SameCallLog(calls, n - 1);
    }
  }

  /** What the one-second buffer is for: if the second of two calls reads its stamp within a window
      of the first, it is denied (limit 1) if and only if it executes before the key expires. */
  lemma ExpiryForgetsLateCalls(window: int, first: Call, second: Call)
    requires window >= 0 && 0 <= first.now <= second.now <= first.now + window
    ensures Admits(1, window, [first, second], 1) <==> second.at >= first.at + window + 1000
  {
    var calls := [first, second];
    var z := KeyAfter(window, calls, 1);
    assert z == Pipeline(KeyAfter(window, calls, 0), window, calls[0]);
    AddExtendsTheWindow(ABSENT, window, map[], first);
    assert first.member in z.members;
    if second.at < first.at + window + BUFFER {
      assert first.member in ZRemRangeByScore(z, second.at, 0, second.now - window - 1).members;
    }
  }

  // ---- The limiter as the callers use it ----

  /** Stamps that read different nanoseconds (mod 10^6) or milliseconds name different members. */
  lemma MemberNamesDiffer(now: nat, nanos: nat, now': nat, nanos': nat)
    ensures MemberName(now, nanos) == MemberName(now', nanos') <==> now == now' && nanos % 1_000_000 == nanos' % 1_000_000
  {
    var a, b := Decimal.PrintNat(now), Decimal.PrintNat(nanos % 1_000_000);
    var a', b' := Decimal.PrintNat(now'), Decimal.PrintNat(nanos' % 1_000_000);
    if a + "." + b == a' + "." + b' {
      assert '.' !in a && '.' !in a';
      Strings.SeparatorDecides(a, '.', b, a', b');
      Decimal.PrintNatInjective(now, now');
      Decimal.PrintNatInjective(nanos % 1_000_000, nanos' % 1_000_000);
    }
  }

  class Limiter {
    var keys: map<string, ZKey>

    constructor ()
      ensures keys == map[]
    {
      keys := map[];
    }

    function Key(key: string): ZKey
      reads this
    {
      if key in keys then keys[key] else ABSENT
    }

    /** One call of Allow. `fault` is the number of commands executed before a connection error;
        then the call fails open. Other keys are untouched. */
    method Allow(key: string, limit: int, window: int, c: Call, fault: Option<nat>)
      returns (allowed: bool, failed: bool)
      requires fault.Some? ==> fault.value <= 4
      modifies this
      ensures failed <==> fault.Some?
      ensures failed ==> allowed && Key(key) == ExecuteAll(old(Key(key)), c.at, Commands(window, c), fault.value)
      ensures !failed ==> Key(key) == Pipeline(old(Key(key)), window, c)
      ensures !failed ==> (allowed <==> Counted(old(Key(key)), window, c) < limit)
      ensures forall k :: k != key ==> Key(k) == old(Key(k))
    {
      var z := Key(key);
      var count := 0;
      var commands := Commands(window, c);
      var executed := if fault.Some? then fault.value else 4;
      for i := 0 to executed
        invariant z == ExecuteAll(old(Key(key)), c.at, commands, i)
        invariant i >= 2 ==> count == Counted(old(Key(key)), window, c)
      {
        if commands[i].Card? {
          count := ZCard(z, c.at);
        }
        z := Execute(z, c.at, commands[i]);
      }
      keys := keys[key := z];
      if fault.Some? {
        return true, true;
      }
      return count < limit, false;
    }
  }

  // ---- The crawler's polling loop ----

  // crawler/worker.go polls with limit 1 and a two-second window.
  const CRAWL_WINDOW := 2000

  function CrawlKey(source: string): string {
    "ratelimit:crawler:" + source
  }

  /** Every source has a window of its own. */
  lemma CrawlKeysDiffer(source: string, other: string)
    ensures CrawlKey(source) == CrawlKey(other) <==> source == other
  {
    var n := |"ratelimit:crawler:"|;
    assert CrawlKey(source)[n..] == source && CrawlKey(other)[n..] == other;
  }

  /** Attempt i on a key follows the attempt before it by at most two seconds. */
  predicate Close(calls: seq<Call>, i: nat)
    requires i < |calls|
  {
    i > 0 && calls[i].now - calls[i - 1].now <= 2000
  }

  /** A poll is denied exactly when it is close: the attempt that is meant to wait for the window
      to open is itself an attempt that keeps it closed. */
  lemma ClosePollIsDenied(calls: seq<Call>, i: nat)
    requires i < |calls| && SteadyClock(calls)
    ensures Admits(1, CRAWL_WINDOW, calls, i) <==> !Close(calls, i)
  {
    LimitOneRule(CRAWL_WINDOW, calls, i);
  }

  datatype Waited = Admitted(poll: nat) | RedisError(poll: nat) | Cancelled

  /** The first of a wait's own polls, from attempt i on, that is not close. */
  function FirstOpen(calls: seq<Call>, own: set<nat>, i: nat): (r: nat)
    requires i <= |calls|
    ensures i <= r <= |calls|
    ensures forall k :: i <= k < r && k in own ==> Close(calls, k)
    ensures r < |calls| ==> r in own && !Close(calls, r)
    decreases |calls| - i
  {
    if i < |calls| && (i !in own || Close(calls, i)) then FirstOpen(calls, own, i + 1) else i
  }

  /** The key when the connection breaks off poll i after some of its commands. */
  function BrokenOff(calls: seq<Call>, i: nat, executed: nat): ZKey
    requires i < |calls| && executed <= 4
  {
    ExecuteAll(KeyAfter(CRAWL_WINDOW, calls, i), calls[i].at, Commands(CRAWL_WINDOW, calls[i]), executed)
  }

  /** One poll, as attempt i of the key's traffic. */
  method PollOnce(limiter: Limiter, key: string, calls: seq<Call>, i: nat, fault: Option<nat>)
    returns (allowed: bool, failed: bool)
    requires i < |calls| && SteadyClock(calls)
    requires fault.Some? ==> fault.value <= 4
    requires limiter.Key(key) == KeyAfter(CRAWL_WINDOW, calls, i)
    modifies limiter
    ensures failed <==> fault.Some?
    ensures !failed ==> (allowed <==> !Close(calls, i))
    ensures !failed ==> limiter.Key(key) == KeyAfter(CRAWL_WINDOW, calls, i + 1)
    ensures failed ==> limiter.Key(key) == BrokenOff(calls, i, fault.value)
    ensures forall k :: k != key ==> limiter.Key(k) == old(limiter.Key(k))
  {
    ClosePollIsDenied(calls, i);
    allowed, failed := limiter.Allow(key, 1, CRAWL_WINDOW, calls[i], fault);
  }

  /** Another crawler of the source makes attempt i in between. */
  method OtherAttempt(limiter: Limiter, key: string, calls: seq<Call>, i: nat)
    requires i < |calls| && limiter.Key(key) == KeyAfter(CRAWL_WINDOW, calls, i)
    modifies limiter
    ensures limiter.Key(key) == KeyAfter(CRAWL_WINDOW, calls, i + 1)
    ensures forall k :: k != key ==> limiter.Key(k) == old(limiter.Key(k))
  {
    var allowed, failed := limiter.Allow(key, 1, CRAWL_WINDOW, calls[i], None);
  }

  /** The poll at which Redis fails, and how many of its commands were executed. */
  datatype Failure = Failure(poll: nat, executed: nat)

  /** Redis fails at a poll of the wait that is not past its first open one. */
  predicate FailsFirst(failure: Option<Failure>, calls: seq<Call>, own: set<nat>, start: nat)
    requires start <= |calls|
  {
    failure.Some? && failure.value.poll in own && failure.value.poll < |calls|
    && start <= failure.value.poll <= FirstOpen(calls, own, start)
  }

  /** respectRateLimit: poll until admitted, until Redis fails, or until the context is cancelled.
      `calls` is all the traffic of the source's key: what came before this wait, and from index
      `start` up to its cancellation its own polls, at the indices `own`, with the attempts of other
      crawlers in between. The limiter fails open, but the error ends the wait, leaving behind whatever
      commands were executed. The wait is admitted at its first poll that is not close to the attempt
      before it, whoever made that, and only cancellation ends a wait whose polls are all close. */
  method RespectRateLimit(limiter: Limiter, source: string, calls: seq<Call>, own: set<nat>, start: nat,
                          failure: Option<Failure>)
    returns (r: Waited)
    requires start <= |calls| && SteadyClock(calls)
    requires failure.Some? ==> failure.value.executed <= 4
    requires limiter.Key(CrawlKey(source)) == KeyAfter(CRAWL_WINDOW, calls, start)
    modifies limiter
    ensures var open := FirstOpen(calls, own, start);
            r == if FailsFirst(failure, calls, own, start) then RedisError(failure.value.poll)
                 else if open < |calls| then Admitted(open)
                 else Cancelled
    ensures r.Admitted? ==> start <= r.poll < |calls| && r.poll in own && !Close(calls, r.poll)
                            && forall k :: start <= k < r.poll && k in own ==> Close(calls, k)
    ensures r.Cancelled? ==> forall k :: start <= k < |calls| && k in own ==> Close(calls, k)
    ensures limiter.Key(CrawlKey(source))
         == if FailsFirst(failure, calls, own, start) then BrokenOff(calls, failure.value.poll, failure.value.executed)
            else KeyAfter(CRAWL_WINDOW, calls, if r.Admitted? then r.poll + 1 else |calls|)
    ensures forall k :: k != CrawlKey(source) ==> limiter.Key(k) == old(limiter.Key(k))
  {
    var i := start;
    while i < |calls|
      invariant start <= i <= |calls|
      invariant limiter.Key(CrawlKey(source)) == KeyAfter(CRAWL_WINDOW, calls, i)
      invariant FirstOpen(calls, own, i) == FirstOpen(calls, own, start)
      invariant failure.Some? && failure.value.poll in own && start <= failure.value.poll ==> i <= failure.value.poll
      invariant forall k :: k != CrawlKey(source) ==> limiter.Key(k) == old(limiter.Key(k))
    {
      if i in own {
        var fault := if failure.Some? && failure.value.poll == i then Some(failure.value.executed) else None;
        var allowed, failed := PollOnce(limiter, CrawlKey(source), calls, i, fault);
        if failed {
          return RedisError(i);
        }
        if allowed {
          return Admitted(i);
        }
      } else {
        OtherAttempt(limiter, CrawlKey(source), calls, i);
      }
      i := i + 1;
    }
    return Cancelled;
  }

  /** A wait's polls are all denied, however many it makes, if and only if each comes within two seconds
      of the attempt before it, its own or another crawler's. A poll every 500 ms, plus however long
      each takes, keeps well within that once the first of them does. */
  lemma PollingStarves(calls: seq<Call>, own: set<nat>, start: nat)
    requires SteadyClock(calls) && start <= |calls|
    ensures (forall k :: start <= k < |calls| && k in own ==> !Admits(1, CRAWL_WINDOW, calls, k))
       <==> (forall k :: start <= k < |calls| && k in own ==> Close(calls, k))
  {
    forall k | start <= k < |calls| ensures Admits(1, CRAWL_WINDOW, calls, k) <==> !Close(calls, k) {
      ClosePollIsDenied(calls, k);
    }
  }
}

/** pkg/redis/rate_limiter.go under concurrency. A go-redis Pipeline is one round trip but not a
    transaction: the server executes each client's commands in order, and commands of different
    clients may come in between. Every step below is one command of one client. */
module ConcurrentLimiter {
  import opened Prelude
  import opened RedisSortedSet
  import opened RateLimiter
  import Decimal

  /** How far a client has come with its current call. */
  datatype Phase = Idle | Pruned(call: Call) | HasCounted(call: Call, allowed: bool) | Added(call: Call)

  datatype Admission = Admission(client: nat, call: Call)

  /** The key, the clients, the admissions in the order of their ZCARDs, the largest stamp whose
      prune has executed, and the members taken by some call. */
  datatype State = State(
    z: ZKey, phases: seq<Phase>, admitted: seq<Admission>, horizon: Option<int>, used: set<string>)

  datatype Step = StartCall(client: nat, call: Call, at: int) | DoCard(client: nat, at: int)
                | DoAdd(client: nat, at: int) | DoExpire(client: nat, at: int)

  function Initial(clients: nat): State {
    State(ABSENT, seq(clients, _ => Idle), [], None, {})
  }

  /** The conditions of the theorem: a client issues its commands in order; members are distinct;
      the key does not expire; and no prune stamped more than `slack` after a call has executed
      before that call's ZCARD. */
  ghost predicate Enabled(s: State, slack: int, step: Step) {
    && step.client < |s.phases|
    && Live(s.z, step.at) == s.z
    && match step
       case StartCall(client, call, _) => s.phases[client] == Idle && 0 <= call.now && call.member !in s.used
       case DoCard(client, _) =>
         && s.phases[client].Pruned?
         && (s.horizon.Some? ==> s.horizon.value <= s.phases[client].call.now + slack)
       case DoAdd(client, _) => s.phases[client].HasCounted?
       case DoExpire(client, _) => s.phases[client].Added?
  }

  function Next(s: State, limit: int, window: int, step: Step): State
    requires step.client < |s.phases|
    requires step.DoCard? ==> s.phases[step.client].Pruned?
    requires step.DoAdd? ==> s.phases[step.client].HasCounted?
    requires step.DoExpire? ==> s.phases[step.client].Added?
  {
    match step
    case StartCall(client, call, at) =>
      State(Execute(s.z, at, Prune(0, call.now - window - 1)), s.phases[client := Pruned(call)], s.admitted,
            if s.horizon.Some? && s.horizon.value >= call.now then s.horizon else Some(call.now), s.used + {call.member})
    case DoCard(client, at) =>
      var call := s.phases[client].call;
      var allowed := ZCard(s.z, at) < limit;
      s.(phases := s.phases[client := HasCounted(call, allowed)],
         admitted := s.admitted + if allowed then [Admission(client, call)] else [])
    case DoAdd(client, at) =>
      var call := s.phases[client].call;
      s.(z := Execute(s.z, at, Add(call.member, call.now)), phases := s.phases[client := Added(call)])
    case DoExpire(client, at) =>
      s.(z := Execute(s.z, at, SetExpiry(window + BUFFER)), phases := s.phases[client := Idle])
  }

  ghost predicate Reachable(clients: nat, limit: int, window: int, slack: int, steps: seq<Step>, s: State)
    decreases |steps|
  {
    if steps == [] then s == Initial(clients)
    else exists p :: Reachable(clients, limit, window, slack, Front(steps), p)
                     && Enabled(p, slack, Last(steps)) && s == Next(p, limit, window, Last(steps))
  }

  // ---- A call on its own ----

  /** A whole call of one client, its four commands taken without interruption. */
  function Alone(s: State, limit: int, window: int, client: nat, c: Call): State
    requires client < |s.phases|
  {
    var s1 := Next(s, limit, window, StartCall(client, c, c.at));
    var s2 := Next(s1, limit, window, DoCard(client, c.at));
    var s3 := Next(s2, limit, window, DoAdd(client, c.at));
    Next(s3, limit, window, DoExpire(client, c.at))
  }

  /** Such a call does to the key what the pipeline of a single caller does, and is admitted exactly
      when that caller is. */
  lemma AloneIsAllow(s: State, limit: int, window: int, client: nat, c: Call)
    requires client < |s.phases| && s.phases[client] == Idle
    ensures var t := Alone(s, limit, window, client, c);
            && t.z == Pipeline(s.z, window, c)
            && t.phases == s.phases
            && t.admitted == s.admitted + if Counted(s.z, window, c) < limit then [Admission(client, c)] else []
  {
    PipelineSteps(s.z, window, c);
    var pruned := ZRemRangeByScore(s.z, c.at, 0, c.now - window - 1);
    assert ZAdd(Live(pruned, c.at), c.at, c.member, c.now) == ZAdd(pruned, c.at, c.member, c.now);
  }

  /** n calls of the only client, one after another from the absent key. */
  function AloneRun(limit: int, window: int, calls: seq<Call>, n: nat): (s: State)
    requires n <= |calls|
    ensures |s.phases| == 1
  {
    if n == 0 then Initial(1) else Alone(AloneRun(limit, window, calls, n - 1), limit, window, 0, calls[n - 1])
  }

  lemma {:induction false} AloneRunKeepsTheKey(limit: int, window: int, calls: seq<Call>, n: nat)
    requires n <= |calls|
    ensures var s := AloneRun(limit, window, calls, n); s.z == KeyAfter(window, calls, n) && s.phases == [Idle]
  {
    if n > 0 {
      AloneRunKeepsTheKey(limit, window, calls, n - 1);
      AloneIsAllow(AloneRun(limit, window, calls, n - 1), limit, window, 0, calls[n - 1]);
    }
  }

  /** So a client that is alone is admitted exactly when fewer than `limit` of its earlier attempts lie
      in the window that ends with the call. */
  lemma SingleClientRule(limit: int, window: int, calls: seq<Call>, k: nat)
    requires window >= 0 && SteadyClock(calls) && DistinctMembers(calls) && k < |calls|
    ensures AloneRun(limit, window, calls, k + 1).admitted
         == AloneRun(limit, window, calls, k).admitted
            + if CountIn(calls, k, calls[k].now - window, calls[k].now) < limit then [Admission(0, calls[k])] else []
  {
    AloneRunKeepsTheKey(limit, window, calls, k);
    AloneIsAllow(AloneRun(limit, window, calls, k), limit, window, 0, calls[k]);
    AllowCountsEarlierAttempts(limit, window, calls, k);
  }

  lemma AloneIsEnabled(s: State, limit: int, window: int, slack: int, client: nat, c: Call)
    requires client < |s.phases| && s.phases[client] == Idle && 0 <= c.now && c.member !in s.used
    requires Live(s.z, c.at) == s.z && (s.horizon.Some? ==> s.horizon.value <= c.now + slack) && slack >= 0
    ensures Enabled(s, slack, StartCall(client, c, c.at))
    ensures var s1 := Next(s, limit, window, StartCall(client, c, c.at));
            var s2 := Next(s1, limit, window, DoCard(client, c.at));
            var s3 := Next(s2, limit, window, DoAdd(client, c.at));
            && Enabled(s1, slack, DoCard(client, c.at))
            && Enabled(s2, slack, DoAdd(client, c.at))
            && Enabled(s3, slack, DoExpire(client, c.at))
  {
  }

  /** Where the conditions of the theorems hold, the machine takes such a call. */
  lemma AloneIsReachable(clients: nat, limit: int, window: int, slack: int, before: seq<Step>, s: State, client: nat, c: Call)
    returns (steps: seq<Step>)
    requires Reachable(clients, limit, window, slack, before, s)
    requires client < |s.phases| && s.phases[client] == Idle && 0 <= c.now && c.member !in s.used
    requires Live(s.z, c.at) == s.z && (s.horizon.Some? ==> s.horizon.value <= c.now + slack) && slack >= 0
    ensures Reachable(clients, limit, window, slack, steps, Alone(s, limit, window, client, c))
  {
    AloneIsEnabled(s, limit, window, slack, client, c);
    var t := s;
    steps, t := Taken(clients, limit, window, slack, before, t, StartCall(client, c, c.at));
    steps, t := Taken(clients, limit, window, slack, steps, t, DoCard(client, c.at));
    steps, t := Taken(clients, limit, window, slack, steps, t, DoAdd(client, c.at));
    steps, t := Taken(clients, limit, window, slack, steps, t, DoExpire(client, c.at));
  }

  lemma Taken(clients: nat, limit: int, window: int, slack: int, before: seq<Step>, s: State, step: Step)
    returns (steps: seq<Step>, t: State)
    requires Reachable(clients, limit, window, slack, before, s) && Enabled(s, slack, step)
    ensures t == Next(s, limit, window, step) && Reachable(clients, limit, window, slack, steps, t)
  {
    Extend(clients, limit, window, slack, before, s, step);
    steps, t := before + [step], Next(s, limit, window, step);
  }

  /** The admissions among the first n whose stamps lie in the closed window [lo, hi]. */
  function AdmittedWithin(admitted: seq<Admission>, n: nat, lo: int, hi: int): nat
    requires n <= |admitted|
  {
    if n == 0 then 0
    else AdmittedWithin(admitted, n - 1, lo, hi) + if lo <= admitted[n - 1].call.now <= hi then 1 else 0
  }

  // ---- What every command keeps ----

  predicate Waiting(s: State, a: Admission) {
    a.client < |s.phases| && s.phases[a.client] == HasCounted(a.call, true)
  }

  /** An admission is still to be added, or is in the set, or its window has been pruned away. */
  ghost predicate Accounted(s: State, window: int, a: Admission) {
    || Waiting(s, a)
    || (a.call.member in s.z.members && s.z.members[a.call.member] == a.call.now)
    || (s.horizon.Some? && s.horizon.value > a.call.now + window)
  }

  ghost predicate InFlight(p: Phase) {
    p.Pruned? || p.HasCounted?
  }

  ghost predicate AllDistinct(admitted: seq<Admission>) {
    forall i, j :: 0 <= i < j < |admitted| ==> admitted[i].call.member != admitted[j].call.member
  }

  ghost predicate Used(s: State) {
    && (forall i :: 0 <= i < |s.admitted| ==> s.admitted[i].call.member in s.used)
    && (forall c :: 0 <= c < |s.phases| && InFlight(s.phases[c]) ==> s.phases[c].call.member in s.used)
  }

  ghost predicate FlightsDiffer(phases: seq<Phase>) {
    forall c, d :: 0 <= c < d < |phases| && InFlight(phases[c]) && InFlight(phases[d]) ==>
      phases[c].call.member != phases[d].call.member
  }

  /** An admission shares its member with a call in flight only if it is that call's. */
  ghost predicate Owns(s: State, c: nat, a: Admission)
    requires c < |s.phases|
  {
    InFlight(s.phases[c]) && a.call.member == s.phases[c].call.member ==> a.client == c && Waiting(s, a)
  }

  /** Members identify calls: distinct admissions, distinct calls in flight, and an admission shares
      its member only with its own call. */
  ghost predicate MembersIdentify(s: State) {
    && Used(s) && AllDistinct(s.admitted) && FlightsDiffer(s.phases)
    && forall c, i :: 0 <= c < |s.phases| && 0 <= i < |s.admitted| ==> Owns(s, c, s.admitted[i])
  }

  ghost predicate Invariant(s: State, clients: nat, window: int) {
    && |s.phases| == clients
    && MembersIdentify(s)
    && forall i :: 0 <= i < |s.admitted| ==> Accounted(s, window, s.admitted[i])
  }

  lemma StepKeepsDistinct(s: State, limit: int, window: int, slack: int, step: Step)
    requires MembersIdentify(s) && Enabled(s, slack, step)
    ensures Used(Next(s, limit, window, step)) && AllDistinct(Next(s, limit, window, step).admitted)
  {
    var t := Next(s, limit, window, step);
    if |t.admitted| > |s.admitted| {
      forall i | 0 <= i < |s.admitted| ensures s.admitted[i].call.member != s.phases[step.client].call.member {
        assert Owns(s, step.client, s.admitted[i]);
      }
    }
  }

  lemma StepKeepsFlights(s: State, limit: int, window: int, slack: int, step: Step)
    requires MembersIdentify(s) && Enabled(s, slack, step)
    ensures FlightsDiffer(Next(s, limit, window, step).phases)
  {
  }

  lemma StepKeepsOwns(s: State, limit: int, window: int, slack: int, step: Step, c: nat, i: nat)
    requires MembersIdentify(s) && Enabled(s, slack, step)
    requires c < |s.phases| && i < |Next(s, limit, window, step).admitted|
    ensures Owns(Next(s, limit, window, step), c, Next(s, limit, window, step).admitted[i])
  {
    if i < |s.admitted| {
      assert Owns(s, c, s.admitted[i]);
    } else {
      assert FlightsDiffer(s.phases);
    }
  }

  lemma StepKeepsMembers(s: State, limit: int, window: int, slack: int, step: Step)
    requires MembersIdentify(s) && Enabled(s, slack, step)
    ensures MembersIdentify(Next(s, limit, window, step))
  {
    var t := Next(s, limit, window, step);
    StepKeepsDistinct(s, limit, window, slack, step);
    StepKeepsFlights(s, limit, window, slack, step);
    forall c, i | 0 <= c < |t.phases| && 0 <= i < |t.admitted| ensures Owns(t, c, t.admitted[i]) {
      StepKeepsOwns(s, limit, window, slack, step, c, i);
    }
  }

  lemma StepKeepsAccounts(s: State, limit: int, window: int, slack: int, step: Step, a: Admission)
    requires window >= 0 && Enabled(s, slack, step) && Accounted(s, window, a)
    requires InFlight(s.phases[step.client]) && a.call.member == s.phases[step.client].call.member ==>
               a.client == step.client && Waiting(s, a)
    ensures Accounted(Next(s, limit, window, step), window, a)
  {
  }

  lemma StepKeepsInvariant(s: State, clients: nat, limit: int, window: int, slack: int, step: Step)
    requires window >= 0 && Invariant(s, clients, window) && Enabled(s, slack, step)
    ensures Invariant(Next(s, limit, window, step), clients, window)
  {
    var t := Next(s, limit, window, step);
    StepKeepsMembers(s, limit, window, slack, step);
    forall i | 0 <= i < |t.admitted|
      ensures Accounted(t, window, t.admitted[i])
    {
      if i < |s.admitted| {
        assert Owns(s, step.client, s.admitted[i]);
        StepKeepsAccounts(s, limit, window, slack, step, s.admitted[i]);
      } else {
        assert Waiting(t, t.admitted[i]);
      }
    }
  }

  // ---- The bound ----

  /** The admissions among the first n stamped `lo` or later have their members in the pool. */
  ghost predicate InPool(admitted: seq<Admission>, n: nat, lo: int, pool: set<string>)
    requires n <= |admitted|
  {
    forall i :: 0 <= i < n && lo <= admitted[i].call.now ==> admitted[i].call.member in pool
  }

  /** Admissions whose distinct members all come from a pool are no more than the pool. */
  lemma {:induction false} PoolBoundsAdmissions(admitted: seq<Admission>, n: nat, lo: int, hi: int, pool: set<string>)
    requires n <= |admitted| && AllDistinct(admitted) && InPool(admitted, n, lo, pool)
    ensures AdmittedWithin(admitted, n, lo, hi) <= |pool|
  {
    if n > 0 {
      var last := admitted[n - 1].call;
      if lo <= last.now {
        PoolBoundsAdmissions(admitted, n - 1, lo, hi, pool - {last.member});
      } else {
        PoolBoundsAdmissions(admitted, n - 1, lo, hi, pool);
      }
    }
  }

  /** The members that clients other than `self`, among the first n, have counted but not added. */
  function WaitingMembers(phases: seq<Phase>, n: nat, self: nat): (r: set<string>)
    requires n <= |phases|
    ensures |r| <= n - if self < n then 1 else 0
    ensures forall c :: 0 <= c < n && c != self && phases[c].HasCounted? ==> phases[c].call.member in r
  {
    if n == 0 then {}
    else
      var rest := WaitingMembers(phases, n - 1, self);
      if n - 1 != self && phases[n - 1].HasCounted? then rest + {phases[n - 1].call.member} else rest
  }

  /** The members in the set, and those that clients other than `self` are about to add. */
  function Pool(s: State, self: nat): (r: set<string>)
    requires self < |s.phases|
    ensures |r| <= |s.z.members| + |s.phases| - 1
  {
    var waiting := WaitingMembers(s.phases, |s.phases|, self);
    assert |s.z.members.Keys + waiting| <= |s.z.members.Keys| + |waiting|;
    s.z.members.Keys + waiting
  }

  /** An admission inside the window of a call that is about to count is in the set or waiting:
      no prune that could have removed it has executed. */
  lemma InsideIsPresent(s: State, clients: nat, window: int, slack: int, step: Step, lo: int)
    requires Invariant(s, clients, window) && Enabled(s, slack, step) && step.DoCard?
    requires lo <= s.phases[step.client].call.now <= lo + window - slack
    ensures InPool(s.admitted, |s.admitted|, lo, Pool(s, step.client))
  {
    forall i | 0 <= i < |s.admitted| && lo <= s.admitted[i].call.now
      ensures s.admitted[i].call.member in Pool(s, step.client)
    {
      assert Accounted(s, window, s.admitted[i]);
    }
  }

  /** A call that is about to count finds, in any window of length W - S around its stamp, at most as
      many admissions as the set has members, plus one for every other client. */
  lemma CountCoversTheWindow(s: State, clients: nat, window: int, slack: int, step: Step, lo: int)
    requires Invariant(s, clients, window) && Enabled(s, slack, step) && step.DoCard?
    requires lo <= s.phases[step.client].call.now <= lo + window - slack
    ensures AdmittedWithin(s.admitted, |s.admitted|, lo, lo + window - slack) <= |s.z.members| + clients - 1
  {
    InsideIsPresent(s, clients, window, slack, step, lo);
    PoolBoundsAdmissions(s.admitted, |s.admitted|, lo, lo + window - slack, Pool(s, step.client));
  }

  lemma {:induction false} AppendCount(admitted: seq<Admission>, a: Admission, n: nat, lo: int, hi: int)
    requires n <= |admitted|
    ensures AdmittedWithin(admitted + [a], n, lo, hi) == AdmittedWithin(admitted, n, lo, hi)
  {
    if n > 0 {
      AppendCount(admitted, a, n - 1, lo, hi);
    }
  }

  lemma StepKeepsBound(s: State, clients: nat, limit: int, window: int, slack: int, step: Step, lo: int)
    requires Invariant(s, clients, window) && Enabled(s, slack, step)
    requires AdmittedWithin(s.admitted, |s.admitted|, lo, lo + window - slack) <= Max(limit + clients - 1, 0)
    ensures var t := Next(s, limit, window, step);
            AdmittedWithin(t.admitted, |t.admitted|, lo, lo + window - slack) <= Max(limit + clients - 1, 0)
  {
    var t := Next(s, limit, window, step);
    if step.DoCard? && ZCard(s.z, step.at) < limit {
      var a := Admission(step.client, s.phases[step.client].call);
      assert t.admitted == s.admitted + [a];
      AppendCount(s.admitted, a, |s.admitted|, lo, lo + window - slack);
      if lo <= a.call.now <= lo + window - slack {
        CountCoversTheWindow(s, clients, window, slack, step, lo);
      }
    } else {
      assert t.admitted == s.admitted;
    }
  }

  lemma {:induction false} ReachableKeepsInvariant(clients: nat, limit: int, window: int, slack: int, steps: seq<Step>, s: State)
    requires window >= 0 && Reachable(clients, limit, window, slack, steps, s)
    ensures Invariant(s, clients, window)
    decreases |steps|
  {
    if steps != [] {
      var p :| Reachable(clients, limit, window, slack, Front(steps), p)
               && Enabled(p, slack, Last(steps)) && s == Next(p, limit, window, Last(steps));
      ReachableKeepsInvariant(clients, limit, window, slack, Front(steps), p);
      StepKeepsInvariant(p, clients, limit, window, slack, Last(steps));
    }
  }

  /** Overshoot bound: however the commands of N clients interleave, the calls admitted with stamps
      in any closed window of length W - S number at most limit + N - 1. */
  lemma {:induction false} OvershootBound(clients: nat, limit: int, window: int, slack: int, steps: seq<Step>, s: State, lo: int)
    requires window >= 0 && Reachable(clients, limit, window, slack, steps, s)
    ensures AdmittedWithin(s.admitted, |s.admitted|, lo, lo + window - slack) <= Max(limit + clients - 1, 0)
    decreases |steps|
  {
    if steps != [] {
      var p :| Reachable(clients, limit, window, slack, Front(steps), p)
               && Enabled(p, slack, Last(steps)) && s == Next(p, limit, window, Last(steps));
      OvershootBound(clients, limit, window, slack, Front(steps), p, lo);
      ReachableKeepsInvariant(clients, limit, window, slack, Front(steps), p);
      StepKeepsBound(p, clients, limit, window, slack, Last(steps), lo);
    }
  }

  // ---- The bound is attained ----

  /** Call number i of the run below; all of its calls are made in the same millisecond. */
  function Numbered(i: nat): Call {
    Call(0, Decimal.PrintNat(i), 0)
  }

  /** `serial` calls have completed, then the first `pruned` clients have pruned for the calls that
      follow, and the first `counted` of them have counted and been admitted. */
  ghost predicate Stage(s: State, clients: nat, serial: nat, pruned: nat, counted: nat) {
    && counted <= pruned <= clients == |s.phases|
    && (forall c :: 0 <= c < clients ==>
          s.phases[c] == if c < counted then HasCounted(Numbered(serial + c), true)
                         else if c < pruned then Pruned(Numbered(serial + c)) else Idle)
    && |s.admitted| == serial + counted
    && (forall i :: 0 <= i < |s.admitted| ==> s.admitted[i].call.now == 0)
    && |s.z.members| == serial
    && (forall m :: m in s.z.members ==> s.z.members[m] == 0)
    && s.z.members.Keys <= s.used
    && (forall i {:trigger Numbered(i)} :: i >= serial + pruned ==> Numbered(i).member !in s.used)
    && (s.horizon.Some? ==> s.horizon.value == 0)
    && (s.z == ABSENT || (s.z.expireAt.Some? && s.z.expireAt.value > 0))
  }

  /** The steps lead to a state at the given stage. */
  ghost predicate LeadsTo(clients: nat, limit: int, window: int, slack: int, steps: seq<Step>, s: State,
                          serial: nat, pruned: nat, counted: nat) {
    Reachable(clients, limit, window, slack, steps, s) && Stage(s, clients, serial, pruned, counted)
  }

  lemma Extend(clients: nat, limit: int, window: int, slack: int, steps: seq<Step>, s: State, step: Step)
    requires Reachable(clients, limit, window, slack, steps, s) && Enabled(s, slack, step)
    ensures Reachable(clients, limit, window, slack, steps + [step], Next(s, limit, window, step))
  {
    assert Front(steps + [step]) == steps;
  }

  lemma NumberedDiffer(i: nat, j: nat)
    requires i != j
    ensures Numbered(i).member != Numbered(j).member
  {
    if Numbered(i).member == Numbered(j).member {
      Decimal.PrintNatInjective(i, j);
    }
  }

  lemma PruneStage(s: State, clients: nat, limit: int, window: int, slack: int, serial: nat, pruned: nat)
    requires Stage(s, clients, serial, pruned, 0) && pruned < clients && window >= 0
    ensures var step := StartCall(pruned, Numbered(serial + pruned), 0);
            Enabled(s, slack, step) && Stage(Next(s, limit, window, step), clients, serial, pruned + 1, 0)
  {
    var call := Numbered(serial + pruned);
    var t := Next(s, limit, window, StartCall(pruned, call, 0));
    assert t.z.members == s.z.members;
    forall i {:trigger Numbered(i)} | i >= serial + pruned + 1
      ensures Numbered(i).member !in t.used
    {
      NumberedDiffer(i, serial + pruned);
    }
  }

  lemma CountStage(s: State, clients: nat, limit: int, window: int, slack: int, serial: nat, pruned: nat, counted: nat)
    requires Stage(s, clients, serial, pruned, counted) && counted < pruned && serial < limit && slack >= 0
    ensures var step := DoCard(counted, 0);
            Enabled(s, slack, step) && Stage(Next(s, limit, window, step), clients, serial, pruned, counted + 1)
  {
  }

  lemma FinishStage(s: State, clients: nat, limit: int, window: int, slack: int, serial: nat)
    requires Stage(s, clients, serial, 1, 1) && window >= 0 && Numbered(serial).member in s.used
    requires Numbered(serial).member !in s.z.members
    ensures Enabled(s, slack, DoAdd(0, 0))
    ensures var t := Next(s, limit, window, DoAdd(0, 0));
            Enabled(t, slack, DoExpire(0, 0)) && Stage(Next(t, limit, window, DoExpire(0, 0)), clients, serial + 1, 0, 0)
  {
    var t := Next(s, limit, window, DoAdd(0, 0));
    assert t.z.members == s.z.members[Numbered(serial).member := 0];
    assert t.phases[0] == Added(Numbered(serial));
    var u := Next(t, limit, window, DoExpire(0, 0));
    assert u.z.members == t.z.members;
  }

  /** One more prune of the run. */
  lemma PruneNext(clients: nat, limit: int, window: int, slack: int, before: seq<Step>, p: State, serial: nat, pruned: nat)
    returns (steps: seq<Step>, s: State)
    requires LeadsTo(clients, limit, window, slack, before, p, serial, pruned, 0) && pruned < clients && window >= 0
    ensures LeadsTo(clients, limit, window, slack, steps, s, serial, pruned + 1, 0)
    ensures Numbered(serial + pruned).member in s.used && s.z.members == p.z.members
  {
    var step := StartCall(pruned, Numbered(serial + pruned), 0);
    PruneStage(p, clients, limit, window, slack, serial, pruned);
    Extend(clients, limit, window, slack, before, p, step);
    steps, s := before + [step], Next(p, limit, window, step);
    assert s.z.members == p.z.members;
  }

  /** One more count of the run. */
  lemma CountNext(clients: nat, limit: int, window: int, slack: int, before: seq<Step>, p: State,
                  serial: nat, pruned: nat, counted: nat)
    returns (steps: seq<Step>, s: State)
    requires LeadsTo(clients, limit, window, slack, before, p, serial, pruned, counted) && counted < pruned
             && serial < limit && slack >= 0
    ensures LeadsTo(clients, limit, window, slack, steps, s, serial, pruned, counted + 1)
    ensures s.used == p.used && s.z == p.z
  {
    CountStage(p, clients, limit, window, slack, serial, pruned, counted);
    Extend(clients, limit, window, slack, before, p, DoCard(counted, 0));
    steps, s := before + [DoCard(counted, 0)], Next(p, limit, window, DoCard(counted, 0));
  }

  /** A whole call of the first client alone. */
  lemma WholeCall(clients: nat, limit: int, window: int, slack: int, before: seq<Step>, p: State, serial: nat)
    returns (steps: seq<Step>, s: State)
    requires LeadsTo(clients, limit, window, slack, before, p, serial, 0, 0)
    requires clients >= 1 && window >= 0 && slack >= 0 && serial < limit
    ensures LeadsTo(clients, limit, window, slack, steps, s, serial + 1, 0, 0)
  {
    assert Numbered(serial).member !in p.z.members;
    steps, s := PruneNext(clients, limit, window, slack, before, p, serial, 0);
    steps, s := CountNext(clients, limit, window, slack, steps, s, serial, 1, 0);
    FinishStage(s, clients, limit, window, slack, serial);
    Extend(clients, limit, window, slack, steps, s, DoAdd(0, 0));
    steps, s := steps + [DoAdd(0, 0)], Next(s, limit, window, DoAdd(0, 0));
    Extend(clients, limit, window, slack, steps, s, DoExpire(0, 0));
    steps, s := steps + [DoExpire(0, 0)], Next(s, limit, window, DoExpire(0, 0));
  }

  /** One client alone completes calls up to the limit. */
  lemma {:induction false} SerialRun(clients: nat, limit: int, window: int, slack: int, serial: nat)
    returns (steps: seq<Step>, s: State)
    requires clients >= 1 && window >= 0 && slack >= 0 && serial <= limit
    ensures LeadsTo(clients, limit, window, slack, steps, s, serial, 0, 0)
  {
    if serial == 0 {
      steps, s := [], Initial(clients);
    } else {
      steps, s := SerialRun(clients, limit, window, slack, serial - 1);
      steps, s := WholeCall(clients, limit, window, slack, steps, s, serial - 1);
    }
  }

  /** One below the limit, the clients prune one after another. */
  lemma {:induction false} PrunedRun(clients: nat, limit: int, window: int, slack: int, pruned: nat)
    returns (steps: seq<Step>, s: State)
    requires clients >= 1 && window >= 0 && slack >= 0 && limit >= 1 && pruned <= clients
    ensures LeadsTo(clients, limit, window, slack, steps, s, limit - 1, pruned, 0)
  {
    if pruned == 0 {
      steps, s := SerialRun(clients, limit, window, slack, limit - 1);
    } else {
      steps, s := PrunedRun(clients, limit, window, slack, pruned - 1);
      steps, s := PruneNext(clients, limit, window, slack, steps, s, limit - 1, pruned - 1);
    }
  }

  /** And then they count one after another, each before any of them adds. */
  lemma {:induction false} CountedRun(clients: nat, limit: int, window: int, slack: int, counted: nat)
    returns (steps: seq<Step>, s: State)
    requires clients >= 1 && window >= 0 && slack >= 0 && limit >= 1 && counted <= clients
    ensures LeadsTo(clients, limit, window, slack, steps, s, limit - 1, clients, counted)
  {
    if counted == 0 {
      steps, s := PrunedRun(clients, limit, window, slack, clients);
    } else {
      var before, p := CountedRun(clients, limit, window, slack, counted - 1);
      steps, s := CountNext(clients, limit, window, slack, before, p, limit - 1, clients, counted - 1);
    }
  }

  lemma {:induction false} AllWithin(admitted: seq<Admission>, n: nat, hi: int)
    requires n <= |admitted| && hi >= 0 && forall i :: 0 <= i < n ==> admitted[i].call.now == 0
    ensures AdmittedWithin(admitted, n, 0, hi) == n
  {
    if n > 0 {
      AllWithin(admitted, n - 1, hi);
    }
  }

  /** The overshoot bound cannot be improved: for every limit and number of clients some run, all in
      one millisecond, admits limit + N - 1 calls. */
  lemma OvershootAttained(clients: nat, limit: int, window: int, slack: int) returns (steps: seq<Step>, s: State)
    requires clients >= 1 && limit >= 1 && 0 <= slack <= window
    ensures Reachable(clients, limit, window, slack, steps, s)
    ensures AdmittedWithin(s.admitted, |s.admitted|, 0, window - slack) == limit + clients - 1
  {
    steps, s := CountedRun(clients, limit, window, slack, clients);
    AllWithin(s.admitted, |s.admitted|, window - slack);
  }
}

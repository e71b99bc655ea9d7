/** internal/crawler/worker.go: the consumer of crawl.queue, which also feeds that queue. */
module CrawlQueue {
  import opened Prelude

  const LISTING := "LISTING"
  const DETAIL := "DETAIL"
  const DEFAULT_FANOUT: nat := 50

  datatype Payload = Malformed(text: string) | Task(source: string, url: string, crawlType: string)
  datatype Message = Message(key: string, payload: Payload)
  datatype RawResult = RawResult(source: string, url: string, html: string)

  // What a publish of several messages did: all written, or an error after writing some of them.
  datatype BatchResult = AllWritten | BatchFailed(written: set<nat>)

  /** Everything outside the worker that decides a delivery: the rate limiter, robots.txt, the fetch,
      the listing parser (None is an unregistered source or a parse error), and the producer. */
  datatype Env = Env(rateLimitFails: bool, robotsAllow: bool, html: Option<string>, urls: Option<seq<string>>,
                     batch: BatchResult, rawFails: bool, dlqFails: bool)

  datatype Outcome = Forwarded | FannedOut | EmptyListing | RobotsSkipped | DeadLettered | Lost

  /** What one delivery appends to crawl.queue, jobs.raw and jobs.failed. */
  datatype Effects = Effects(enqueued: seq<Message>, raw: seq<RawResult>, failed: seq<Message>, outcome: Outcome)

  function DetailTask(source: string, url: string): Message {
    Message(source, Task(source, url, DETAIL))
  }

  function DetailTasks(source: string, urls: seq<string>): (r: seq<Message>)
    ensures |r| == |urls|
  {
    seq(|urls|, i requires 0 <= i < |urls| => DetailTask(source, urls[i]))
  }

  /** The messages at the written positions, in order. */
  function Written(messages: seq<Message>, written: set<nat>): (r: seq<Message>)
    ensures |r| <= |messages| && forall m :: m in r ==> m in messages
  {
    if messages == [] then []
    else Written(Front(messages), written) + if |messages| - 1 in written then [Last(messages)] else []
  }

  function Published(messages: seq<Message>, batch: BatchResult): seq<Message> {
    if batch.AllWritten? then messages else Written(messages, batch.written)
  }

  function DeadLetter(message: Message, enqueued: seq<Message>, dlqFails: bool): Effects {
    if dlqFails then Effects(enqueued, [], [], Lost) else Effects(enqueued, [], [message], DeadLettered)
  }

  function Fanout(message: Message, env: Env, maxFanout: nat): Effects
    requires message.payload.Task?
  {
    if env.urls.None? then DeadLetter(message, [], env.dlqFails)
    else if env.urls.value == [] then Effects([], [], [], EmptyListing)
    else
      var urls := if |env.urls.value| > maxFanout then env.urls.value[..maxFanout] else env.urls.value;
      var published := Published(DetailTasks(message.payload.source, urls), env.batch);
      if env.batch.BatchFailed? then DeadLetter(message, published, env.dlqFails)
      else Effects(published, [], [], FannedOut)
  }

  function Delivered(message: Message, env: Env, maxFanout: nat): Effects {
    if message.payload.Malformed? || env.rateLimitFails then DeadLetter(message, [], env.dlqFails)
    else if !env.robotsAllow then Effects([], [], [], RobotsSkipped)
    else if env.html.None? then DeadLetter(message, [], env.dlqFails)
    else if message.payload.crawlType == LISTING then Fanout(message, env, maxFanout)
    else if env.rawFails then DeadLetter(message, [], env.dlqFails)
    else Effects([], [RawResult(message.payload.source, message.payload.url, env.html.value)], [], Forwarded)
  }

  // ---- Which environment leads to which outcome ----

  /** The task is one that the limiter lets through and robots.txt allows. */
  predicate Admitted(message: Message, env: Env) {
    message.payload.Task? && !env.rateLimitFails && env.robotsAllow
  }

  /** Something that fails sends the message to the dead letters: a payload that does not unmarshal, the
      limiter, the fetch, the listing parser, the batch of detail tasks, or the publish of the page. What
      robots.txt forbids comes before the last four. */
  predicate Fails(message: Message, env: Env) {
    || message.payload.Malformed?
    || env.rateLimitFails
    || (env.robotsAllow && env.html.None?)
    || (env.robotsAllow && message.payload.crawlType == "LISTING" && env.urls.None?)
    || (env.robotsAllow && message.payload.crawlType == "LISTING" && env.urls != Some([]) && env.batch.BatchFailed?)
    || (env.robotsAllow && message.payload.crawlType != "LISTING" && env.rawFails)
  }

  /** The outcome of every delivery, condition by condition. */
  lemma OutcomeByCause(message: Message, env: Env, maxFanout: nat)
    ensures var o := Delivered(message, env, maxFanout).outcome;
            && (o == RobotsSkipped <==> message.payload.Task? && !env.rateLimitFails && !env.robotsAllow)
            && (o == Forwarded <==>
                  Admitted(message, env) && env.html.Some? && message.payload.crawlType != "LISTING" && !env.rawFails)
            && (o == EmptyListing <==>
                  Admitted(message, env) && env.html.Some? && message.payload.crawlType == "LISTING" && env.urls == Some([]))
            && (o == FannedOut <==>
                  Admitted(message, env) && env.html.Some? && message.payload.crawlType == "LISTING"
                  && env.urls.Some? && |env.urls.value| > 0 && env.batch.AllWritten?)
            && (o == DeadLettered <==> Fails(message, env) && !env.dlqFails)
            && (o == Lost <==> Fails(message, env) && env.dlqFails)
  {
  }

  /** What a failed batch leaves on the queue is the messages at the positions it had written, in order. */
  lemma {:induction false} WrittenPositions(messages: seq<Message>, written: set<nat>) returns (at: seq<nat>)
    ensures Positions(at, |messages|, k => k in written)
    ensures ElementsAt(messages, at, Written(messages, written))
  {
    if messages == [] {
      at := [];
    } else {
      var n, keep := |messages| - 1, (k: nat) => k in written;
      var before := WrittenPositions(Front(messages), written);
      NextPositionIsLast(before, n, keep);
      at := NextPosition(before, n, keep);
    }
  }

  // ---- The termination measure ----

  predicate IsListing(message: Message) {
    message.payload.Task? && message.payload.crawlType == LISTING
  }

  function Weight(message: Message, maxFanout: nat): (w: nat)
    ensures w >= 1
  {
    if IsListing(message) then maxFanout + 1 else 1
  }

  function TotalWeight(queue: seq<Message>, maxFanout: nat): nat {
    if queue == [] then 0 else TotalWeight(Front(queue), maxFanout) + Weight(Last(queue), maxFanout)
  }

  function Listings(queue: seq<Message>): nat {
    if queue == [] then 0 else Listings(Front(queue)) + if IsListing(Last(queue)) then 1 else 0
  }

  lemma {:induction false} WeightOfConcat(a: seq<Message>, b: seq<Message>, maxFanout: nat)
    ensures TotalWeight(a + b, maxFanout) == TotalWeight(a, maxFanout) + TotalWeight(b, maxFanout)
    ensures Listings(a + b) == Listings(a) + Listings(b)
  {
    if b == [] {
      assert a + b == a;
    } else {
      WeightOfConcat(a, Front(b), maxFanout);
      assert Front(a + b) == a + Front(b);
    }
  }

  /** q listings among the messages weigh q * maxFanout more than the messages number. */
  lemma {:induction false} WeightByListings(queue: seq<Message>, maxFanout: nat)
    ensures TotalWeight(queue, maxFanout) == |queue| + Listings(queue) * maxFanout
  {
    if queue != [] {
      WeightByListings(Front(queue), maxFanout);
    }
  }

  lemma {:induction false} NoListings(messages: seq<Message>, maxFanout: nat)
    requires forall m :: m in messages ==> !IsListing(m)
    ensures TotalWeight(messages, maxFanout) == |messages| && Listings(messages) == 0
  {
    if messages != [] {
      NoListings(Front(messages), maxFanout);
    }
  }

  /** A delivery puts back strictly less weight than it took, whatever fails and however much of a
      failed batch was written; only a listing puts back anything, and only detail tasks. */
  lemma DeliveryLosesWeight(message: Message, env: Env, maxFanout: nat)
    ensures var e := Delivered(message, env, maxFanout);
            && TotalWeight(e.enqueued, maxFanout) < Weight(message, maxFanout)
            && Listings(e.enqueued) == 0
            && (e.enqueued != [] ==> IsListing(message))
            && forall m :: m in e.enqueued ==> m.payload.Task? && m.payload.crawlType == DETAIL
  {
    NoListings(Delivered(message, env, maxFanout).enqueued, maxFanout);
  }

  /** Which topic a delivery wrote to says what became of it, and what it wrote. */
  lemma EffectsByOutcome(message: Message, env: Env, maxFanout: nat)
    ensures var e := Delivered(message, env, maxFanout);
            && |e.raw| == (if e.outcome == Forwarded then 1 else 0)
            && |e.failed| == (if e.outcome == DeadLettered then 1 else 0)
            && (e.outcome == FannedOut ==> IsListing(message))
  {
  }

  /** A forwarded page goes on under its own source and URL; a listing fans out into one detail task for
      each of its first maxFanout URLs, in order; a failed message is dead-lettered whole. */
  lemma DeliveryKeepsContent(message: Message, env: Env, maxFanout: nat)
    ensures var e := Delivered(message, env, maxFanout);
            && (e.outcome == Forwarded ==>
                  e.raw == [RawResult(message.payload.source, message.payload.url, env.html.value)] && !IsListing(message))
            && (e.outcome == FannedOut ==>
                  && |e.enqueued| == (if |env.urls.value| < maxFanout then |env.urls.value| else maxFanout)
                  && forall i :: 0 <= i < |e.enqueued| ==>
                       e.enqueued[i]
                       == Message(message.payload.source, Task(message.payload.source, env.urls.value[i], "DETAIL")))
            && (e.outcome == DeadLettered <==> e.failed == [message])
            && (e.outcome == Lost ==> env.dlqFails)
  {
  }

  /** Taking the message at position i, which no partition order restricts, and appending what its
      delivery enqueues. */
  function After(queue: seq<Message>, i: nat, env: Env, maxFanout: nat): seq<Message>
    requires i < |queue|
  {
    queue[..i] + queue[i + 1..] + Delivered(queue[i], env, maxFanout).enqueued
  }

  /** Every delivery strictly lowers the queue's total weight and never adds a listing. */
  lemma DeliveryLowersQueue(queue: seq<Message>, i: nat, env: Env, maxFanout: nat)
    requires i < |queue|
    ensures TotalWeight(After(queue, i, env, maxFanout), maxFanout) < TotalWeight(queue, maxFanout)
    ensures Listings(After(queue, i, env, maxFanout)) == Listings(queue) - if IsListing(queue[i]) then 1 else 0
  {
    var a, m, b := queue[..i], [queue[i]], queue[i + 1..];
    DeliveryLosesWeight(queue[i], env, maxFanout);
    assert queue == a + m + b;
    WeightOfConcat(a + m, b, maxFanout);
    WeightOfConcat(a, m, maxFanout);
    WeightOfConcat(a + b, Delivered(queue[i], env, maxFanout).enqueued, maxFanout);
    WeightOfConcat(a, b, maxFanout);
    assert Front(m) == [];
  }

  // ---- The worker ----

  class CrawlerWorker {
    var queue: seq<Message>
    var raw: seq<RawResult>
    var failed: seq<Message>
    var commits: nat
    const maxFanout: nat

    constructor (maxFanout: int)
      ensures queue == [] && raw == [] && failed == [] && commits == 0
      ensures this.maxFanout == if maxFanout <= 0 then 50 else maxFanout
    {
      queue, raw, failed, commits := [], [], [], 0;
      this.maxFanout := if maxFanout <= 0 then DEFAULT_FANOUT else maxFanout;
    }

    method PublishToDlq(message: Message, fails: bool) returns (outcome: Outcome)
      modifies this`failed
      ensures failed == old(failed) + DeadLetter(message, [], fails).failed
      ensures outcome == DeadLetter(message, [], fails).outcome
    {
      if fails {
        return Lost;
      }
      failed := failed + [message];
      return DeadLettered;
    }

    method Commit()
      modifies this`commits
      ensures commits == old(commits) + 1
    {
      commits := commits + 1;
    }

    /** Whether the listing was handled, and with what outcome if it was. */
    method FanoutListing(message: Message, env: Env) returns (ok: bool, outcome: Outcome)
      requires message.payload.Task?
      modifies this`queue
      ensures queue == old(queue) + Fanout(message, env, maxFanout).enqueued
      ensures ok <==> Fanout(message, env, maxFanout).outcome in {FannedOut, EmptyListing}
      ensures ok ==> outcome == Fanout(message, env, maxFanout).outcome
    {
      outcome := EmptyListing;
      if env.urls.None? {
        return false, outcome;
      }
      var urls := env.urls.value;
      if |urls| == 0 {
        return true, EmptyListing;
      }
      if |urls| > maxFanout {
        urls := urls[..maxFanout];
      }
      var msgs: seq<Message> := [];
      for i := 0 to |urls|
        invariant msgs == DetailTasks(message.payload.source, urls[..i])
      {
        msgs := msgs + [DetailTask(message.payload.source, urls[i])];
      }
      assert urls[..|urls|] == urls;
      queue := queue + Published(msgs, env.batch);
      return env.batch.AllWritten?, FannedOut;
    }

    /** processMessage, for a message that has been taken from the queue: exactly one outcome, its
        effects on the topics, and one commit attempt. */
    method ProcessMessage(message: Message, env: Env) returns (outcome: Outcome)
      modifies this
      ensures var e := Delivered(message, env, maxFanout);
              && queue == old(queue) + e.enqueued && raw == old(raw) + e.raw && failed == old(failed) + e.failed
              && outcome == e.outcome && commits == old(commits) + 1
    {
      if message.payload.Malformed? {
        outcome := PublishToDlq(message, env.dlqFails);
        Commit();
        return;
      }
      if env.rateLimitFails {
        outcome := PublishToDlq(message, env.dlqFails);
        Commit();
        return;
      }
      if !env.robotsAllow {
        Commit();
        return RobotsSkipped;
      }
      if env.html.None? {
        outcome := PublishToDlq(message, env.dlqFails);
        Commit();
        return;
      }
      if message.payload.crawlType == LISTING {
        var ok;
        ok, outcome := FanoutListing(message, env);
        if !ok {
          outcome := PublishToDlq(message, env.dlqFails);
          Commit();
          return;
        }
      } else {
        if env.rawFails {
          outcome := PublishToDlq(message, env.dlqFails);
          Commit();
          return;
        }
        raw := raw + [RawResult(message.payload.source, message.payload.url, env.html.value)];
        outcome := Forwarded;
      }
      Commit();
    }

    /** The consumer loop on a queue that nobody else feeds: it empties the queue, with at most as many
        deliveries as the queue's weight, in whatever order messages come and whatever fails. */
    method Drain(order: nat -> nat, world: nat -> Env) returns (outcomes: seq<Outcome>)
      modifies this
      ensures queue == []
      ensures |outcomes| <= |old(queue)| + Listings(old(queue)) * maxFanout
      ensures commits == old(commits) + |outcomes|
      ensures |raw| == |old(raw)| + Tally(outcomes, Forwarded)
      ensures |failed| == |old(failed)| + Tally(outcomes, DeadLettered)
    {
      outcomes := [];
      WeightByListings(queue, maxFanout);
      while queue != []
        invariant |outcomes| + TotalWeight(queue, maxFanout) <= |old(queue)| + Listings(old(queue)) * maxFanout
        invariant commits == old(commits) + |outcomes|
        invariant |raw| == |old(raw)| + Tally(outcomes, Forwarded)
        invariant |failed| == |old(failed)| + Tally(outcomes, DeadLettered)
        decreases TotalWeight(queue, maxFanout)
      {
        var i, env := order(|outcomes|) % |queue|, world(|outcomes|);
        DeliveryLowersQueue(queue, i, env, maxFanout);
        var message := queue[i];
        EffectsByOutcome(message, env, maxFanout);
        queue := queue[..i] + queue[i + 1..];
        var outcome := ProcessMessage(message, env);
        TallyAppend(outcomes, outcome);
        outcomes := outcomes + [outcome];
      }
    }
  }

  // ---- Runs with arrivals ----

  /** Arrivals are the scheduler's tasks, and any message redelivered after a failed commit. */
  datatype Event = Arrive(message: Message) | Deliver(i: nat, env: Env)

  datatype Run = Run(queue: seq<Message>, raw: seq<RawResult>, failed: seq<Message>, commits: nat, outcomes: seq<Outcome>)

  function Step(r: Run, e: Event, maxFanout: nat): Run {
    match e
    case Arrive(message) => r.(queue := r.queue + [message])
    case Deliver(i, env) =>
      if i >= |r.queue| then r
      else
        var d := Delivered(r.queue[i], env, maxFanout);
        Run(After(r.queue, i, env, maxFanout), r.raw + d.raw, r.failed + d.failed, r.commits + 1, r.outcomes + [d.outcome])
  }

  function RunAll(events: seq<Event>, maxFanout: nat): Run {
    if events == [] then Run([], [], [], 0, []) else Step(RunAll(Front(events), maxFanout), Last(events), maxFanout)
  }

  function Arrivals(events: seq<Event>): seq<Message> {
    if events == [] then []
    else Arrivals(Front(events)) + if Last(events).Arrive? then [Last(events).message] else []
  }

  ghost predicate WithinArrivals(r: Run, arrived: seq<Message>, maxFanout: nat) {
    && |r.outcomes| + TotalWeight(r.queue, maxFanout) <= TotalWeight(arrived, maxFanout)
    && Tally(r.outcomes, FannedOut) + Listings(r.queue) <= Listings(arrived)
  }

  lemma ArrivalStaysWithin(r: Run, arrived: seq<Message>, message: Message, maxFanout: nat)
    requires WithinArrivals(r, arrived, maxFanout)
    ensures WithinArrivals(r.(queue := r.queue + [message]), arrived + [message], maxFanout)
  {
    WeightOfConcat(r.queue, [message], maxFanout);
    WeightOfConcat(arrived, [message], maxFanout);
  }

  lemma DeliveryStaysWithin(r: Run, arrived: seq<Message>, i: nat, env: Env, maxFanout: nat)
    requires WithinArrivals(r, arrived, maxFanout) && i < |r.queue|
    ensures WithinArrivals(Step(r, Deliver(i, env), maxFanout), arrived, maxFanout)
  {
    DeliveryLowersQueue(r.queue, i, env, maxFanout);
    EffectsByOutcome(r.queue[i], env, maxFanout);
    TallyAppend(r.outcomes, Delivered(r.queue[i], env, maxFanout).outcome);
  }

  lemma {:induction false} RunsStayWithinArrivals(events: seq<Event>, maxFanout: nat)
    ensures WithinArrivals(RunAll(events, maxFanout), Arrivals(events), maxFanout)
  {
    if events != [] {
      RunsStayWithinArrivals(Front(events), maxFanout);
      var p, arrived, e := RunAll(Front(events), maxFanout), Arrivals(Front(events)), Last(events);
      if e.Arrive? {
        ArrivalStaysWithin(p, arrived, e.message, maxFanout);
      } else {
        assert arrived + [] == arrived;
        if e.i < |p.queue| { DeliveryStaysWithin(p, arrived, e.i, e.env, maxFanout); }
      }
    }
  }

  /** Fan-out terminates: on any run the deliveries so far and the weight still queued stay within
      the weight of what arrived; so q listings and d other messages cause at most
      q * (maxFanout + 1) + d deliveries, and at most q fan-outs. */
  lemma FanoutTerminates(events: seq<Event>, maxFanout: nat)
    ensures var r, arrived := RunAll(events, maxFanout), Arrivals(events);
            && |r.outcomes| + TotalWeight(r.queue, maxFanout) <= TotalWeight(arrived, maxFanout)
            && |r.outcomes| <= Listings(arrived) * (maxFanout + 1) + (|arrived| - Listings(arrived))
            && Tally(r.outcomes, FannedOut) + Listings(r.queue) <= Listings(arrived)
  {
    RunsStayWithinArrivals(events, maxFanout);
    WithinCounts(RunAll(events, maxFanout), Arrivals(events), maxFanout);
  }

  lemma WithinCounts(r: Run, arrived: seq<Message>, maxFanout: nat)
    requires WithinArrivals(r, arrived, maxFanout)
    ensures |r.outcomes| <= Listings(arrived) * (maxFanout + 1) + (|arrived| - Listings(arrived))
  {
    WeightByListings(arrived, maxFanout);
    var q := Listings(arrived);
    assert q * (maxFanout + 1) == q * maxFanout + q;
  }

  ghost predicate Conserved(r: Run) {
    && r.commits == |r.outcomes|
    && |r.raw| == Tally(r.outcomes, Forwarded)
    && |r.failed| == Tally(r.outcomes, DeadLettered)
    && r.commits == |r.raw| + Tally(r.outcomes, FannedOut) + Tally(r.outcomes, EmptyListing)
                    + Tally(r.outcomes, RobotsSkipped) + |r.failed| + Tally(r.outcomes, Lost)
  }

  lemma DeliveryConserves(r: Run, i: nat, env: Env, maxFanout: nat)
    requires Conserved(r) && i < |r.queue|
    ensures Conserved(Step(r, Deliver(i, env), maxFanout))
  {
    EffectsByOutcome(r.queue[i], env, maxFanout);
    TallyAppend(r.outcomes, Delivered(r.queue[i], env, maxFanout).outcome);
  }

  /** Conservation: every delivery is committed once and has exactly one of six outcomes; jobs.raw
      holds one message per forward, jobs.failed one per dead letter, and the rest left no message. */
  lemma {:induction false} DeliveriesAreConserved(events: seq<Event>, maxFanout: nat)
    ensures Conserved(RunAll(events, maxFanout))
  {
    if events != [] {
      DeliveriesAreConserved(Front(events), maxFanout);
      var p, e := RunAll(Front(events), maxFanout), Last(events);
      if e.Deliver? && e.i < |p.queue| { DeliveryConserves(p, e.i, e.env, maxFanout); }
    }
  }

  // ---- Where messages come from ----

  /** The message arrived, or is a detail task for the source of a listing that arrived. */
  ghost predicate Derives(m: Message, arrived: seq<Message>) {
    m in arrived || exists l :: l in arrived && IsListing(l) && IsDetailOf(m, l)
  }

  predicate IsDetailOf(m: Message, l: Message)
    requires l.payload.Task?
  {
    m.key == l.payload.source && m.payload.Task?
    && m.payload.source == l.payload.source && m.payload.crawlType == DETAIL
  }

  /** A page on jobs.raw is one that a task which is not a listing asked for. */
  ghost predicate IsPageOf(x: RawResult, m: Message) {
    m.payload.Task? && !IsListing(m) && x.source == m.payload.source && x.url == m.payload.url
  }

  ghost predicate AllDerive(r: Run, arrived: seq<Message>) {
    && (forall m :: m in r.queue || m in r.failed ==> Derives(m, arrived))
    && (forall x :: x in r.raw ==> exists m :: Derives(m, arrived) && IsPageOf(x, m))
  }

  /** Details spawn nothing, so a listing derives its details directly. */
  lemma DeliveryDerives(r: Run, arrived: seq<Message>, i: nat, env: Env, maxFanout: nat)
    requires AllDerive(r, arrived) && i < |r.queue|
    ensures AllDerive(Step(r, Deliver(i, env), maxFanout), arrived)
  {
    var message, d := r.queue[i], Delivered(r.queue[i], env, maxFanout);
    DeliveryLosesWeight(message, env, maxFanout);
    assert Derives(message, arrived);
    forall m | m in d.enqueued ensures Derives(m, arrived) {
      assert IsDetailOf(m, message);
      assert message in arrived;
    }
    forall x | x in d.raw ensures IsPageOf(x, message) {
    }
  }

  lemma ArrivalDerives(r: Run, arrived: seq<Message>, message: Message)
    requires AllDerive(r, arrived)
    ensures AllDerive(r.(queue := r.queue + [message]), arrived + [message])
  {
    forall m | Derives(m, arrived) ensures Derives(m, arrived + [message]) {
    }
  }

  /** Provenance: on any run, every message on the queue or in jobs.failed arrived or is a detail task
      of a listing that arrived, and every page in jobs.raw is the page of such a message, under its own
      source and URL. No chain of fan-outs is longer than one. */
  lemma {:induction false} EverythingDerives(events: seq<Event>, maxFanout: nat)
    ensures AllDerive(RunAll(events, maxFanout), Arrivals(events))
  {
    if events != [] {
      EverythingDerives(Front(events), maxFanout);
      var p, arrived, e := RunAll(Front(events), maxFanout), Arrivals(Front(events)), Last(events);
      if e.Arrive? {
        ArrivalDerives(p, arrived, e.message);
      } else {
        assert arrived + [] == arrived;
        if e.i < |p.queue| { DeliveryDerives(p, arrived, e.i, e.env, maxFanout); }
      }
    }
  }

  // ---- robots.txt, and runs in which nothing fails ----

  /** A delivery goes past the check of robots.txt only with a URL for which the check answers yes. */
  ghost predicate AsksRobots(events: seq<Event>, maxFanout: nat, allowed: string -> bool)
    decreases |events|
  {
    events == []
    || (AsksRobots(Front(events), maxFanout, allowed)
        && AnswersFor(RunAll(Front(events), maxFanout).queue, Last(events), allowed))
  }

  predicate AnswersFor(queue: seq<Message>, e: Event, allowed: string -> bool) {
    e.Deliver? && e.i < |queue| && queue[e.i].payload.Task? && e.env.robotsAllow ==> allowed(queue[e.i].payload.url)
  }

  /** The message arrived, or is a detail task of a listing that arrived and is allowed. */
  ghost predicate DerivesAllowed(m: Message, arrived: seq<Message>, allowed: string -> bool) {
    m in arrived || exists l :: l in arrived && IsListing(l) && allowed(l.payload.url) && IsDetailOf(m, l)
  }

  ghost predicate Obeys(r: Run, arrived: seq<Message>, allowed: string -> bool) {
    && (forall x :: x in r.raw ==> allowed(x.url))
    && (forall m :: m in r.queue ==> DerivesAllowed(m, arrived, allowed))
  }

  lemma DeliveryObeys(r: Run, arrived: seq<Message>, e: Event, maxFanout: nat, allowed: string -> bool)
    requires Obeys(r, arrived, allowed) && e.Deliver? && e.i < |r.queue| && AnswersFor(r.queue, e, allowed)
    ensures Obeys(Step(r, e, maxFanout), arrived, allowed)
  {
    var message, d := r.queue[e.i], Delivered(r.queue[e.i], e.env, maxFanout);
    DeliveryLosesWeight(message, e.env, maxFanout);
    assert DerivesAllowed(message, arrived, allowed);
    forall m | m in d.enqueued ensures DerivesAllowed(m, arrived, allowed) {
      assert IsDetailOf(m, message) && allowed(message.payload.url);
      assert message in arrived;
    }
  }

  lemma ArrivalObeys(r: Run, arrived: seq<Message>, message: Message, allowed: string -> bool)
    requires Obeys(r, arrived, allowed)
    ensures Obeys(r.(queue := r.queue + [message]), arrived + [message], allowed)
  {
    forall m | DerivesAllowed(m, arrived, allowed) ensures DerivesAllowed(m, arrived + [message], allowed) {
    }
  }

  /** The check is obeyed: on any run, whatever fails, no page that it refuses reaches jobs.raw, and no
      listing that it refuses puts anything on the queue. */
  lemma {:induction false} RobotsAreObeyed(events: seq<Event>, maxFanout: nat, allowed: string -> bool)
    requires AsksRobots(events, maxFanout, allowed)
    ensures Obeys(RunAll(events, maxFanout), Arrivals(events), allowed)
  {
    if events != [] {
      RobotsAreObeyed(Front(events), maxFanout, allowed);
      var p, arrived, e := RunAll(Front(events), maxFanout), Arrivals(Front(events)), Last(events);
      if e.Arrive? {
        ArrivalObeys(p, arrived, e.message, allowed);
      } else {
        assert arrived + [] == arrived;
        if e.i < |p.queue| { DeliveryObeys(p, arrived, e, maxFanout, allowed); }
      }
    }
  }

  /** Every arrival unmarshals, and of the deliveries none is forbidden and nothing fails. */
  ghost predicate FaultFree(events: seq<Event>) {
    forall e :: e in events ==> Faultless(e)
  }

  predicate Faultless(e: Event) {
    match e
    case Arrive(message) => message.payload.Task?
    case Deliver(_, env) => !env.rateLimitFails && env.robotsAllow && env.html.Some? && env.urls.Some? && env.batch.AllWritten?
                            && !env.rawFails
  }

  ghost predicate Succeeded(r: Run) {
    && (forall m :: m in r.queue ==> m.payload.Task?)
    && (forall o :: o in r.outcomes ==> o in {Forwarded, FannedOut, EmptyListing})
    && r.failed == []
  }

  /** When nothing fails and nothing is forbidden, every delivery is forwarded, fanned out or an empty
      listing, and nothing is dead-lettered. */
  lemma {:induction false} FaultFreeRunsSucceed(events: seq<Event>, maxFanout: nat)
    requires FaultFree(events)
    ensures Succeeded(RunAll(events, maxFanout))
  {
    if events != [] {
      FaultFreeRunsSucceed(Front(events), maxFanout);
      var p, e := RunAll(Front(events), maxFanout), Last(events);
      assert e in events && Faultless(e);
      if e.Deliver? && e.i < |p.queue| {
        assert p.queue[e.i] in p.queue;
        OutcomeByCause(p.queue[e.i], e.env, maxFanout);
        EffectsByOutcome(p.queue[e.i], e.env, maxFanout);
        DeliveryLosesWeight(p.queue[e.i], e.env, maxFanout);
      }
    }
  }
}

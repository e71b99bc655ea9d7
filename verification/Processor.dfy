/** internal/processor/worker.go and dlq.go: one message end to end, and the consumer loop. */
module Processor {
  import opened Prelude
  import opened Jobs
  import opened JobStore
  import opened Dedup
  import Fingerprint
  import JobCap
  import DedupRuns
  import Salary

  datatype Body = Malformed(text: string) | Raw(source: string, url: string, html: string)
  datatype Message = Message(key: string, offset: string, body: Body)
  datatype RawJob = RawJob(title: string, company: string, location: string, salaryText: string,
                           description: string, externalId: string)
  datatype DeadLetter = DeadLetter(key: string, message: Message)

  // The sources in the crawler registry; LINKEDIN has no crawler.
  const REGISTERED: set<string> := {"STEPSTONE", "XING", "INDEED"}

  /** The text functions the worker calls and this model does not open. */
  datatype Tools = Tools(
    low: char -> char, hash: string -> string, normalizeTitle: string -> string, normalizeLocation: string -> string,
    detectRemote: string -> string, extractTags: (string, string) -> seq<string>)

  /** Everything outside the worker that decides a delivery. `parsed` is ParseDetail's result. */
  datatype Env = Env(urlAt: int, urlFails: bool, parsed: Option<RawJob>, contentAt: int, contentFails: bool,
                     now: int, newId: string, dbFault: DbFault, publishFails: bool, dlqFails: bool)

  datatype Outcome = Persisted | UrlDuplicate | ContentDuplicate | CapSkipped | DeadLettered | Lost

  /** The state a delivery can change. `processed` holds the ids published to jobs.processed. */
  datatype World = World(claims: Claims, rows: Table, jobCount: int, processed: seq<string>,
                         failed: seq<DeadLetter>, commits: nat)

  function FingerprintOf(raw: RawJob, tools: Tools): string {
    Fingerprint.Fingerprint(raw.title, raw.company, raw.location, tools.low, tools.hash)
  }

  function BuildJob(raw: RawJob, source: string, url: string, tools: Tools): Job {
    var salary := Salary.ParseSalary(raw.salaryText);
    Job(raw.externalId, source, tools.normalizeTitle(raw.title), raw.company, "", tools.normalizeLocation(raw.location), "",
        tools.detectRemote(raw.description), salary.min, salary.max, salary.currency, raw.description,
        tools.extractTags(raw.title, raw.description), url, FingerprintOf(raw, tools), None, None)
  }

  function DeadLetterKey(m: Message): string {
    if m.key == "" then "unknown-" + m.offset else m.key
  }

  /** PublishToDLQ never fails its caller: the message is dead-lettered or lost. */
  function ToDlq(w: World, m: Message, fails: bool): (World, Outcome) {
    if fails then (w, Lost) else (w.(failed := w.failed + [DeadLetter(DeadLetterKey(m), m)]), DeadLettered)
  }

  function Claimed(claims: Claims, key: string, at: int, ttl: int, fails: bool): Claims {
    if fails then claims else SetNX(claims, key, at, ttl)
  }

  function Seen(claims: Claims, key: string, at: int, fails: bool): bool {
    !fails && Taken(claims, key, at)
  }

  /** Steps 6 and 7 for a job that passed both checks. */
  ghost function Stored(w: World, m: Message, job: Job, env: Env, maxTotal: int): (World, Outcome) {
    if JobCap.AtCap(w.jobCount, maxTotal) then (w, CapSkipped)
    else
      var u := w.(rows := if env.dbFault == NotCommitted then w.rows else Upserted(w.rows, job, env.now, env.newId));
      if env.dbFault != NoFault || !UpsertSucceeds(w.rows, job, env.newId) then ToDlq(u, m, env.dlqFails)
      else
        var v := u.(jobCount := w.jobCount + if maxTotal > 0 then 1 else 0);
        (if env.publishFails then v else v.(processed := v.processed + [StoredId(v.rows, job.fingerprint)]), Persisted)
  }

  /** The job that steps 3 and 5 make of a message, unless its source has no crawler or parsing fails. */
  function ParsedJob(m: Message, env: Env, tools: Tools): Option<Job>
    requires m.body.Raw?
  {
    if m.body.source !in REGISTERED || env.parsed.None? then None
    else Some(BuildJob(env.parsed.value, m.body.source, m.body.url, tools))
  }

  /** Steps 2 to 7 for a message that unmarshals, given its URL key and the job parsed from it. */
  ghost function Handled(w: World, m: Message, env: Env, urlKey: string, job: Option<Job>, maxTotal: int): (World, Outcome) {
    var v := w.(claims := Claimed(w.claims, urlKey, env.urlAt, URL_TTL, env.urlFails));
    if Seen(w.claims, urlKey, env.urlAt, env.urlFails) then (v, UrlDuplicate)
    else if job.None? then ToDlq(v, m, env.dlqFails)
    else
      var jobKey := JobKey(job.value.fingerprint);
      var u := v.(claims := Claimed(v.claims, jobKey, env.contentAt, JOB_TTL, env.contentFails));
      if Seen(v.claims, jobKey, env.contentAt, env.contentFails) then (u, ContentDuplicate)
      else Stored(u, m, job.value, env, maxTotal)
  }

  /** processMessage: whatever happens, the offset is committed once. */
  ghost function Processed(w: World, m: Message, env: Env, tools: Tools, maxTotal: int): (World, Outcome) {
    var r := if m.body.Malformed? then ToDlq(w, m, env.dlqFails)
             else Handled(w, m, env, UrlKey(m.body.url, tools.hash), ParsedJob(m, env, tools), maxTotal);
    (r.0.(commits := r.0.commits + 1), r.1)
  }

  // ---- The worker ----

  class ProcessorWorker {
    const dedup: Deduplicator
    const repo: JobRepo
    const maxTotalJobs: int
    var jobCount: int
    var processed: seq<string>
    var failed: seq<DeadLetter>
    var commits: nat

    constructor (dedup: Deduplicator, repo: JobRepo, maxTotalJobs: int)
      ensures this.dedup == dedup && this.repo == repo && this.maxTotalJobs == maxTotalJobs
      ensures jobCount == 0 && processed == [] && failed == [] && commits == 0
    {
      this.dedup, this.repo, this.maxTotalJobs := dedup, repo, maxTotalJobs;
      jobCount, processed, failed, commits := 0, [], [], 0;
    }

    ghost function Snapshot(): World
      reads this, dedup, repo
    {
      World(dedup.claims, repo.rows, jobCount, processed, failed, commits)
    }

    predicate AtCap()
      reads this
    {
      maxTotalJobs > 0 && jobCount >= maxTotalJobs
    }

    /** A failed count keeps the previous value. */
    method RefreshCount(fails: bool)
      modifies this`jobCount
      ensures jobCount == if fails then old(jobCount) else |repo.rows|
    {
      if fails {
        return;
      }
      jobCount := repo.Count();
    }

    method PublishToDlq(m: Message, fails: bool) returns (outcome: Outcome)
      modifies this`failed
      ensures (Snapshot(), outcome) == ToDlq(old(Snapshot()), m, fails)
    {
      if fails {
        return Lost;
      }
      failed := failed + [DeadLetter(DeadLetterKey(m), m)];
      return DeadLettered;
    }

    method Persist(m: Message, job: Job, env: Env) returns (outcome: Outcome)
      requires WellFormed(repo.rows)
      modifies this, repo
      ensures WellFormed(repo.rows)
      ensures (Snapshot(), outcome) == Stored(old(Snapshot()), m, job, env, maxTotalJobs)
    {
      if AtCap() {
        return CapSkipped;
      }
      var ok, id, createdAt, updatedAt := repo.Upsert(job, env.now, env.newId, env.dbFault);
      if !ok {
        outcome := PublishToDlq(m, env.dlqFails);
        return;
      }
      if maxTotalJobs > 0 {
        jobCount := jobCount + 1;
      }
      if !env.publishFails {
        processed := processed + [id];
      }
      return Persisted;
    }

    method Handle(m: Message, env: Env, tools: Tools) returns (outcome: Outcome)
      requires WellFormed(repo.rows) && m.body.Raw?
      modifies this, dedup, repo
      ensures WellFormed(repo.rows)
      ensures (Snapshot(), outcome)
           == Handled(old(Snapshot()), m, env, UrlKey(m.body.url, tools.hash), ParsedJob(m, env, tools), maxTotalJobs)
    {
      var isCrawled, urlErr := dedup.IsUrlCrawled(m.body.url, tools.hash, env.urlAt, env.urlFails);
      if isCrawled {
        return UrlDuplicate;
      }
      if m.body.source !in REGISTERED || env.parsed.None? {
        outcome := PublishToDlq(m, env.dlqFails);
        return;
      }
      var raw := env.parsed.value;
      var isDup, dupErr := dedup.IsDuplicate(raw.title, raw.company, raw.location, tools.low, tools.hash,
                                             env.contentAt, env.contentFails);
      if isDup {
        return ContentDuplicate;
      }
      outcome := Persist(m, BuildJob(raw, m.body.source, m.body.url, tools), env);
    }

    method ProcessMessage(m: Message, env: Env, tools: Tools) returns (outcome: Outcome)
      requires WellFormed(repo.rows)
      modifies this, dedup, repo
      ensures WellFormed(repo.rows)
      ensures (Snapshot(), outcome) == Processed(old(Snapshot()), m, env, tools, maxTotalJobs)
    {
      if m.body.Malformed? {
        outcome := PublishToDlq(m, env.dlqFails);
      } else {
        outcome := Handle(m, env, tools);
      }
      commits := commits + 1;
    }

    /** The consumer loop over the messages fetched until shutdown, after the startup count. */
    method Start(messages: seq<(Message, Env)>, countFails: bool, tools: Tools) returns (outcomes: seq<Outcome>)
      requires WellFormed(repo.rows)
      modifies this, dedup, repo
      ensures WellFormed(repo.rows)
      ensures (Snapshot(), outcomes)
           == RunAll(old(Snapshot()).(jobCount := if maxTotalJobs > 0 && !countFails then |old(repo.rows)| else old(jobCount)),
                     messages, |messages|, tools, maxTotalJobs)
    {
      if maxTotalJobs > 0 {
        RefreshCount(countFails);
      }
      outcomes := [];
      ghost var start := Snapshot();
      for i := 0 to |messages|
        invariant WellFormed(repo.rows)
        invariant (Snapshot(), outcomes) == RunAll(start, messages, i, tools, maxTotalJobs)
      {
        var outcome := ProcessMessage(messages[i].0, messages[i].1, tools);
        outcomes := outcomes + [outcome];
      }
    }
  }

  // ---- Runs ----

  ghost function RunAll(w: World, messages: seq<(Message, Env)>, n: nat, tools: Tools, maxTotal: int): (r: (World, seq<Outcome>))
    requires n <= |messages|
    ensures |r.1| == n
  {
    if n == 0 then (w, [])
    else
      var before := RunAll(w, messages, n - 1, tools, maxTotal);
      var last := Processed(before.0, messages[n - 1].0, messages[n - 1].1, tools, maxTotal);
      (last.0, before.1 + [last.1])
  }

  /** What one delivery leaves behind, but for its commit, says which outcome it had; `unseen` is an
      upsert that was committed and reported as failed. */
  ghost predicate Accounts(w: World, v: World, o: Outcome, unseen: bool) {
    && |v.failed| == |w.failed| + (if o == DeadLettered then 1 else 0)
    && |w.processed| <= |v.processed| <= |w.processed| + (if o == Persisted then 1 else 0)
    && |v.rows| <= |w.rows| + (if o == Persisted || unseen then 1 else 0)
    && (o != Persisted && !unseen ==> v.rows == w.rows)
    && (o != Persisted ==> v.jobCount == w.jobCount)
  }

  lemma StoredAccounts(w: World, m: Message, job: Job, env: Env, maxTotal: int)
    ensures var r := Stored(w, m, job, env, maxTotal);
            Accounts(w, r.0, r.1, env.dbFault.CommittedUnseen?) && r.0.commits == w.commits
  {
    UpsertSize(w.rows, job, env.now, env.newId);
  }

  lemma HandledAccounts(w: World, m: Message, env: Env, urlKey: string, job: Option<Job>, maxTotal: int)
    ensures var r := Handled(w, m, env, urlKey, job, maxTotal);
            Accounts(w, r.0, r.1, env.dbFault.CommittedUnseen?) && r.0.commits == w.commits
  {
    if job.Some? {
      var v := w.(claims := Claimed(w.claims, urlKey, env.urlAt, URL_TTL, env.urlFails));
      var u := v.(claims := Claimed(v.claims, JobKey(job.value.fingerprint), env.contentAt, JOB_TTL, env.contentFails));
      StoredAccounts(u, m, job.value, env, maxTotal);
    }
  }

  lemma DeliveryAccounts(w: World, m: Message, env: Env, tools: Tools, maxTotal: int)
    ensures var r := Processed(w, m, env, tools, maxTotal);
            Accounts(w, r.0, r.1, env.dbFault.CommittedUnseen?) && r.0.commits == w.commits + 1
  {
    if m.body.Raw? {
      HandledAccounts(w, m, env, UrlKey(m.body.url, tools.hash), ParsedJob(m, env, tools), maxTotal);
    }
  }

  ghost predicate Conserved(w: World, v: World, outcomes: seq<Outcome>, unseen: nat) {
    && v.commits == w.commits + |outcomes|
    && |outcomes| == Tally(outcomes, Persisted) + Tally(outcomes, UrlDuplicate) + Tally(outcomes, ContentDuplicate)
                     + Tally(outcomes, CapSkipped) + Tally(outcomes, DeadLettered) + Tally(outcomes, Lost)
    && |v.failed| == |w.failed| + Tally(outcomes, DeadLettered)
    && |v.processed| <= |w.processed| + Tally(outcomes, Persisted)
    && |v.rows| <= |w.rows| + Tally(outcomes, Persisted) + unseen
  }

  lemma ConservedStep(w: World, v: World, outcomes: seq<Outcome>, unseen: nat, u: World, o: Outcome, also: bool)
    requires Conserved(w, v, outcomes, unseen) && Accounts(v, u, o, also) && u.commits == v.commits + 1
    ensures Conserved(w, u, outcomes + [o], unseen + if also then 1 else 0)
  {
    TallyAppend(outcomes, o);
  }

  /** The upserts among the first n deliveries that were committed and reported as failed. */
  function Unseen(messages: seq<(Message, Env)>, n: nat): nat
    requires n <= |messages|
  {
    if n == 0 then 0 else Unseen(messages, n - 1) + if messages[n - 1].1.dbFault.CommittedUnseen? then 1 else 0
  }

  lemma DeliveryConserves(w: World, before: World, outcomes: seq<Outcome>, unseen: nat, m: Message, env: Env,
          tools: Tools, maxTotal: int)
    requires Conserved(w, before, outcomes, unseen)
    ensures var r := Processed(before, m, env, tools, maxTotal);
            Conserved(w, r.0, outcomes + [r.1], unseen + if env.dbFault.CommittedUnseen? then 1 else 0)
  {
    DeliveryAccounts(before, m, env, tools, maxTotal);
    var r := Processed(before, m, env, tools, maxTotal);
    ConservedStep(w, before, outcomes, unseen, r.0, r.1, env.dbFault.CommittedUnseen?);
  }

  /** Conservation: every delivery is committed once and has exactly one of six outcomes; jobs.failed
      grows by the dead-lettered ones, only persisted ones publish, and rows come only from those and from
      upserts that were committed and reported as failed. */
  lemma {:induction false} DeliveriesAreConserved(w: World, messages: seq<(Message, Env)>, n: nat, tools: Tools, maxTotal: int)
    requires n <= |messages|
    ensures var r := RunAll(w, messages, n, tools, maxTotal); Conserved(w, r.0, r.1, Unseen(messages, n))
  {
    if n == 0 {
      assert Conserved(w, w, [], 0);
    } else {
      DeliveriesAreConserved(w, messages, n - 1, tools, maxTotal);
      var before := RunAll(w, messages, n - 1, tools, maxTotal);
      DeliveryConserves(w, before.0, before.1, Unseen(messages, n - 1), messages[n - 1].0, messages[n - 1].1, tools, maxTotal);
    }
  }

  /** The cap machine's check, upsert and bump for one job, with nothing in between. */
  function CapSteps(s: JobCap.State, job: Job, env: Env, maxTotal: int): JobCap.State
    requires s.worker.Idle? && s.refresher.Waiting?
  {
    var checked := JobCap.Next(s, maxTotal, 0, JobCap.Check(job));
    if checked.worker.Idle? then checked
    else
      var saved := JobCap.Next(checked, maxTotal, 0, JobCap.Persist(env.now, env.newId, env.dbFault));
      if saved.worker.Idle? then saved else JobCap.Next(saved, maxTotal, 0, JobCap.Bump)
  }

  /** Those steps are what the worker does to the table and the counter, whether the database fails or
      not, so the bounds proved for the machine are bounds for the worker. */
  lemma PersistIsCapSteps(w: World, m: Message, job: Job, env: Env, maxTotal: int)
    requires maxTotal > 0
    ensures var v, s := Stored(w, m, job, env, maxTotal).0, CapSteps(JobCap.Started(w.rows, w.jobCount), job, env, maxTotal);
            s.rows == v.rows && s.counter == v.jobCount && s.worker.Idle? && s.refresher.Waiting?
  {
  }

  /** The claim machine's steps for one delivery, with nothing in between; `commits` says whether its
      upsert is committed if it comes to that. */
  function DedupSteps(s: DedupRuns.State, id: nat, env: Env, urlKey: string, job: Option<Job>, commits: bool): DedupRuns.State
    requires id !in s.deliveries && s.clock <= env.urlAt <= env.contentAt && IsUrlKey(urlKey)
    requires job.Some? ==> !IsUrlKey(JobKey(job.value.fingerprint))
  {
    var checked := DedupRuns.Next(s, DedupRuns.CheckUrl(id, urlKey, env.urlAt, env.urlFails));
    if id !in checked.deliveries then checked
    else if job.None? then DedupRuns.Next(checked, DedupRuns.GiveUp(id))
    else
      var key := JobKey(job.value.fingerprint);
      var passed := DedupRuns.Next(checked, DedupRuns.CheckContent(id, key, env.contentAt, env.contentFails));
      if !passed.deliveries[id].open then passed
      else DedupRuns.Next(passed, if commits then DedupRuns.Persist(id) else DedupRuns.GiveUp(id))
  }

  /** Whether the upsert of a job that passed both checks reaches the table, acknowledged or not. */
  predicate Commits(w: World, job: Option<Job>, env: Env, maxTotal: int) {
    job.Some? && !JobCap.AtCap(w.jobCount, maxTotal) && env.dbFault != NotCommitted
    && UpsertSucceeds(w.rows, job.value, env.newId)
  }

  predicate PersistedBy(s: DedupRuns.State, id: nat) {
    id in s.deliveries && s.deliveries[id].persisted
  }

  /** What storing does to the table, by whether the upsert is committed. */
  lemma StoredByCommit(w: World, m: Message, job: Job, env: Env, maxTotal: int)
    ensures var r := Stored(w, m, job, env, maxTotal);
            && r.0.claims == w.claims
            && r.0.rows == (if Commits(w, Some(job), env, maxTotal) then Upserted(w.rows, job, env.now, env.newId) else w.rows)
            && (r.1 == Persisted ==> Commits(w, Some(job), env, maxTotal))
  {
  }

  /** What the steps claim, and when the delivery is persisted: as in the branches of the worker. */
  lemma StepsClaim(s: DedupRuns.State, id: nat, env: Env, urlKey: string, job: Option<Job>, commits: bool)
    requires id !in s.deliveries && s.clock <= env.urlAt <= env.contentAt && IsUrlKey(urlKey)
    requires job.Some? ==> !IsUrlKey(JobKey(job.value.fingerprint))
    ensures var t := DedupSteps(s, id, env, urlKey, job, commits);
            var claims := Claimed(s.claims, urlKey, env.urlAt, URL_TTL, env.urlFails);
            if Seen(s.claims, urlKey, env.urlAt, env.urlFails) || job.None? then t.claims == claims && !PersistedBy(t, id)
            else
              var key := JobKey(job.value.fingerprint);
              && t.claims == Claimed(claims, key, env.contentAt, JOB_TTL, env.contentFails)
              && (PersistedBy(t, id) <==> commits && !Seen(claims, key, env.contentAt, env.contentFails))
  {
  }

  /** Those steps claim what the worker claims, and the machine's persisted deliveries are exactly those
      whose upsert reached the table; so what is proved of the machine's claims and upserts holds of the
      worker's. */
  lemma HandledIsDedupSteps(w: World, s: DedupRuns.State, id: nat, m: Message, env: Env, urlKey: string, job: Option<Job>,
          maxTotal: int)
    requires s.claims == w.claims && id !in s.deliveries && s.clock <= env.urlAt <= env.contentAt && IsUrlKey(urlKey)
    requires job.Some? ==> !IsUrlKey(JobKey(job.value.fingerprint))
    ensures var r := Handled(w, m, env, urlKey, job, maxTotal);
            var t := DedupSteps(s, id, env, urlKey, job, Commits(w, job, env, maxTotal));
            && t.claims == r.0.claims
            && (r.1 == Persisted ==> PersistedBy(t, id))
            && (PersistedBy(t, id) ==> job.Some? && r.0.rows == Upserted(w.rows, job.value, env.now, env.newId))
            && (!PersistedBy(t, id) ==> r.0.rows == w.rows)
  {
    StepsClaim(s, id, env, urlKey, job, Commits(w, job, env, maxTotal));
    if job.Some? {
      var v := w.(claims := Claimed(w.claims, urlKey, env.urlAt, URL_TTL, env.urlFails));
      var key := JobKey(job.value.fingerprint);
      StoredByCommit(v.(claims := Claimed(v.claims, key, env.contentAt, JOB_TTL, env.contentFails)), m, job.value, env,
        maxTotal);
    }
  }

  /** The same of a whole delivery: its two keys are of the machine's two kinds. */
  lemma DeliveryIsDedupSteps(w: World, s: DedupRuns.State, id: nat, m: Message, env: Env, tools: Tools, maxTotal: int)
    requires m.body.Raw? && s.claims == w.claims && id !in s.deliveries && s.clock <= env.urlAt <= env.contentAt
    ensures IsUrlKey(UrlKey(m.body.url, tools.hash))
    ensures var job := ParsedJob(m, env, tools); job.Some? ==> !IsUrlKey(JobKey(job.value.fingerprint))
    ensures var job := ParsedJob(m, env, tools);
            var r := Processed(w, m, env, tools, maxTotal);
            var t := DedupSteps(s, id, env, UrlKey(m.body.url, tools.hash), job, Commits(w, job, env, maxTotal));
            && t.claims == r.0.claims
            && (r.1 == Persisted ==> PersistedBy(t, id))
            && (PersistedBy(t, id) ==> job.Some? && r.0.rows == Upserted(w.rows, job.value, env.now, env.newId))
            && (!PersistedBy(t, id) ==> r.0.rows == w.rows)
  {
    var job := ParsedJob(m, env, tools);
    KeysAreApart(m.body.url, if job.Some? then job.value.fingerprint else "", tools.hash);
    HandledIsDedupSteps(w, s, id, m, env, UrlKey(m.body.url, tools.hash), job, maxTotal);
  }

  // ---- What a persisted delivery stores ----

  lemma StoredRow(w: World, m: Message, job: Job, env: Env, maxTotal: int)
    requires WellFormed(w.rows) && Stored(w, m, job, env, maxTotal).1 == Persisted
    ensures maxTotal > 0 ==> w.jobCount < maxTotal
    ensures var v := Stored(w, m, job, env, maxTotal).0;
            var id := StoredId(v.rows, job.fingerprint);
            && id in v.rows && v.rows[id].facts.fingerprint == job.fingerprint
            && CutTo(v.rows[id].url, job.url, 1000) && v.rows[id].updatedAt == env.now
            && (!HasFingerprint(w.rows, job.fingerprint) ==>
                  id == env.newId && InsertedFrom(v.rows[id], job) && v.rows[id].createdAt == env.now)
            && v.processed == w.processed + (if env.publishFails then [] else [id])
  {
    var rows := Upserted(w.rows, job, env.now, env.newId);
    UpsertKeepsWellFormed(w.rows, job, env.now, env.newId);
    if HasFingerprint(w.rows, job.fingerprint) {
      var id :| id in w.rows && w.rows[id].facts.fingerprint == job.fingerprint;
      ConflictUpdatesTwoColumns(w.rows, job, env.now, env.newId, id);
      assert id in rows && rows[id].facts.fingerprint == job.fingerprint;
    } else {
      InsertWritesEveryColumn(w.rows, job, env.now, env.newId);
      assert env.newId in rows && rows[env.newId].facts.fingerprint == job.fingerprint;
    }
  }

  /** Every column of a new row, from the message, the page that was parsed, and the text functions. */
  ghost predicate RowOfPage(row: Row, m: Message, page: RawJob, tools: Tools)
    requires m.body.Raw?
  {
    var salary := Salary.ParseSalary(page.salaryText);
    && row.facts.source == m.body.source && CutTo(row.url, m.body.url, 1000)
    && ColumnOf(row.facts.externalId, page.externalId, 255)
    && CutTo(row.facts.title, tools.normalizeTitle(page.title), 500)
    && ColumnOf(row.facts.company, page.company, 255) && row.facts.website.None?
    && ColumnOf(row.facts.city, tools.normalizeLocation(page.location), 255) && row.facts.country.None?
    && row.facts.remote == tools.detectRemote(page.description)
    && row.facts.salaryMin == salary.min && row.facts.salaryMax == salary.max
    && ColumnOf(row.facts.currency, salary.currency, |salary.currency|)
    && ColumnOf(row.facts.description, page.description, |page.description|)
    && row.facts.tags == tools.extractTags(page.title, page.description)
    && row.facts.publishedAt.None? && row.facts.expiresAt.None?
  }

  lemma InsertedPage(row: Row, m: Message, page: RawJob, tools: Tools)
    requires m.body.Raw? && InsertedFrom(row, BuildJob(page, m.body.source, m.body.url, tools))
    ensures RowOfPage(row, m, page, tools)
  {
  }

  /** A persisted delivery's message names a source that has a crawler and its page was parsed. It found
      room under the cap; its row is there under the fingerprint of the parsed title, company and
      location, with the message's own URL; when the row is new, every column is the page's; and that
      row's id is what is published. */
  lemma PersistedIsStored(w: World, m: Message, env: Env, tools: Tools, maxTotal: int)
    requires WellFormed(w.rows) && Processed(w, m, env, tools, maxTotal).1 == Persisted
    ensures m.body.Raw? && m.body.source in {"STEPSTONE", "XING", "INDEED"} && env.parsed.Some?
    ensures maxTotal > 0 ==> w.jobCount < maxTotal
    ensures var v, page := Processed(w, m, env, tools, maxTotal).0, env.parsed.value;
            var fingerprint := Fingerprint.Fingerprint(page.title, page.company, page.location, tools.low, tools.hash);
            var id := StoredId(v.rows, fingerprint);
            && id in v.rows && v.rows[id].facts.fingerprint == fingerprint
            && CutTo(v.rows[id].url, m.body.url, 1000) && v.rows[id].updatedAt == env.now
            && (!HasFingerprint(w.rows, fingerprint) ==>
                  id == env.newId && RowOfPage(v.rows[id], m, page, tools) && v.rows[id].createdAt == env.now)
            && v.processed == w.processed + (if env.publishFails then [] else [id])
  {
    var job := ParsedJob(m, env, tools).value;
    var u := w.(claims := Claimed(w.claims, UrlKey(m.body.url, tools.hash), env.urlAt, URL_TTL, env.urlFails));
    var x := u.(claims := Claimed(u.claims, JobKey(job.fingerprint), env.contentAt, JOB_TTL, env.contentFails));
    StoredRow(x, m, job, env, maxTotal);
    var v := Processed(w, m, env, tools, maxTotal).0;
    if !HasFingerprint(w.rows, job.fingerprint) {
      InsertedPage(v.rows[env.newId], m, env.parsed.value, tools);
    }
  }

  // ---- Which delivery has which outcome ----

  /** The URL check lets the message through: it unmarshals, and Redis fails or the URL is free. */
  predicate PassesUrl(w: World, m: Message, env: Env, tools: Tools) {
    m.body.Raw? && (env.urlFails || !Taken(w.claims, UrlKey(m.body.url, tools.hash), env.urlAt))
  }

  predicate Parses(m: Message, env: Env) {
    m.body.Raw? && m.body.source in {"STEPSTONE", "XING", "INDEED"} && env.parsed.Some?
  }

  function PageKey(env: Env, tools: Tools): string
    requires env.parsed.Some?
  {
    var page := env.parsed.value;
    JobKey(Fingerprint.Fingerprint(page.title, page.company, page.location, tools.low, tools.hash))
  }

  predicate PassesContent(w: World, m: Message, env: Env, tools: Tools) {
    PassesUrl(w, m, env, tools) && Parses(m, env)
    && (env.contentFails || !Taken(w.claims, PageKey(env, tools), env.contentAt))
  }

  /** A claim of a URL does not touch the content keys. */
  lemma UrlClaimLeavesContent(w: World, m: Message, env: Env, tools: Tools)
    requires m.body.Raw? && env.parsed.Some?
    ensures Taken(Claimed(w.claims, UrlKey(m.body.url, tools.hash), env.urlAt, URL_TTL, env.urlFails),
                  PageKey(env, tools), env.contentAt)
       <==> Taken(w.claims, PageKey(env, tools), env.contentAt)
  {
    var page := env.parsed.value;
    KeysAreApart(m.body.url, Fingerprint.Fingerprint(page.title, page.company, page.location, tools.low, tools.hash), tools.hash);
  }

  lemma StoredOutcome(w: World, m: Message, job: Job, env: Env, maxTotal: int)
    ensures var o := Stored(w, m, job, env, maxTotal).1;
            && o != UrlDuplicate && o != ContentDuplicate
            && (o == CapSkipped <==> maxTotal > 0 && w.jobCount >= maxTotal)
            && (o == Persisted <==>
                  (maxTotal > 0 ==> w.jobCount < maxTotal) && env.dbFault == NoFault && UpsertSucceeds(w.rows, job, env.newId))
            && (o == DeadLettered ==> !env.dlqFails) && (o == Lost ==> env.dlqFails)
  {
  }

  /** The outcomes that the two checks and the cap decide; without a cap nothing is skipped. What passes
      all three is persisted when the database accepts and acknowledges it, and dead-lettered or lost
      otherwise, like what does not unmarshal or parse. */
  lemma OutcomeByCause(w: World, m: Message, env: Env, tools: Tools, maxTotal: int)
    ensures var o := Processed(w, m, env, tools, maxTotal).1;
            && (o == UrlDuplicate <==> m.body.Raw? && !PassesUrl(w, m, env, tools))
            && (o == ContentDuplicate <==>
                  PassesUrl(w, m, env, tools) && Parses(m, env) && !PassesContent(w, m, env, tools))
            && (o == CapSkipped <==> PassesContent(w, m, env, tools) && maxTotal > 0 && w.jobCount >= maxTotal)
            && (o == Persisted <==>
                  && PassesContent(w, m, env, tools) && (maxTotal > 0 ==> w.jobCount < maxTotal)
                  && env.dbFault == NoFault && UpsertSucceeds(w.rows, ParsedJob(m, env, tools).value, env.newId))
            && (o == DeadLettered ==> !env.dlqFails) && (o == Lost ==> env.dlqFails)
  {
    if Parses(m, env) {
      UrlClaimLeavesContent(w, m, env, tools);
      var u := w.(claims := Claimed(w.claims, UrlKey(m.body.url, tools.hash), env.urlAt, URL_TTL, env.urlFails));
      var v := u.(claims := Claimed(u.claims, PageKey(env, tools), env.contentAt, JOB_TTL, env.contentFails));
      StoredOutcome(v, m, ParsedJob(m, env, tools).value, env, maxTotal);
    }
  }

  /** A dead letter is the whole message under its own key, or under its offset when it has none. */
  ghost predicate FailedBy(w: World, v: World, o: Outcome, m: Message) {
    v.failed == w.failed + if o == DeadLettered then [DeadLetter(if m.key != "" then m.key else "unknown-" + m.offset, m)] else []
  }

  lemma StoredFailed(w: World, m: Message, job: Job, env: Env, maxTotal: int)
    ensures var r := Stored(w, m, job, env, maxTotal); FailedBy(w, r.0, r.1, m)
  {
  }

  lemma HandledFailed(w: World, m: Message, env: Env, urlKey: string, job: Option<Job>, maxTotal: int)
    ensures var r := Handled(w, m, env, urlKey, job, maxTotal); FailedBy(w, r.0, r.1, m)
  {
    if job.Some? {
      var u := w.(claims := Claimed(w.claims, urlKey, env.urlAt, URL_TTL, env.urlFails));
      var v := u.(claims := Claimed(u.claims, JobKey(job.value.fingerprint), env.contentAt, JOB_TTL, env.contentFails));
      StoredFailed(v, m, job.value, env, maxTotal);
    }
  }

  /** Nothing but a dead letter goes to jobs.failed. */
  lemma DeadLettersKeepTheMessage(w: World, m: Message, env: Env, tools: Tools, maxTotal: int)
    ensures var r := Processed(w, m, env, tools, maxTotal); FailedBy(w, r.0, r.1, m)
  {
    if m.body.Raw? {
      HandledFailed(w, m, env, UrlKey(m.body.url, tools.hash), ParsedJob(m, env, tools), maxTotal);
    }
  }

  // ---- Which pages the table accepts ----

  lemma CurrencyIsShort(text: string)
    ensures |Salary.ParseSalary(text).currency| <= 3
  {
  }

  /** Of the pages of a registered source, with a known working mode and SHA-256's 64 digits, the table
      accepts exactly those whose salary it accepts. */
  lemma SalaryDecides(m: Message, env: Env, tools: Tools)
    requires Parses(m, env) && tools.detectRemote(env.parsed.value.description) in {"FULL", "PARTIAL", "NONE"}
    requires forall s :: |tools.hash(s)| == 64
    ensures var salary := Salary.ParseSalary(env.parsed.value.salaryText);
            LegalFacts(FactsOf(ParsedJob(m, env, tools).value)) <==>
            && (salary.min.Some? ==> 0 <= salary.min.value <= 2_147_483_647)
            && (salary.max.Some? ==> 0 <= salary.max.value <= 2_147_483_647)
            && (salary.min.Some? && salary.max.Some? ==> salary.min.value <= salary.max.value)
  {
    LegalJobs(ParsedJob(m, env, tools).value);
    CurrencyIsShort(env.parsed.value.salaryText);
  }

  /** So a page with a printed salary range is accepted if and only if the range is the right way round
      and fits the column. */
  lemma PrintedRangeIsAccepted(m: Message, env: Env, tools: Tools, a: nat, b: nat, dash: char, currency: string)
    requires Parses(m, env) && tools.detectRemote(env.parsed.value.description) in {"FULL", "PARTIAL", "NONE"}
    requires forall s :: |tools.hash(s)| == 64
    requires 10 <= a && 10 <= b && Salary.IsDash(dash) && Salary.IsCurrency(currency)
    requires env.parsed.value.salaryText == Salary.Text(a, b, dash, currency)
    ensures LegalFacts(FactsOf(ParsedJob(m, env, tools).value)) <==> a <= b <= 2_147_483_647
  {
    SalaryDecides(m, env, tools);
    Salary.SalaryRoundTrip(a, b, dash, currency);
  }

  // ---- Redelivery ----

  /** A key that is taken at some instant is still taken at that instant after any other claim. */
  lemma ClaimSurvivesSetNX(claims: Claims, key: string, until: int, other: string, at: int, ttl: int, fails: bool)
    requires Taken(claims, key, until) && ttl > 0
    ensures Taken(Claimed(claims, other, at, ttl, fails), key, until)
  {
  }

  lemma ClaimSurvivesHandling(w: World, key: string, until: int, m: Message, env: Env, urlKey: string,
          job: Option<Job>, maxTotal: int)
    requires Taken(Claimed(w.claims, urlKey, env.urlAt, URL_TTL, env.urlFails), key, until)
    ensures Taken(Handled(w, m, env, urlKey, job, maxTotal).0.claims, key, until)
  {
    if job.Some? {
      var claims := Claimed(w.claims, urlKey, env.urlAt, URL_TTL, env.urlFails);
      ClaimSurvivesSetNX(claims, key, until, JobKey(job.value.fingerprint), env.contentAt, JOB_TTL, env.contentFails);
    }
  }

  lemma ClaimSurvivesDelivery(w: World, key: string, until: int, m: Message, env: Env, tools: Tools, maxTotal: int)
    requires Taken(w.claims, key, until)
    ensures Taken(Processed(w, m, env, tools, maxTotal).0.claims, key, until)
  {
    if m.body.Raw? {
      var urlKey := UrlKey(m.body.url, tools.hash);
      ClaimSurvivesSetNX(w.claims, key, until, urlKey, env.urlAt, URL_TTL, env.urlFails);
      ClaimSurvivesHandling(w, key, until, m, env, urlKey, ParsedJob(m, env, tools), maxTotal);
    }
  }

  lemma {:induction false} ClaimSurvivesRun(w: World, key: string, until: int, messages: seq<(Message, Env)>,
          n: nat, tools: Tools, maxTotal: int)
    requires n <= |messages| && Taken(w.claims, key, until)
    ensures Taken(RunAll(w, messages, n, tools, maxTotal).0.claims, key, until)
  {
    if n > 0 {
      ClaimSurvivesRun(w, key, until, messages, n - 1, tools, maxTotal);
      var v := RunAll(w, messages, n - 1, tools, maxTotal).0;
      ClaimSurvivesDelivery(v, key, until, messages[n - 1].0, messages[n - 1].1, tools, maxTotal);
    }
  }

  predicate UrlTaken(w: World, m: Message, tools: Tools, at: int)
    requires m.body.Raw?
  {
    Taken(w.claims, UrlKey(m.body.url, tools.hash), at)
  }

  lemma FirstDeliveryClaims(w: World, m: Message, env: Env, tools: Tools, maxTotal: int, until: int)
    requires m.body.Raw? && !env.urlFails && until < env.urlAt + URL_TTL
    requires !UrlTaken(w, m, tools, env.urlAt)
    ensures UrlTaken(Processed(w, m, env, tools, maxTotal).0, m, tools, until)
  {
    var urlKey := UrlKey(m.body.url, tools.hash);
    assert Taken(SetNX(w.claims, urlKey, env.urlAt, URL_TTL), urlKey, until);
    ClaimSurvivesHandling(w, urlKey, until, m, env, urlKey, ParsedJob(m, env, tools), maxTotal);
  }

  /** The delivery is a URL duplicate, and nothing but the commit count changes. */
  ghost predicate Dropped(w: World, m: Message, env: Env, tools: Tools, maxTotal: int) {
    Processed(w, m, env, tools, maxTotal) == (w.(commits := w.commits + 1), UrlDuplicate)
  }

  lemma TakenUrlIsDropped(w: World, m: Message, env: Env, tools: Tools, maxTotal: int)
    requires m.body.Raw? && !env.urlFails && UrlTaken(w, m, tools, env.urlAt)
    ensures Dropped(w, m, env, tools, maxTotal)
  {
    var urlKey := UrlKey(m.body.url, tools.hash);
    assert SetNX(w.claims, urlKey, env.urlAt, URL_TTL) == w.claims;
    assert Handled(w, m, env, urlKey, ParsedJob(m, env, tools), maxTotal) == (w, UrlDuplicate);
  }

  lemma TakenUrlStaysDropped(w: World, m: Message, between: seq<(Message, Env)>, again: Env, tools: Tools, maxTotal: int)
    requires m.body.Raw? && !again.urlFails && UrlTaken(w, m, tools, again.urlAt)
    ensures Dropped(RunAll(w, between, |between|, tools, maxTotal).0, m, again, tools, maxTotal)
  {
    ClaimSurvivesRun(w, UrlKey(m.body.url, tools.hash), again.urlAt, between, |between|, tools, maxTotal);
    TakenUrlIsDropped(RunAll(w, between, |between|, tools, maxTotal).0, m, again, tools, maxTotal);
  }

  /** Claims come before the persist, so a redelivery within 24 hours of a first delivery whose URL
      check Redis answered is dropped, whatever became of the first: dead-lettered for replay, cut
      off by the cap, or persisted. */
  lemma RedeliveryIsDropped(w: World, m: Message, first: Env, between: seq<(Message, Env)>, again: Env,
          tools: Tools, maxTotal: int)
    requires m.body.Raw? && !first.urlFails && !again.urlFails
    requires !UrlTaken(w, m, tools, first.urlAt)
    requires again.urlAt < first.urlAt + 24 * 3600 * 1000
    ensures Dropped(RunAll(Processed(w, m, first, tools, maxTotal).0, between, |between|, tools, maxTotal).0,
                    m, again, tools, maxTotal)
  {
    FirstDeliveryClaims(w, m, first, tools, maxTotal, again.urlAt);
    TakenUrlStaysDropped(Processed(w, m, first, tools, maxTotal).0, m, between, again, tools, maxTotal);
  }
}

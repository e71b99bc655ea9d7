/** The job entity and its row in the jobs table (internal/domain/job.go, migrations/000001). */
module Jobs {
  import opened Prelude

  datatype Job = Job(
    externalId: string, source: string, title: string, company: string, website: string,
    city: string, country: string, remote: string, salaryMin: Option<int>, salaryMax: Option<int>,
    currency: string, description: string, tags: seq<string>, url: string, fingerprint: string,
    publishedAt: Option<int>, expiresAt: Option<int>)

  /** The columns that an upsert writes on insert only; None is NULL. */
  datatype Facts = Facts(
    externalId: Option<string>, source: string, title: string, company: Option<string>, website: Option<string>,
    city: Option<string>, country: Option<string>, remote: string, salaryMin: Option<int>, salaryMax: Option<int>,
    currency: Option<string>, description: Option<string>, tags: seq<string>, fingerprint: string,
    publishedAt: Option<int>, expiresAt: Option<int>)

  datatype Row = Row(id: string, facts: Facts, url: string, createdAt: int, updatedAt: int)

  const SOURCES: set<string> := {"STEPSTONE", "INDEED", "XING", "LINKEDIN"}
  const REMOTE_TYPES: set<string> := {"FULL", "PARTIAL", "NONE"}
  const MAX_INTEGER: int := 0x7fff_ffff

  function Truncate(s: string, n: nat): string {
    if |s| <= n then s else s[..n]
  }

  function NullString(s: string): Option<string> {
    if s == "" then None else Some(s)
  }

  function FactsOf(job: Job): Facts {
    Facts(NullString(Truncate(job.externalId, 255)), job.source, Truncate(job.title, 500),
          NullString(Truncate(job.company, 255)), NullString(Truncate(job.website, 500)),
          NullString(Truncate(job.city, 255)), NullString(Truncate(job.country, 100)),
          job.remote, job.salaryMin, job.salaryMax, NullString(job.currency), NullString(job.description),
          job.tags, job.fingerprint, job.publishedAt, job.expiresAt)
  }

  predicate LegalSalary(x: Option<int>) {
    x.Some? ==> 0 <= x.value <= MAX_INTEGER
  }

  /** The table's CHECK constraints and column sizes that Upsert does not enforce by truncation. */
  predicate LegalFacts(f: Facts) {
    && f.source in SOURCES && f.remote in REMOTE_TYPES
    && LegalSalary(f.salaryMin) && LegalSalary(f.salaryMax)
    && (f.salaryMin.Some? && f.salaryMax.Some? ==> f.salaryMax.value >= f.salaryMin.value)
    && (f.currency.Some? ==> |f.currency.value| <= 3)
    && |f.fingerprint| <= 64
  }

  /** The text cut to at most n characters. */
  predicate CutTo(x: string, text: string, n: nat) {
    x <= text && |x| == if |text| <= n then |text| else n
  }

  /** NULL for the empty text, and the text cut to n characters for any other. */
  predicate ColumnOf(x: Option<string>, text: string, n: nat) {
    (x.None? <==> text == "") && (x.Some? ==> CutTo(x.value, text, n))
  }

  lemma ColumnsAreCut(text: string, n: nat)
    requires n > 0
    ensures CutTo(Truncate(text, n), text, n) && ColumnOf(NullString(Truncate(text, n)), text, n)
    ensures ColumnOf(NullString(text), text, |text|)
  {
  }

  /** The constraints of the table, as conditions on the job. */
  lemma LegalJobs(job: Job)
    ensures LegalFacts(FactsOf(job)) <==>
            && job.source in {"STEPSTONE", "INDEED", "XING", "LINKEDIN"} && job.remote in {"FULL", "PARTIAL", "NONE"}
            && (job.salaryMin.Some? ==> 0 <= job.salaryMin.value <= 2_147_483_647)
            && (job.salaryMax.Some? ==> 0 <= job.salaryMax.value <= 2_147_483_647)
            && (job.salaryMin.Some? && job.salaryMax.Some? ==> job.salaryMin.value <= job.salaryMax.value)
            && |job.currency| <= 3 && |job.fingerprint| <= 64
  {
  }
}

/** internal/repository/postgres/job_repo.go, Upsert, Count and DeleteOlderThan, with the janitor. */
module JobStore {
  import opened Prelude
  import opened Jobs

  // The table by primary key.
  type Table = map<string, Row>

  predicate HasFingerprint(rows: Table, fingerprint: string) {
    exists id :: id in rows && rows[id].facts.fingerprint == fingerprint
  }

  /** Whether the INSERT ... ON CONFLICT statement succeeds; otherwise it leaves the table alone. */
  predicate UpsertSucceeds(rows: Table, job: Job, newId: string) {
    && LegalFacts(FactsOf(job))
    && (HasFingerprint(rows, job.fingerprint) || newId !in rows)
  }

  /** A row with the fingerprint keeps everything but url and updated_at; without one a row is added. */
  function Upserted(rows: Table, job: Job, now: int, newId: string): Table {
    if !UpsertSucceeds(rows, job, newId) then rows
    else if HasFingerprint(rows, job.fingerprint) then
      map id | id in rows :: if rows[id].facts.fingerprint == job.fingerprint
                             then rows[id].(url := Truncate(job.url, 1000), updatedAt := now) else rows[id]
    else rows[newId := Row(newId, FactsOf(job), Truncate(job.url, 1000), now, now)]
  }

  function Swept(rows: Table, cutoff: int): Table {
    map id | id in rows && rows[id].createdAt >= cutoff :: rows[id]
  }

  /** Rows are filed under their own id, and no two rows share a fingerprint. */
  ghost predicate WellFormed(rows: Table) {
    && (forall id :: id in rows ==> rows[id].id == id)
    && (forall a, b :: a in rows && b in rows && rows[a].facts.fingerprint == rows[b].facts.fingerprint ==> a == b)
  }

  /** The id of the row that holds a fingerprint; well-formed tables have at most one. */
  ghost function StoredId(rows: Table, fingerprint: string): string {
    if HasFingerprint(rows, fingerprint) then
      var id :| id in rows && rows[id].facts.fingerprint == fingerprint; id
    else ""
  }

  lemma UpsertKeepsWellFormed(rows: Table, job: Job, now: int, newId: string)
    requires WellFormed(rows)
    ensures WellFormed(Upserted(rows, job, now, newId))
  {
  }

  /** Every column that an insert writes, each from its own field of the job. */
  predicate InsertedFrom(row: Row, job: Job) {
    && ColumnOf(row.facts.externalId, job.externalId, 255) && row.facts.source == job.source
    && CutTo(row.facts.title, job.title, 500) && ColumnOf(row.facts.company, job.company, 255)
    && ColumnOf(row.facts.website, job.website, 500) && ColumnOf(row.facts.city, job.city, 255)
    && ColumnOf(row.facts.country, job.country, 100) && row.facts.remote == job.remote
    && row.facts.salaryMin == job.salaryMin && row.facts.salaryMax == job.salaryMax
    && ColumnOf(row.facts.currency, job.currency, |job.currency|)
    && ColumnOf(row.facts.description, job.description, |job.description|)
    && row.facts.tags == job.tags && CutTo(row.url, job.url, 1000) && row.facts.fingerprint == job.fingerprint
    && row.facts.publishedAt == job.publishedAt && row.facts.expiresAt == job.expiresAt
  }

  /** An upsert that succeeds and finds no row adds one, column by column, and touches no other. */
  lemma InsertWritesEveryColumn(rows: Table, job: Job, now: int, newId: string)
    requires UpsertSucceeds(rows, job, newId) && !HasFingerprint(rows, job.fingerprint)
    ensures var after := Upserted(rows, job, now, newId);
            && after.Keys == rows.Keys + {newId} && newId !in rows && (forall id :: id in rows ==> after[id] == rows[id])
            && InsertedFrom(after[newId], job)
            && after[newId].id == newId && after[newId].createdAt == after[newId].updatedAt == now
  {
    ColumnsAreCut(job.externalId, 255);
    ColumnsAreCut(job.title, 500);
    ColumnsAreCut(job.company, 255);
    ColumnsAreCut(job.website, 500);
    ColumnsAreCut(job.city, 255);
    ColumnsAreCut(job.country, 100);
    ColumnsAreCut(job.currency, 1);
    ColumnsAreCut(job.description, 1);
    ColumnsAreCut(job.url, 1000);
  }

  /** One that finds a row changes its url and its time of update, and no other row. */
  lemma ConflictUpdatesTwoColumns(rows: Table, job: Job, now: int, newId: string, id: string)
    requires UpsertSucceeds(rows, job, newId) && HasFingerprint(rows, job.fingerprint) && id in rows
    ensures var after := Upserted(rows, job, now, newId);
            && after.Keys == rows.Keys
            && (rows[id].facts.fingerprint != job.fingerprint ==> after[id] == rows[id])
            && (rows[id].facts.fingerprint == job.fingerprint ==>
                  && CutTo(after[id].url, job.url, 1000) && after[id].updatedAt == now
                  && after[id].id == rows[id].id && after[id].facts == rows[id].facts && after[id].createdAt == rows[id].createdAt)
  {
    ColumnsAreCut(job.url, 1000);
  }

  /** An upsert adds one row when the fingerprint is new and none when it is not. */
  lemma UpsertSize(rows: Table, job: Job, now: int, newId: string)
    ensures |Upserted(rows, job, now, newId)|
         == |rows| + if UpsertSucceeds(rows, job, newId) && !HasFingerprint(rows, job.fingerprint) then 1 else 0
  {
    if UpsertSucceeds(rows, job, newId) && HasFingerprint(rows, job.fingerprint) {
      assert Upserted(rows, job, now, newId).Keys == rows.Keys;
      assert |Upserted(rows, job, now, newId).Keys| == |rows.Keys|;
    }
  }

  lemma SweepShrinks(rows: Table, cutoff: int)
    ensures |Swept(rows, cutoff)| <= |rows|
  {
    SubsetSize(Swept(rows, cutoff).Keys, rows.Keys);
    assert |Swept(rows, cutoff).Keys| == |Swept(rows, cutoff)| && |rows.Keys| == |rows|;
  }

  /** What goes wrong with a statement: nothing, an error before its commit, or one after it. */
  datatype DbFault = NoFault | NotCommitted | CommittedUnseen

  class JobRepo {
    var rows: Table

    constructor ()
      ensures rows == map[]
    {
      rows := map[];
    }

    /** On success the job's id and timestamps are those of the stored row, which on a conflict are
        the first insert's id and creation time. When the database fails, the caller sees an error
        whether or not the statement was committed. */
    method Upsert(job: Job, now: int, newId: string, fault: DbFault)
      returns (ok: bool, id: string, createdAt: int, updatedAt: int)
      requires WellFormed(rows)
      modifies this
      ensures WellFormed(rows)
      ensures rows == if fault == NotCommitted then old(rows) else Upserted(old(rows), job, now, newId)
      ensures ok <==> fault == NoFault && UpsertSucceeds(old(rows), job, newId)
      ensures ok ==> id in rows && rows[id].facts.fingerprint == job.fingerprint && id == StoredId(rows, job.fingerprint)
      ensures ok ==> createdAt == rows[id].createdAt && updatedAt == rows[id].updatedAt == now
      ensures ok && HasFingerprint(old(rows), job.fingerprint) ==> id in old(rows) && createdAt == old(rows)[id].createdAt
      ensures ok && !HasFingerprint(old(rows), job.fingerprint) ==> id == newId && createdAt == now && InsertedFrom(rows[id], job)
      ensures ok ==> CutTo(rows[id].url, job.url, 1000)
      ensures fault == NoFault && LegalFacts(FactsOf(job)) && HasFingerprint(old(rows), job.fingerprint) ==> ok
    {
      id, createdAt, updatedAt := "", 0, 0;
      if fault == NotCommitted {
        return false, id, createdAt, updatedAt;
      }
      ok := fault == NoFault && UpsertSucceeds(rows, job, newId);
      UpsertKeepsWellFormed(rows, job, now, newId);
      ghost var before := rows;
      rows := Upserted(rows, job, now, newId);
      if ok {
        if HasFingerprint(before, job.fingerprint) {
          ghost var known :| known in before && before[known].facts.fingerprint == job.fingerprint;
          assert known in rows && rows[known].facts.fingerprint == job.fingerprint;
          ConflictUpdatesTwoColumns(before, job, now, newId, known);
        } else {
          InsertWritesEveryColumn(before, job, now, newId);
          assert newId in rows && rows[newId].facts.fingerprint == job.fingerprint;
        }
        id :| id in rows && rows[id].facts.fingerprint == job.fingerprint;
        createdAt, updatedAt := rows[id].createdAt, rows[id].updatedAt;
      }
    }

    method Count() returns (n: nat)
      ensures n == |rows|
    {
      n := |rows|;
    }

    /** Removes exactly the rows created before the cutoff, and reports how many there were. */
    method DeleteOlderThan(cutoff: int) returns (deleted: nat)
      modifies this
      ensures rows == Swept(old(rows), cutoff)
      ensures deleted == |old(rows)| - |rows|
      ensures deleted == |set id | id in old(rows) && old(rows)[id].createdAt < cutoff|
    {
      SweepShrinks(rows, cutoff);
      var kept := Swept(rows, cutoff);
      ghost var gone := set id | id in rows && rows[id].createdAt < cutoff;
      assert rows.Keys == kept.Keys + gone;
      assert |kept.Keys + gone| == |kept.Keys| + |gone|;
      deleted := |rows| - |kept|;
      rows := kept;
    }
  }

  // ---- Any history of upserts and sweeps ----

  datatype Event = Upsert(job: Job, now: int, newId: string) | Sweep(cutoff: int)

  function Apply(rows: Table, e: Event): Table {
    match e
    case Upsert(job, now, newId) => Upserted(rows, job, now, newId)
    case Sweep(cutoff) => Swept(rows, cutoff)
  }

  /** The table after the first n events, starting empty. */
  function Replay(events: seq<Event>, n: nat): Table
    requires n <= |events|
  {
    if n == 0 then map[] else Apply(Replay(events, n - 1), events[n - 1])
  }

  predicate Accepts(e: Event, fingerprint: string) {
    e.Upsert? && e.job.fingerprint == fingerprint && LegalFacts(FactsOf(e.job))
  }

  /** gen_random_uuid never repeats. */
  ghost predicate FreshIds(events: seq<Event>) {
    forall i, j :: 0 <= i < j < |events| && events[i].Upsert? && events[j].Upsert? ==> events[i].newId != events[j].newId
  }

  /** The event that inserted the fingerprint's row, if the row is there after the first n events. */
  function Creator(events: seq<Event>, n: nat, fingerprint: string): (r: Option<nat>)
    requires n <= |events|
    ensures r.Some? ==> r.value < n && events[r.value].Upsert?
  {
    if n == 0 then None
    else
      var before, e := Creator(events, n - 1, fingerprint), events[n - 1];
      if before.None? then if Accepts(e, fingerprint) then Some(n - 1) else None
      else if e.Sweep? && events[before.value].now < e.cutoff then None
      else before
  }

  /** The latest accepted upsert of the fingerprint. */
  function Latest(events: seq<Event>, n: nat, fingerprint: string): (r: Option<nat>)
    requires n <= |events|
    ensures r.Some? ==> r.value < n && events[r.value].Upsert?
  {
    if n == 0 then None
    else if Accepts(events[n - 1], fingerprint) then Some(n - 1)
    else Latest(events, n - 1, fingerprint)
  }

  /** No sweep after event i, among the first n events, reaches event i's time. */
  predicate Spared(events: seq<Event>, i: nat, n: nat)
    requires i < n <= |events| && events[i].Upsert?
  {
    n == i + 1
    || (Spared(events, i, n - 1) && (events[n - 1].Sweep? ==> events[n - 1].cutoff <= events[i].now))
  }

  lemma CreatorStep(events: seq<Event>, n: nat, fingerprint: string, i: nat)
    requires i < n < |events|
    ensures Creator(events, n + 1, fingerprint) == Some(i)
       <==> Creator(events, n, fingerprint) == Some(i) && (events[n].Sweep? ==> events[n].cutoff <= events[i].now)
  {
  }

  /** The creator is the first accepted upsert after which no sweep reached its creation time: it is
      accepted, found no row before it, and every later sweep spares it. These conditions are exact. */
  lemma {:induction false} CreatorIsFirstSurvivor(events: seq<Event>, n: nat, fingerprint: string, i: nat)
    requires i < n <= |events|
    ensures Creator(events, n, fingerprint) == Some(i)
       <==> && Accepts(events[i], fingerprint)
            && Creator(events, i, fingerprint) == None
            && Spared(events, i, n)
  {
    if i < n - 1 {
      CreatorIsFirstSurvivor(events, n - 1, fingerprint, i);
      CreatorStep(events, n - 1, fingerprint, i);
    }
  }

  lemma {:induction false} LatestAfterCreator(events: seq<Event>, n: nat, fingerprint: string)
    requires n <= |events| && Creator(events, n, fingerprint).Some?
    ensures Latest(events, n, fingerprint).Some? && Latest(events, n, fingerprint).value >= Creator(events, n, fingerprint).value
  {
    if Creator(events, n - 1, fingerprint).Some? {
      LatestAfterCreator(events, n - 1, fingerprint);
    }
  }

  /** The row that a history leaves for a fingerprint: id, facts and creation time from event i,
      url and update time from event j. */
  function RowFrom(create: Event, update: Event): Row
    requires create.Upsert? && update.Upsert?
  {
    Row(create.newId, FactsOf(create.job), Truncate(update.job.url, 1000), create.now, update.now)
  }

  ghost predicate UsesIds(rows: Table, events: seq<Event>, n: nat)
    requires n <= |events|
  {
    forall id :: id in rows ==> exists i :: 0 <= i < n && events[i].Upsert? && events[i].newId == id
  }

  lemma {:induction false} ReplayUsesIds(events: seq<Event>, n: nat)
    requires n <= |events|
    ensures UsesIds(Replay(events, n), events, n) && WellFormed(Replay(events, n))
  {
    if n > 0 {
      ReplayUsesIds(events, n - 1);
      var before, after := Replay(events, n - 1), Replay(events, n);
      if events[n - 1].Upsert? {
        UpsertKeepsWellFormed(before, events[n - 1].job, events[n - 1].now, events[n - 1].newId);
      }
      forall id | id in after
        ensures exists i :: 0 <= i < n && events[i].Upsert? && events[i].newId == id
      {
        if id in before {
          var i :| 0 <= i < n - 1 && events[i].Upsert? && events[i].newId == id;
        }
      }
    }
  }

  /** What the table holds for one fingerprint. */
  ghost predicate Holds(rows: Table, fingerprint: string, row: Option<Row>) {
    && (row.None? ==> !HasFingerprint(rows, fingerprint))
    && (row.Some? ==> row.value.id in rows && rows[row.value.id] == row.value && row.value.facts.fingerprint == fingerprint)
  }

  function Expected(events: seq<Event>, n: nat, fingerprint: string): Option<Row>
    requires n <= |events|
  {
    var c, l := Creator(events, n, fingerprint), Latest(events, n, fingerprint);
    if c.Some? && l.Some? then Some(RowFrom(events[c.value], events[l.value])) else None
  }

  /** What one more event does to the expected row. */
  function Advanced(row: Option<Row>, fingerprint: string, e: Event): Option<Row> {
    match e
    case Sweep(cutoff) => if row.Some? && row.value.createdAt < cutoff then None else row
    case Upsert(job, now, _) =>
      if !Accepts(e, fingerprint) then row
      else if row.Some? then Some(row.value.(url := Truncate(job.url, 1000), updatedAt := now))
      else Some(RowFrom(e, e))
  }

  lemma UpsertStep(rows: Table, fingerprint: string, row: Option<Row>, e: Event)
    requires WellFormed(rows) && Holds(rows, fingerprint, row) && e.Upsert? && e.newId !in rows
    ensures Holds(Apply(rows, e), fingerprint, Advanced(row, fingerprint, e))
  {
    var after := Apply(rows, e);
    if row.Some? {
      assert HasFingerprint(rows, fingerprint);
    } else if !Accepts(e, fingerprint) {
      forall id | id in after
        ensures after[id].facts.fingerprint != fingerprint
      {
        if id in rows { assert rows[id].facts.fingerprint != fingerprint; }
      }
    }
  }

  lemma SweepStep(rows: Table, fingerprint: string, row: Option<Row>, e: Event)
    requires WellFormed(rows) && Holds(rows, fingerprint, row) && e.Sweep?
    ensures Holds(Apply(rows, e), fingerprint, Advanced(row, fingerprint, e))
  {
    var after := Apply(rows, e);
    forall id | id in after
      ensures id in rows && after[id] == rows[id] && after[id].createdAt >= e.cutoff
    {
    }
  }

  lemma ExpectedStep(events: seq<Event>, n: nat, fingerprint: string)
    requires n < |events|
    ensures Expected(events, n + 1, fingerprint) == Advanced(Expected(events, n, fingerprint), fingerprint, events[n])
  {
    if Creator(events, n, fingerprint).Some? {
      LatestAfterCreator(events, n, fingerprint);
    }
  }

  /** Store refinement: after any interleaving of upserts and sweeps there is at most one row per
      fingerprint, and it is there exactly when the history has a creator. Its id, creation time and
      facts are the creator's; its url and update time are the latest accepted upsert's. */
  lemma {:induction false} StoreRefinesHistory(events: seq<Event>, n: nat, fingerprint: string)
    requires n <= |events| && FreshIds(events)
    ensures WellFormed(Replay(events, n))
    ensures Holds(Replay(events, n), fingerprint, Expected(events, n, fingerprint))
    ensures Expected(events, n, fingerprint).Some? <==> Creator(events, n, fingerprint).Some?
  {
    ReplayUsesIds(events, n);
    if Creator(events, n, fingerprint).Some? {
      LatestAfterCreator(events, n, fingerprint);
    }
    if n > 0 {
      var rows, e, expected := Replay(events, n - 1), events[n - 1], Expected(events, n - 1, fingerprint);
      StoreRefinesHistory(events, n - 1, fingerprint);
      ReplayUsesIds(events, n - 1);
      ExpectedStep(events, n - 1, fingerprint);
      if e.Upsert? {
        assert e.newId !in rows;
        UpsertStep(rows, fingerprint, expected, e);
      } else {
        SweepStep(rows, fingerprint, expected, e);
      }
    }
  }
}

/** internal/janitor/janitor.go: the retention sweep. Times are nanoseconds. */
module Janitor {
  import opened Prelude
  import opened JobStore

  const DAY: int := 24 * 3600 * 1_000_000_000

  /** The cutoff runOnce computes: the duration is an int64 product and may wrap around. */
  function Cutoff(now: int, retentionDays: int): int {
    now + Wrap64(-retentionDays * DAY)
  }

  /** Retentions up to 106751 days give the intended cutoff; every longer one wraps around. */
  lemma CutoffIsRetention(now: int, retentionDays: int)
    ensures Cutoff(now, retentionDays) == now - retentionDays * DAY <==> -106751 <= retentionDays <= 106751
  {
    assert DAY == 86_400_000_000_000;
    if retentionDays > 106751 {
      assert retentionDays * DAY >= 106752 * 86_400_000_000_000;
    } else if retentionDays < -106751 {
      assert retentionDays * DAY <= -106752 * 86_400_000_000_000;
    } else {
      assert -106751 * 86_400_000_000_000 <= retentionDays * DAY <= 106751 * 86_400_000_000_000;
    }
  }

  /** Removed are exactly the rows older than the retention. */
  ghost predicate KeepsRetention(before: Table, after: Table, now: int, retentionDays: int) {
    forall id :: id in before ==>
      (id in after <==> before[id].createdAt >= now - retentionDays * DAY) && (id in after ==> after[id] == before[id])
  }

  /** One sweep, which nothing guards: with a retention of zero or less, inside the exact range, it
      removes every row created before now. A failing delete removes nothing. */
  method RunOnce(repo: JobRepo, retentionDays: int, now: int, fails: bool)
    modifies repo
    ensures repo.rows == if fails then old(repo.rows) else Swept(old(repo.rows), Cutoff(now, retentionDays))
    ensures !fails && -106751 <= retentionDays <= 106751 ==> KeepsRetention(old(repo.rows), repo.rows, now, retentionDays)
    ensures !fails && -106751 <= retentionDays <= 0 ==>
              forall id :: id in old(repo.rows) && old(repo.rows)[id].createdAt < now ==> id !in repo.rows
  {
    CutoffIsRetention(now, retentionDays);
    if !fails {
      var _ := repo.DeleteOlderThan(Cutoff(now, retentionDays));
    }
  }

  /** The sweeps that the schedule fires, each at a time and failing or not. */
  function AllSwept(rows: Table, retentionDays: int, sweeps: seq<(int, bool)>, n: nat): Table
    requires n <= |sweeps|
  {
    if n == 0 then rows
    else
      var before := AllSwept(rows, retentionDays, sweeps, n - 1);
      if sweeps[n - 1].1 then before else Swept(before, Cutoff(sweeps[n - 1].0, retentionDays))
  }

  /** The guards are in Start: without cleanup, or with a retention that is not positive, no sweep runs. */
  method Start(repo: JobRepo, enabled: bool, retentionDays: int, sweeps: seq<(int, bool)>)
    modifies repo
    ensures !enabled || retentionDays <= 0 ==> repo.rows == old(repo.rows)
    ensures enabled && retentionDays > 0 ==> repo.rows == AllSwept(old(repo.rows), retentionDays, sweeps, |sweeps|)
  {
    if !enabled || retentionDays <= 0 {
      return;
    }
    for i := 0 to |sweeps|
      invariant repo.rows == AllSwept(old(repo.rows), retentionDays, sweeps, i)
    {
      RunOnce(repo, retentionDays, sweeps[i].0, sweeps[i].1);
    }
  }

  /** Within the exact range no schedule ever removes a row younger than the retention at the last of
      its sweeps. */
  lemma {:induction false} YoungRowsSurvive(rows: Table, retentionDays: int, sweeps: seq<(int, bool)>, n: nat,
          last: int, id: string)
    requires n <= |sweeps| && 0 < retentionDays <= 106751 && id in rows
    requires forall i :: 0 <= i < n ==> sweeps[i].0 <= last
    requires rows[id].createdAt >= last - retentionDays * DAY
    ensures id in AllSwept(rows, retentionDays, sweeps, n) && AllSwept(rows, retentionDays, sweeps, n)[id] == rows[id]
  {
    if n > 0 {
      YoungRowsSurvive(rows, retentionDays, sweeps, n - 1, last, id);
      CutoffIsRetention(sweeps[n - 1].0, retentionDays);
    }
  }

  /** Exactly which rows survive: those that were younger than the retention at each sweep that worked. So
      one sweep that works is enough to remove a row that is older. */
  lemma {:induction false} SurvivorsAreExact(rows: Table, retentionDays: int, sweeps: seq<(int, bool)>, n: nat, id: string)
    requires n <= |sweeps| && 0 < retentionDays <= 106751
    ensures id in AllSwept(rows, retentionDays, sweeps, n) <==>
            id in rows && forall i :: 0 <= i < n && !sweeps[i].1 ==> rows[id].createdAt >= sweeps[i].0 - retentionDays * DAY
    ensures id in AllSwept(rows, retentionDays, sweeps, n) ==> AllSwept(rows, retentionDays, sweeps, n)[id] == rows[id]
  {
    if n > 0 {
      SurvivorsAreExact(rows, retentionDays, sweeps, n - 1, id);
      CutoffIsRetention(sweeps[n - 1].0, retentionDays);
    }
  }
}

/** internal/processor/worker.go: the soft cap on stored jobs. One worker checks the cap, upserts and
    bumps the counter in three separate steps; the refresher goroutine counts the table and stores
    the count in two; the janitor sweeps at any time. */
module JobCap {
  import opened Prelude
  import opened Jobs
  import opened JobStore
  import Decimal

  datatype Worker = Idle | Checked(job: Job) | Stored
  datatype Refresher = Waiting | Counted(n: nat, inserts: nat)

  /** `inserts` above counts the rows added since the refresher's Count, and `unseen` the inserts that
      were committed and reported as failed; neither is program state. */
  datatype State = State(rows: Table, counter: int, worker: Worker, refresher: Refresher, unseen: nat)

  datatype Step = Check(job: Job) | Persist(now: int, newId: string, fault: DbFault) | Bump
                | BeginRefresh | EndRefresh | Clean(cutoff: int)

  predicate AtCap(counter: int, maxTotal: int) {
    maxTotal > 0 && counter >= maxTotal
  }

  predicate Inserts(s: State, step: Step) {
    && step.Persist? && s.worker.Checked? && step.fault != NotCommitted
    && UpsertSucceeds(s.rows, s.worker.job, step.newId) && !HasFingerprint(s.rows, s.worker.job.fingerprint)
  }

  /** Each goroutine does its steps in order, and no refresh spans more than `overlap` inserts. */
  predicate Enabled(s: State, overlap: nat, step: Step) {
    match step
    case Check(_) => s.worker.Idle?
    case Persist(_, _, _) => s.worker.Checked? && (Inserts(s, step) && s.refresher.Counted? ==> s.refresher.inserts < overlap)
    case Bump => s.worker.Stored?
    case BeginRefresh => s.refresher.Waiting?
    case EndRefresh => s.refresher.Counted?
    case Clean(_) => true
  }

  function Next(s: State, maxTotal: int, overlap: nat, step: Step): State
    requires Enabled(s, overlap, step)
  {
    match step
    case Check(job) => if AtCap(s.counter, maxTotal) then s else s.(worker := Checked(job))
    case Persist(now, newId, fault) =>
      s.(rows := if fault == NotCommitted then s.rows else Upserted(s.rows, s.worker.job, now, newId),
         worker := if fault == NoFault && UpsertSucceeds(s.rows, s.worker.job, newId) then Stored else Idle,
         refresher := if Inserts(s, step) && s.refresher.Counted? then Counted(s.refresher.n, s.refresher.inserts + 1)
                      else s.refresher,
         unseen := s.unseen + if Inserts(s, step) && fault == CommittedUnseen then 1 else 0)
    case Bump => s.(counter := s.counter + 1, worker := Idle)
    case BeginRefresh => s.(refresher := Counted(|s.rows|, 0))
    case EndRefresh => s.(counter := s.refresher.n, refresher := Waiting)
    case Clean(cutoff) => s.(rows := Swept(s.rows, cutoff))
  }

  ghost predicate Reachable(start: State, maxTotal: int, overlap: nat, steps: seq<Step>, s: State)
    decreases |steps|
  {
    if steps == [] then s == start
    else exists p :: Reachable(start, maxTotal, overlap, Front(steps), p)
                     && Enabled(p, overlap, Last(steps)) && s == Next(p, maxTotal, overlap, Last(steps))
  }

  /** The counter, with an increment still to come, lags the table by at most `lag` and the unseen
      inserts; a check that has passed still leaves room; and the table is within its bound. */
  ghost predicate Invariant(s: State, maxTotal: int, overlap: nat, lag: int, initial: nat) {
    && |s.rows| <= s.counter + (if s.worker.Stored? then 1 else 0) + lag + s.unseen
    && (s.refresher.Counted? ==> s.refresher.inserts <= overlap && |s.rows| <= s.refresher.n + s.refresher.inserts)
    && (s.worker.Checked? ==> |s.rows| <= maxTotal - 1 + lag + s.unseen)
    && |s.rows| <= Max(initial, maxTotal + lag + s.unseen)
  }

  lemma PersistKeepsInvariant(s: State, maxTotal: int, overlap: nat, lag: int, initial: nat, step: Step)
    requires maxTotal > 0 && overlap <= lag && step.Persist?
    requires Invariant(s, maxTotal, overlap, lag, initial) && Enabled(s, overlap, step)
    ensures Invariant(Next(s, maxTotal, overlap, step), maxTotal, overlap, lag, initial)
  {
    UpsertSize(s.rows, s.worker.job, step.now, step.newId);
  }

  lemma StepKeepsInvariant(s: State, maxTotal: int, overlap: nat, lag: int, initial: nat, step: Step)
    requires maxTotal > 0 && overlap <= lag
    requires Invariant(s, maxTotal, overlap, lag, initial) && Enabled(s, overlap, step)
    ensures Invariant(Next(s, maxTotal, overlap, step), maxTotal, overlap, lag, initial)
  {
    match step
    case Persist(_, _, _) => PersistKeepsInvariant(s, maxTotal, overlap, lag, initial, step);
    case Clean(cutoff) => SweepShrinks(s.rows, cutoff);
    case _ =>
  }

  lemma {:induction false} ReachableKeepsInvariant(start: State, maxTotal: int, overlap: nat, lag: int, initial: nat,
          steps: seq<Step>, s: State)
    requires maxTotal > 0 && overlap <= lag
    requires Invariant(start, maxTotal, overlap, lag, initial) && Reachable(start, maxTotal, overlap, steps, s)
    ensures Invariant(s, maxTotal, overlap, lag, initial)
    decreases |steps|
  {
    if steps != [] {
      var p :| Reachable(start, maxTotal, overlap, Front(steps), p)
               && Enabled(p, overlap, Last(steps)) && s == Next(p, maxTotal, overlap, Last(steps));
      ReachableKeepsInvariant(start, maxTotal, overlap, lag, initial, Front(steps), p);
      StepKeepsInvariant(p, maxTotal, overlap, lag, initial, Last(steps));
    }
  }

  /** The worker as it enters its loop, with the count that startup left in the counter. */
  function Started(rows: Table, counter: int): State {
    State(rows, counter, Idle, Waiting, 0)
  }

  /** However far the counter starts behind the table, the table never outgrows the larger of its
      initial size and the cap plus the larger of that lag and the overlap, plus the inserts that were
      committed and reported as failed. A failed startup count (counter 0) therefore costs up to the
      initial size. */
  lemma LaggingCapBound(rows: Table, counter: int, maxTotal: int, overlap: nat, steps: seq<Step>, s: State)
    requires maxTotal > 0 && Reachable(Started(rows, counter), maxTotal, overlap, steps, s)
    ensures |s.rows| <= Max(|rows|, maxTotal + Max(overlap, |rows| - counter) + s.unseen)
  {
    var lag := Max(overlap, |rows| - counter);
    ReachableKeepsInvariant(Started(rows, counter), maxTotal, overlap, lag, |rows|, steps, s);
  }

  /** Job cap: after a successful startup count, with at most K inserts in any refresh and L inserts
      committed and reported as failed, the stored rows never exceed max(initial rows, cap + K + L). */
  lemma CapBound(rows: Table, counter: int, maxTotal: int, overlap: nat, steps: seq<Step>, s: State)
    requires maxTotal > 0 && counter >= |rows| && Reachable(Started(rows, counter), maxTotal, overlap, steps, s)
    ensures |s.rows| <= Max(|rows|, maxTotal + overlap + s.unseen)
  {
    LaggingCapBound(rows, counter, maxTotal, overlap, steps, s);
  }

  /** A check passes exactly when there is room by the counter; without a cap, which is a cap of 0 or
      less, it always does, and the worker stores the job it was given. */
  lemma CheckIsExact(s: State, maxTotal: int, overlap: nat, job: Job, now: int, newId: string)
    requires s.worker.Idle? && s.refresher.Waiting?
    ensures var checked := Next(s, maxTotal, overlap, Check(job));
            && (checked.worker == Checked(job) <==> maxTotal <= 0 || s.counter < maxTotal)
            && (checked.worker == Checked(job) ==>
                  Next(checked, maxTotal, overlap, Persist(now, newId, NoFault)).rows == Upserted(s.rows, job, now, newId))
            && (checked.worker != Checked(job) ==> checked == s)
  {
  }

  // ---- The bound is attained ----

  lemma Extend(start: State, maxTotal: int, overlap: nat, steps: seq<Step>, s: State, step: Step)
    requires Reachable(start, maxTotal, overlap, steps, s) && Enabled(s, overlap, step)
    ensures Reachable(start, maxTotal, overlap, steps + [step], Next(s, maxTotal, overlap, step))
  {
    assert Front(steps + [step]) == steps;
  }

  function Sample(fingerprint: string): Job {
    Job("", "XING", "", "", "", "", "", "NONE", None, None, "", "", [], "", fingerprint, None, None)
  }

  /** The table after one more insert of a sample job. */
  function Grown(rows: Table, name: string): Table {
    rows[name := Row(name, FactsOf(Sample(name)), "", 0, 0)]
  }

  /** What an insert by a worker that has checked does. */
  function Saved(s: State, rows: Table, fault: DbFault): State {
    State(rows, s.counter, if fault == NoFault then Stored else Idle,
          if s.refresher.Counted? then Counted(s.refresher.n, s.refresher.inserts + 1) else Waiting,
          s.unseen + if fault == CommittedUnseen then 1 else 0)
  }

  lemma PersistInserts(s: State, maxTotal: int, overlap: nat, name: string, fault: DbFault)
    requires s.worker == Checked(Sample(name)) && (s.refresher.Counted? ==> s.refresher.inserts < overlap)
    requires |name| <= 64 && name !in s.rows && !HasFingerprint(s.rows, name) && fault != NotCommitted
    ensures Enabled(s, overlap, Persist(0, name, fault))
    ensures Next(s, maxTotal, overlap, Persist(0, name, fault)) == Saved(s, Grown(s.rows, name), fault)
  {
  }

  lemma PersistFollows(start: State, maxTotal: int, overlap: nat, before: seq<Step>, p: State, name: string, fault: DbFault)
    returns (steps: seq<Step>, s: State)
    requires Reachable(start, maxTotal, overlap, before, p) && p.worker == Checked(Sample(name))
    requires |name| <= 64 && name !in p.rows && !HasFingerprint(p.rows, name) && fault != NotCommitted
    requires p.refresher.Counted? ==> p.refresher.inserts < overlap
    ensures Reachable(start, maxTotal, overlap, steps, s) && s == Saved(p, Grown(p.rows, name), fault)
  {
    PersistInserts(p, maxTotal, overlap, name, fault);
    Extend(start, maxTotal, overlap, before, p, Persist(0, name, fault));
    steps, s := before + [Persist(0, name, fault)], Next(p, maxTotal, overlap, Persist(0, name, fault));
  }

  /** What n inserts do, acknowledged and so counted, or unseen. */
  function Inserted(p: State, rows: Table, n: nat, fault: DbFault): State {
    State(rows, p.counter + if fault == NoFault then n else 0, Idle,
          if p.refresher.Counted? then Counted(p.refresher.n, p.refresher.inserts + n) else Waiting,
          p.unseen + if fault == CommittedUnseen then n else 0)
  }

  lemma CheckPasses(start: State, maxTotal: int, overlap: nat, before: seq<Step>, p: State, job: Job)
    returns (steps: seq<Step>, s: State)
    requires Reachable(start, maxTotal, overlap, before, p) && p.worker.Idle? && p.counter < maxTotal
    ensures Reachable(start, maxTotal, overlap, steps, s) && s == p.(worker := Checked(job))
  {
    Extend(start, maxTotal, overlap, before, p, Check(job));
    steps, s := before + [Check(job)], Next(p, maxTotal, overlap, Check(job));
  }

  lemma BumpFollows(start: State, maxTotal: int, overlap: nat, before: seq<Step>, p: State)
    returns (steps: seq<Step>, s: State)
    requires Reachable(start, maxTotal, overlap, before, p) && p.worker.Stored?
    ensures Reachable(start, maxTotal, overlap, steps, s) && s == p.(counter := p.counter + 1, worker := Idle)
  {
    Extend(start, maxTotal, overlap, before, p, Bump);
    steps, s := before + [Bump], Next(p, maxTotal, overlap, Bump);
  }

  /** A check, a persist that inserts, and a bump unless the insert goes unseen. */
  lemma InsertOnce(start: State, maxTotal: int, overlap: nat, before: seq<Step>, p: State, name: string, fault: DbFault)
    returns (steps: seq<Step>, s: State)
    requires Reachable(start, maxTotal, overlap, before, p) && p.worker.Idle? && p.counter < maxTotal
    requires |name| <= 64 && name !in p.rows && !HasFingerprint(p.rows, name) && fault != NotCommitted
    requires p.refresher.Counted? ==> p.refresher.inserts < overlap
    ensures Reachable(start, maxTotal, overlap, steps, s) && s == Inserted(p, Grown(p.rows, name), 1, fault)
  {
    steps, s := CheckPasses(start, maxTotal, overlap, before, p, Sample(name));
    steps, s := PersistFollows(start, maxTotal, overlap, steps, s, name, fault);
    if fault == NoFault {
      steps, s := BumpFollows(start, maxTotal, overlap, steps, s);
    }
  }

  /** The row is the i-th of the sample jobs. */
  predicate IsSample(rows: Table, id: string, i: nat)
    requires id in rows
  {
    id == Decimal.PrintNat(i) && rows[id].facts.fingerprint == id
  }

  /** The table holds sample jobs numbered below its size. */
  ghost predicate Numbered(rows: Table) {
    forall id :: id in rows ==> exists i: nat :: i < |rows| && IsSample(rows, id, i)
  }

  lemma NextIsNew(rows: Table)
    requires Numbered(rows)
    ensures var name := Decimal.PrintNat(|rows|);
            name !in rows && !HasFingerprint(rows, name) && Numbered(Grown(rows, name)) && |Grown(rows, name)| == |rows| + 1
  {
    var name := Decimal.PrintNat(|rows|);
    forall id | id in rows ensures id != name && rows[id].facts.fingerprint != name {
      var i: nat :| i < |rows| && IsSample(rows, id, i);
      if id == name { Decimal.PrintNatInjective(i, |rows|); }
    }
    var grown := Grown(rows, name);
    forall id | id in grown ensures exists i: nat :: i < |grown| && IsSample(grown, id, i) {
      if id == name {
        assert IsSample(grown, id, |rows|);
      } else {
        var i: nat :| i < |rows| && IsSample(rows, id, i);
        assert IsSample(grown, id, i);
      }
    }
  }

  lemma InsertedAgain(p: State, t: State, s: State, n: nat, fault: DbFault)
    requires n > 0 && t == Inserted(p, t.rows, n - 1, fault) && s == Inserted(t, s.rows, 1, fault)
    ensures s == Inserted(p, s.rows, n, fault)
  {
  }

  lemma {:induction false} InsertMany(start: State, maxTotal: int, overlap: nat, before: seq<Step>, p: State,
          n: nat, fault: DbFault)
    returns (steps: seq<Step>, s: State)
    requires Reachable(start, maxTotal, overlap, before, p) && p.worker.Idle? && fault != NotCommitted
    requires Numbered(p.rows) && |p.rows| + n <= MAX_INT64
    requires if fault == NoFault then p.counter + n <= maxTotal else p.counter < maxTotal
    requires p.refresher.Counted? ==> p.refresher.inserts + n <= overlap
    ensures Reachable(start, maxTotal, overlap, steps, s) && s == Inserted(p, s.rows, n, fault)
    ensures Numbered(s.rows) && |s.rows| == |p.rows| + n
  {
    if n == 0 {
      steps, s := before, p;
    } else {
      assert fault == NoFault ==> p.counter + (n - 1) < maxTotal;
      var b, t := InsertMany(start, maxTotal, overlap, before, p, n - 1, fault);
      NextIsNew(t.rows);
      Decimal.PrintInt64Fits(|t.rows|);
      steps, s := InsertOnce(start, maxTotal, overlap, b, t, Decimal.PrintNat(|t.rows|), fault);
      InsertedAgain(p, t, s, n, fault);
    }
  }

  /** Neither the overlap nor the unseen inserts can be dropped from the bound: for every cap, every
      K up to the cap and every L, some run from the empty table stores cap + K + L jobs. A refresh that
      spans K inserts takes their increments away, L more go unseen, and the cap is still to come. */
  lemma CapBoundIsAttained(maxTotal: nat, overlap: nat, unseen: nat) returns (steps: seq<Step>, s: State)
    requires 1 <= maxTotal && overlap <= maxTotal && maxTotal + overlap + unseen <= MAX_INT64
    ensures Reachable(Started(map[], 0), maxTotal, overlap, steps, s) && s.unseen == unseen
    ensures |s.rows| == maxTotal + overlap + unseen
  {
    var start := Started(map[], 0);
    Extend(start, maxTotal, overlap, [], start, BeginRefresh);
    steps, s := [] + [BeginRefresh], Next(start, maxTotal, overlap, BeginRefresh);
    steps, s := InsertMany(start, maxTotal, overlap, steps, s, overlap, NoFault);
    Extend(start, maxTotal, overlap, steps, s, EndRefresh);
    steps, s := steps + [EndRefresh], Next(s, maxTotal, overlap, EndRefresh);
    steps, s := InsertMany(start, maxTotal, overlap, steps, s, unseen, CommittedUnseen);
    steps, s := InsertMany(start, maxTotal, overlap, steps, s, maxTotal, NoFault);
  }

  // ---- Self-healing ----

  /** Between its count and its store a refresh remembers the size the table had at its count. */
  lemma {:induction false} RefreshRemembers(s: State, maxTotal: int, overlap: nat, between: seq<Step>, t: State)
    requires s.refresher.Waiting? && EndRefresh !in between
    requires Reachable(Next(s, maxTotal, overlap, BeginRefresh), maxTotal, overlap, between, t)
    ensures t.refresher.Counted? && t.refresher.n == |s.rows|
    decreases |between|
  {
    if between != [] {
      var begun := Next(s, maxTotal, overlap, BeginRefresh);
      var p :| Reachable(begun, maxTotal, overlap, Front(between), p)
               && Enabled(p, overlap, Last(between)) && t == Next(p, maxTotal, overlap, Last(between));
      RefreshRemembers(s, maxTotal, overlap, Front(between), p);
    }
  }

  /** A refresh makes the counter exact if and only if the table has the same size when it stores as
      when it counted, whatever happened in between. Then the cap reopens: the next check passes
      exactly when the table is below the cap. An increment still pending puts the counter one ahead. */
  lemma RefreshIsExact(s: State, maxTotal: int, overlap: nat, between: seq<Step>, t: State, job: Job)
    requires maxTotal > 0 && s.refresher.Waiting? && EndRefresh !in between
    requires Reachable(Next(s, maxTotal, overlap, BeginRefresh), maxTotal, overlap, between, t)
    ensures t.refresher.Counted?
    ensures var u := Next(t, maxTotal, overlap, EndRefresh);
            && (u.counter == |u.rows| <==> |t.rows| == |s.rows|)
            && (u.counter == |u.rows| && u.worker.Idle? ==>
                  Next(u, maxTotal, overlap, Check(job)).worker == if |u.rows| < maxTotal then Checked(job) else Idle)
            && (u.counter == |u.rows| && u.worker.Stored? ==> Next(u, maxTotal, overlap, Bump).counter == |u.rows| + 1)
  {
    RefreshRemembers(s, maxTotal, overlap, between, t);
  }

  /** The cap heals itself: where the table is full, a sweep and a refresh let the next job through if and
      only if the sweep found a row that is older than its cutoff. */
  lemma SweepReopensTheCap(s: State, maxTotal: int, overlap: nat, cutoff: int, job: Job)
    requires maxTotal > 0 && s.worker.Idle? && s.refresher.Waiting? && |s.rows| == maxTotal
    ensures var swept := Next(s, maxTotal, overlap, Clean(cutoff));
            var counted := Next(swept, maxTotal, overlap, BeginRefresh);
            var renewed := Next(counted, maxTotal, overlap, EndRefresh);
            Next(renewed, maxTotal, overlap, Check(job)).worker == Checked(job) <==>
            exists id :: id in s.rows && s.rows[id].createdAt < cutoff
  {
    var kept := Swept(s.rows, cutoff);
    SweepShrinks(s.rows, cutoff);
    if id :| id in s.rows && s.rows[id].createdAt < cutoff {
      SubsetSize(kept.Keys, s.rows.Keys - {id});
      assert |kept| == |kept.Keys| && |s.rows| == |s.rows.Keys| && |s.rows.Keys - {id}| == |s.rows.Keys| - 1;
    } else {
      assert kept == s.rows;
    }
  }
}

/** internal/processor/worker.go over internal/processor/dedup.go: which deliveries of a worker's run are
    dropped as duplicates, in URLs and job fields. */
module Duplicates {
  import opened Prelude
  import opened Jobs
  import opened Dedup
  import opened Processor
  import Fingerprint

  type Deliveries = seq<(Message, Env)>

  ghost function OutcomeAt(w: World, d: Deliveries, i: nat, tools: Tools, maxTotal: int): Outcome
    requires i < |d|
  {
    Processed(RunAll(w, d, i, tools, maxTotal).0, d[i].0, d[i].1, tools, maxTotal).1
  }

  lemma RunStep(w: World, d: Deliveries, n: nat, tools: Tools, maxTotal: int)
    requires n < |d|
    ensures var before, after := RunAll(w, d, n, tools, maxTotal), RunAll(w, d, n + 1, tools, maxTotal);
            && after.0 == Processed(before.0, d[n].0, d[n].1, tools, maxTotal).0
            && after.1 == before.1 + [OutcomeAt(w, d, n, tools, maxTotal)]
  {
  }

  lemma {:induction false} GrownList<T>(lists: seq<seq<T>>, items: seq<T>, n: nat)
    requires n < |lists| && n <= |items| && lists[0] == []
    requires forall i :: 0 <= i < n ==> lists[i + 1] == lists[i] + [items[i]]
    ensures lists[n] == items[..n]
  {
    if n > 0 {
      GrownList(lists, items, n - 1);
    }
  }

  /** The outcomes that a run lists are those of its deliveries. */
  lemma OutcomesAre(w: World, d: Deliveries, k: nat, tools: Tools, maxTotal: int)
    requires k < |d|
    ensures RunAll(w, d, |d|, tools, maxTotal).1[k] == OutcomeAt(w, d, k, tools, maxTotal)
  {
    var lists := seq(|d| + 1, i requires 0 <= i <= |d| => RunAll(w, d, i, tools, maxTotal).1);
    var items := seq(|d|, i requires 0 <= i < |d| => OutcomeAt(w, d, i, tools, maxTotal));
    forall i | 0 <= i < |d| ensures lists[i + 1] == lists[i] + [items[i]] {
      RunStep(w, d, i, tools, maxTotal);
    }
    GrownList(lists, items, |d|);
  }

  // ---- What a delivery claims, by its outcome ----

  /** Redis answered the URL check, and the delivery was not dropped there. */
  predicate ClaimsUrl(m: Message, env: Env, o: Outcome) {
    m.body.Raw? && !env.urlFails && o != UrlDuplicate
  }

  /** The delivery got as far as the content check. */
  predicate ReachesContent(m: Message, env: Env, o: Outcome) {
    m.body.Raw? && o != UrlDuplicate && m.body.source in {"STEPSTONE", "XING", "INDEED"} && env.parsed.Some?
  }

  predicate ClaimsContent(m: Message, env: Env, o: Outcome) {
    ReachesContent(m, env, o) && !env.contentFails && o != ContentDuplicate
  }

  /** The delivery claimed this key, and at that instant the claim stands. */
  predicate HoldsUrl(m: Message, env: Env, o: Outcome, tools: Tools, key: string, at: int) {
    ClaimsUrl(m, env, o) && key == UrlKey(m.body.url, tools.hash) && at < env.urlAt + 24 * 3600 * 1000
  }

  predicate HoldsContent(m: Message, env: Env, o: Outcome, tools: Tools, key: string, at: int) {
    ClaimsContent(m, env, o) && key == PageKey(env, tools) && at < env.contentAt + 7 * 24 * 3600 * 1000
  }

  /** A claim leaves a key taken exactly where it was taken before or the claim itself stands. */
  lemma ClaimTakes(claims: Claims, key: string, at: int, ttl: int, fails: bool, other: string, when: int)
    requires ttl > 0
    ensures Taken(Processor.Claimed(claims, key, at, ttl, fails), other, when)
       <==> Taken(claims, other, when) || (!fails && !Taken(claims, key, at) && other == key && when < at + ttl)
  {
  }

  lemma HandledClaims(w: World, m: Message, env: Env, urlKey: string, job: Option<Job>, maxTotal: int)
    ensures var claims := Processor.Claimed(w.claims, urlKey, env.urlAt, URL_TTL, env.urlFails);
            Handled(w, m, env, urlKey, job, maxTotal).0.claims ==
            if Seen(w.claims, urlKey, env.urlAt, env.urlFails) || job.None? then claims
            else Processor.Claimed(claims, JobKey(job.value.fingerprint), env.contentAt, JOB_TTL, env.contentFails)
  {
    if job.Some? {
      var u := w.(claims := Processor.Claimed(w.claims, urlKey, env.urlAt, URL_TTL, env.urlFails));
      var v := u.(claims := Processor.Claimed(u.claims, JobKey(job.value.fingerprint), env.contentAt, JOB_TTL, env.contentFails));
      StoredKeepsClaims(v, m, job.value, env, maxTotal);
    }
  }

  lemma StoredKeepsClaims(w: World, m: Message, job: Job, env: Env, maxTotal: int)
    ensures Stored(w, m, job, env, maxTotal).0.claims == w.claims
  {
  }

  /** The claims of a delivery and what it claims, by the two checks. */
  lemma ClaimsByCause(w: World, m: Message, env: Env, tools: Tools, maxTotal: int)
    ensures var r := Processed(w, m, env, tools, maxTotal);
            if m.body.Malformed? then r.0.claims == w.claims
            else
              var urlKey := UrlKey(m.body.url, tools.hash);
              var claims := Processor.Claimed(w.claims, urlKey, env.urlAt, URL_TTL, env.urlFails);
              && (ClaimsUrl(m, env, r.1) <==> !env.urlFails && !Taken(w.claims, urlKey, env.urlAt))
              && (ReachesContent(m, env, r.1) <==> PassesUrl(w, m, env, tools) && Parses(m, env))
              && (ReachesContent(m, env, r.1) ==>
                    (ClaimsContent(m, env, r.1) <==> !env.contentFails && !Taken(claims, PageKey(env, tools), env.contentAt)))
              && r.0.claims == if !ReachesContent(m, env, r.1) then claims
                               else Processor.Claimed(claims, PageKey(env, tools), env.contentAt, JOB_TTL, env.contentFails)
  {
    OutcomeByCause(w, m, env, tools, maxTotal);
    if m.body.Raw? {
      HandledClaims(w, m, env, UrlKey(m.body.url, tools.hash), ParsedJob(m, env, tools), maxTotal);
      if env.parsed.Some? {
        UrlClaimLeavesContent(w, m, env, tools);
      }
    }
  }

  /** After a delivery a key is taken exactly where it was before or a claim of this delivery stands. */
  lemma DeliveryTakes(w: World, m: Message, env: Env, tools: Tools, maxTotal: int, key: string, at: int)
    ensures var r := Processed(w, m, env, tools, maxTotal);
            Taken(r.0.claims, key, at) <==>
            Taken(w.claims, key, at) || HoldsUrl(m, env, r.1, tools, key, at) || HoldsContent(m, env, r.1, tools, key, at)
  {
    ClaimsByCause(w, m, env, tools, maxTotal);
    if m.body.Raw? {
      var urlKey := UrlKey(m.body.url, tools.hash);
      var claims := Processor.Claimed(w.claims, urlKey, env.urlAt, URL_TTL, env.urlFails);
      ClaimTakes(w.claims, urlKey, env.urlAt, URL_TTL, env.urlFails, key, at);
      if env.parsed.Some? {
        ClaimTakes(claims, PageKey(env, tools), env.contentAt, JOB_TTL, env.contentFails, key, at);
      }
    }
  }

  // ---- Runs from no claims ----

  ghost predicate HeldFrom(w: World, d: Deliveries, i: nat, tools: Tools, maxTotal: int, key: string, at: int)
    requires i < |d|
  {
    var o := OutcomeAt(w, d, i, tools, maxTotal);
    HoldsUrl(d[i].0, d[i].1, o, tools, key, at) || HoldsContent(d[i].0, d[i].1, o, tools, key, at)
  }

  lemma TakenStep(w: World, d: Deliveries, n: nat, tools: Tools, maxTotal: int, key: string, at: int)
    requires n < |d|
    ensures Taken(RunAll(w, d, n + 1, tools, maxTotal).0.claims, key, at)
       <==> Taken(RunAll(w, d, n, tools, maxTotal).0.claims, key, at) || HeldFrom(w, d, n, tools, maxTotal, key, at)
  {
    RunStep(w, d, n, tools, maxTotal);
    DeliveryTakes(RunAll(w, d, n, tools, maxTotal).0, d[n].0, d[n].1, tools, maxTotal, key, at);
  }

  lemma {:induction false} TakenOnceHeld(taken: seq<bool>, held: seq<bool>, n: nat)
    requires n < |taken| && n <= |held| && !taken[0]
    requires forall i :: 0 <= i < n ==> (taken[i + 1] <==> taken[i] || held[i])
    ensures taken[n] <==> exists i :: 0 <= i < n && held[i]
  {
    if n > 0 {
      TakenOnceHeld(taken, held, n - 1);
    }
  }

  ghost function TakenAfter(w: World, d: Deliveries, n: nat, tools: Tools, maxTotal: int, key: string, at: int): (r: seq<bool>)
    requires n <= |d|
    ensures |r| == n + 1 && forall i :: 0 <= i <= n ==> r[i] == Taken(RunAll(w, d, i, tools, maxTotal).0.claims, key, at)
  {
    seq(n + 1, i requires 0 <= i <= n => Taken(RunAll(w, d, i, tools, maxTotal).0.claims, key, at))
  }

  ghost function HeldAfter(w: World, d: Deliveries, n: nat, tools: Tools, maxTotal: int, key: string, at: int): (r: seq<bool>)
    requires n <= |d|
    ensures |r| == n && forall i :: 0 <= i < n ==> r[i] == HeldFrom(w, d, i, tools, maxTotal, key, at)
  {
    seq(n, i requires 0 <= i < n => HeldFrom(w, d, i, tools, maxTotal, key, at))
  }

  lemma HeldStep(w: World, d: Deliveries, n: nat, tools: Tools, maxTotal: int, key: string, at: int, i: nat)
    requires i < n <= |d|
    ensures var taken := TakenAfter(w, d, n, tools, maxTotal, key, at);
            taken[i + 1] <==> taken[i] || HeldAfter(w, d, n, tools, maxTotal, key, at)[i]
  {
    TakenStep(w, d, i, tools, maxTotal, key, at);
  }

  /** A key is taken after n deliveries exactly when a claim that one of them made on it stands. */
  lemma TakenIsHeld(w: World, d: Deliveries, n: nat, tools: Tools, maxTotal: int, key: string, at: int)
    requires n <= |d| && w.claims == map[]
    ensures Taken(RunAll(w, d, n, tools, maxTotal).0.claims, key, at)
       <==> exists i :: 0 <= i < n && HeldAfter(w, d, n, tools, maxTotal, key, at)[i]
  {
    var taken, held := TakenAfter(w, d, n, tools, maxTotal, key, at), HeldAfter(w, d, n, tools, maxTotal, key, at);
    forall i | 0 <= i < n ensures taken[i + 1] <==> taken[i] || held[i] {
      HeldStep(w, d, n, tools, maxTotal, key, at, i);
    }
    assert !taken[0];
    TakenOnceHeld(taken, held, n);
  }

  // ---- URLs ----

  /** Delivery i claimed that URL less than 24 hours before the instant. */
  ghost predicate UrlRecently(d: Deliveries, outcomes: seq<Outcome>, i: nat, url: string, at: int)
    requires i < |d| == |outcomes|
  {
    ClaimsUrl(d[i].0, d[i].1, outcomes[i]) && d[i].0.body.url == url && at < d[i].1.urlAt + 24 * 3600 * 1000
  }

  lemma HeldUrl(w: World, d: Deliveries, i: nat, tools: Tools, maxTotal: int, url: string, at: int)
    requires i < |d| && Fingerprint.Injective(tools.hash)
    ensures HeldFrom(w, d, i, tools, maxTotal, UrlKey(url, tools.hash), at)
       <==> UrlRecently(d, RunAll(w, d, |d|, tools, maxTotal).1, i, url, at)
  {
    OutcomesAre(w, d, i, tools, maxTotal);
    if d[i].0.body.Raw? {
      UrlKeysDiffer(d[i].0.body.url, url, tools.hash);
      if d[i].1.parsed.Some? {
        var page := d[i].1.parsed.value;
        KeysAreApart(url, Fingerprint.Fingerprint(page.title, page.company, page.location, tools.low, tools.hash), tools.hash);
      }
    }
  }

  /** On every run from no claims, whatever fails on the way: a delivery is dropped as a URL duplicate if and
      only if Redis answers it and an earlier delivery of the same URL claimed it less than 24 hours
      before. */
  lemma UrlDuplicatesAreRecent(w: World, d: Deliveries, k: nat, tools: Tools, maxTotal: int)
    requires w.claims == map[] && k < |d| && Fingerprint.Injective(tools.hash)
    ensures var outcomes, m, env := RunAll(w, d, |d|, tools, maxTotal).1, d[k].0, d[k].1;
            outcomes[k] == UrlDuplicate <==>
            m.body.Raw? && !env.urlFails
            && exists i :: 0 <= i < k && UrlRecently(d, outcomes, i, m.body.url, env.urlAt)
  {
    var m, env, before := d[k].0, d[k].1, RunAll(w, d, k, tools, maxTotal).0;
    OutcomesAre(w, d, k, tools, maxTotal);
    OutcomeByCause(before, m, env, tools, maxTotal);
    if m.body.Raw? {
      TakenIsHeld(w, d, k, tools, maxTotal, UrlKey(m.body.url, tools.hash), env.urlAt);
      forall i | 0 <= i < k
        ensures HeldAfter(w, d, k, tools, maxTotal, UrlKey(m.body.url, tools.hash), env.urlAt)[i]
           <==> UrlRecently(d, RunAll(w, d, |d|, tools, maxTotal).1, i, m.body.url, env.urlAt)
      {
        HeldUrl(w, d, i, tools, maxTotal, m.body.url, env.urlAt);
      }
    }
  }

  // ---- Content ----

  /** The three fields of two pages normalise alike. */
  predicate SameFields(page: RawJob, other: RawJob, low: char -> char) {
    && Fingerprint.NormaliseField(page.title, low) == Fingerprint.NormaliseField(other.title, low)
    && Fingerprint.NormaliseField(page.company, low) == Fingerprint.NormaliseField(other.company, low)
    && Fingerprint.NormaliseField(page.location, low) == Fingerprint.NormaliseField(other.location, low)
  }

  predicate PipeFree(page: RawJob) {
    '|' !in page.title && '|' !in page.company
  }

  ghost predicate AllPipeFree(d: Deliveries) {
    forall i :: 0 <= i < |d| && d[i].1.parsed.Some? ==> PipeFree(d[i].1.parsed.value)
  }

  /** Delivery i claimed a page of the same fields less than 7 days before the instant. */
  ghost predicate FieldsRecently(d: Deliveries, outcomes: seq<Outcome>, i: nat, page: RawJob, at: int, low: char -> char)
    requires i < |d| == |outcomes|
  {
    ClaimsContent(d[i].0, d[i].1, outcomes[i]) && SameFields(d[i].1.parsed.value, page, low)
    && at < d[i].1.contentAt + 7 * 24 * 3600 * 1000
  }

  lemma HeldContent(w: World, d: Deliveries, i: nat, k: nat, tools: Tools, maxTotal: int, at: int)
    requires i < |d| && k < |d| && d[k].1.parsed.Some? && AllPipeFree(d)
    requires Fingerprint.Injective(tools.hash) && Fingerprint.LowersRunes(tools.low)
    ensures HeldFrom(w, d, i, tools, maxTotal, PageKey(d[k].1, tools), at)
       <==> FieldsRecently(d, RunAll(w, d, |d|, tools, maxTotal).1, i, d[k].1.parsed.value, at, tools.low)
  {
    OutcomesAre(w, d, i, tools, maxTotal);
    var page := d[k].1.parsed.value;
    if d[i].0.body.Raw? {
      KeysAreApart(d[i].0.body.url, Fingerprint.Fingerprint(page.title, page.company, page.location, tools.low, tools.hash),
                   tools.hash);
      if d[i].1.parsed.Some? {
        var other := d[i].1.parsed.value;
        ContentKeysAgree(other.title, other.company, other.location, page.title, page.company, page.location,
                         tools.low, tools.hash);
      }
    }
  }

  /** On every run from no claims, whatever fails on the way: a delivery that gets to its content check is
      dropped there if and only if Redis answers it and an earlier delivery with the same three
      normalised fields claimed them less than 7 days before. */
  lemma ContentDuplicatesAreRecent(w: World, d: Deliveries, k: nat, tools: Tools, maxTotal: int)
    requires w.claims == map[] && k < |d| && AllPipeFree(d)
    requires Fingerprint.Injective(tools.hash) && Fingerprint.LowersRunes(tools.low)
    ensures var outcomes, m, env := RunAll(w, d, |d|, tools, maxTotal).1, d[k].0, d[k].1;
            outcomes[k] == ContentDuplicate <==>
            ReachesContent(m, env, outcomes[k]) && !env.contentFails
            && exists i :: 0 <= i < k && FieldsRecently(d, outcomes, i, env.parsed.value, env.contentAt, tools.low)
  {
    var m, env, before := d[k].0, d[k].1, RunAll(w, d, k, tools, maxTotal).0;
    OutcomesAre(w, d, k, tools, maxTotal);
    OutcomeByCause(before, m, env, tools, maxTotal);
    if Parses(m, env) {
      TakenIsHeld(w, d, k, tools, maxTotal, PageKey(env, tools), env.contentAt);
      forall i | 0 <= i < k
        ensures HeldAfter(w, d, k, tools, maxTotal, PageKey(env, tools), env.contentAt)[i]
           <==> FieldsRecently(d, RunAll(w, d, |d|, tools, maxTotal).1, i, env.parsed.value, env.contentAt, tools.low)
      {
        HeldContent(w, d, i, k, tools, maxTotal, env.contentAt);
      }
    }
  }
}

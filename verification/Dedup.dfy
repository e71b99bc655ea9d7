/** internal/processor/dedup.go: claims by SETNX with an expiry. Times are milliseconds. */
module Dedup {
  import opened Prelude
  import Fingerprint

  const URL_TTL: int := 24 * 3600 * 1000
  const JOB_TTL: int := 7 * 24 * 3600 * 1000

  // Each claimed key with the instant at which Redis drops it.
  type Claims = map<string, int>

  predicate Taken(claims: Claims, key: string, at: int) {
    key in claims && at < claims[key]
  }

  /** SETNX: the first claimant gets the key until it expires. */
  function SetNX(claims: Claims, key: string, at: int, ttl: int): Claims {
    if Taken(claims, key, at) then claims else claims[key := at + ttl]
  }

  function UrlKey(url: string, hash: string -> string): string {
    "dedup:url:" + hash(url)
  }

  function JobKey(fingerprint: string): string {
    "dedup:job:" + fingerprint
  }

  predicate IsUrlKey(key: string) {
    "dedup:url:" <= key
  }

  lemma KeysAreApart(url: string, fingerprint: string, hash: string -> string)
    ensures IsUrlKey(UrlKey(url, hash)) && !IsUrlKey(JobKey(fingerprint))
  {
    assert JobKey(fingerprint)[6] == 'j' && "dedup:url:"[6] == 'u';
  }

  /** No two fingerprints share a key. */
  lemma JobKeysDiffer(a: string, b: string)
    ensures JobKey(a) == JobKey(b) <==> a == b
  {
    var n := |"dedup:job:"|;
    assert JobKey(a)[n..] == a && JobKey(b)[n..] == b;
  }

  /** Neither do two URLs, unless SHA-256 maps them together. */
  lemma UrlKeysDiffer(url: string, other: string, hash: string -> string)
    ensures UrlKey(url, hash) == UrlKey(other, hash) <==> hash(url) == hash(other)
  {
    var n := |"dedup:url:"|;
    assert UrlKey(url, hash)[n..] == hash(url) && UrlKey(other, hash)[n..] == hash(other);
  }

  /** Two jobs with pipe-free titles and companies share a key if and only if all three normalised fields
      agree. */
  lemma ContentKeysAgree(t: string, c: string, l: string, t': string, c': string, l': string,
                         low: char -> char, hash: string -> string)
    requires Fingerprint.LowersRunes(low) && Fingerprint.Injective(hash)
    requires '|' !in t && '|' !in c && '|' !in t' && '|' !in c'
    ensures JobKey(Fingerprint.Fingerprint(t, c, l, low, hash)) == JobKey(Fingerprint.Fingerprint(t', c', l', low, hash))
       <==> && Fingerprint.NormaliseField(t, low) == Fingerprint.NormaliseField(t', low)
            && Fingerprint.NormaliseField(c, low) == Fingerprint.NormaliseField(c', low)
            && Fingerprint.NormaliseField(l, low) == Fingerprint.NormaliseField(l', low)
  {
    JobKeysDiffer(Fingerprint.Fingerprint(t, c, l, low, hash), Fingerprint.Fingerprint(t', c', l', low, hash));
    Fingerprint.FingerprintIdentifies(t, c, l, t', c', l', low, hash);
  }

  class Deduplicator {
    var claims: Claims

    constructor ()
      ensures claims == map[]
    {
      claims := map[];
    }

    /** A claim by key; when Redis fails nothing is claimed and the caller is told it is new. */
    method Check(key: string, at: int, ttl: int, fails: bool) returns (seen: bool, err: bool)
      modifies this
      ensures err <==> fails
      ensures fails ==> !seen && claims == old(claims)
      ensures !fails ==> (seen <==> Taken(old(claims), key, at)) && claims == SetNX(old(claims), key, at, ttl)
    {
      if fails {
        return false, true;
      }
      seen, err := Taken(claims, key, at), false;
      claims := SetNX(claims, key, at, ttl);
    }

    method IsUrlCrawled(url: string, hash: string -> string, at: int, fails: bool) returns (seen: bool, err: bool)
      modifies this
      ensures err <==> fails
      ensures fails ==> !seen && claims == old(claims)
      ensures !fails ==> (seen <==> Taken(old(claims), UrlKey(url, hash), at))
                         && claims == SetNX(old(claims), UrlKey(url, hash), at, URL_TTL)
    {
      seen, err := Check(UrlKey(url, hash), at, URL_TTL, fails);
    }

    method IsDuplicate(title: string, company: string, location: string, low: char -> char, hash: string -> string,
                       at: int, fails: bool) returns (seen: bool, err: bool)
      modifies this
      ensures err <==> fails
      ensures fails ==> !seen && claims == old(claims)
      ensures var key := JobKey(Fingerprint.Fingerprint(title, company, location, low, hash));
              !fails ==> (seen <==> Taken(old(claims), key, at)) && claims == SetNX(old(claims), key, at, JOB_TTL)
    {
      seen, err := Check(JobKey(Fingerprint.Fingerprint(title, company, location, low, hash)), at, JOB_TTL, fails);
    }
  }
}

/** Any number of workers and redeliveries racing on the claims. */
module DedupRuns {
  import opened Prelude
  import opened Dedup

  /** A delivery that got past its URL check: when it claimed the URL (None if Redis failed), then
      the content key with its claim, and whether the job was upserted, acknowledged or not. */
  datatype Delivery = Delivery(
    url: string, urlClaim: Option<int>, content: Option<string>, contentClaim: Option<int>, open: bool, persisted: bool)

  datatype State = State(claims: Claims, clock: int, deliveries: map<nat, Delivery>)

  datatype Step =
    | CheckUrl(id: nat, key: string, at: int, fails: bool)
    | CheckContent(id: nat, key: string, at: int, fails: bool)
    | Persist(id: nat)
    | GiveUp(id: nat)  // unknown source, parse error, cap reached, an upsert not committed, or a crash

  const INITIAL := State(map[], 0, map[])

  /** URL keys and content keys have prefixes that keep them apart. */
  predicate Enabled(s: State, step: Step) {
    match step
    case CheckUrl(id, key, at, _) => id !in s.deliveries && at >= s.clock && IsUrlKey(key)
    case CheckContent(id, key, at, _) =>
      id in s.deliveries && s.deliveries[id].open && s.deliveries[id].content.None? && at >= s.clock && !IsUrlKey(key)
    case Persist(id) => id in s.deliveries && s.deliveries[id].open && s.deliveries[id].content.Some?
    case GiveUp(id) => id in s.deliveries && s.deliveries[id].open
  }

  function Next(s: State, step: Step): State
    requires Enabled(s, step)
  {
    match step
    case CheckUrl(id, key, at, fails) =>
      if fails then State(s.claims, at, s.deliveries[id := Delivery(key, None, None, None, true, false)])
      else if Taken(s.claims, key, at) then s.(clock := at)
      else State(SetNX(s.claims, key, at, URL_TTL), at, s.deliveries[id := Delivery(key, Some(at), None, None, true, false)])
    case CheckContent(id, key, at, fails) =>
      var d := s.deliveries[id];
      if fails then State(s.claims, at, s.deliveries[id := d.(content := Some(key))])
      else if Taken(s.claims, key, at) then State(s.claims, at, s.deliveries[id := d.(open := false)])
      else State(SetNX(s.claims, key, at, JOB_TTL), at, s.deliveries[id := d.(content := Some(key), contentClaim := Some(at))])
    case Persist(id) => s.(deliveries := s.deliveries[id := s.deliveries[id].(open := false, persisted := true)])
    case GiveUp(id) => s.(deliveries := s.deliveries[id := s.deliveries[id].(open := false)])
  }

  ghost predicate Reachable(steps: seq<Step>, s: State)
    decreases |steps|
  {
    if steps == [] then s == INITIAL
    else exists p :: Reachable(Front(steps), p) && Enabled(p, Last(steps)) && s == Next(p, Last(steps))
  }

  predicate FarApart(a: int, b: int, gap: int) {
    a + gap <= b || b + gap <= a
  }

  /** A claim counts against its key until a full TTL has passed. */
  predicate Holds(s: State, key: string, claim: int, ttl: int) {
    claim <= s.clock && key in s.claims && s.claims[key] >= claim + ttl
  }

  ghost predicate ClaimsHold(s: State) {
    forall id :: id in s.deliveries ==>
      var d := s.deliveries[id];
      && (d.urlClaim.Some? ==> Holds(s, d.url, d.urlClaim.value, URL_TTL))
      && (d.contentClaim.Some? ==> d.content.Some? && Holds(s, d.content.value, d.contentClaim.value, JOB_TTL))
  }

  predicate UrlApart(d: Delivery, e: Delivery) {
    d.url == e.url && d.urlClaim.Some? && e.urlClaim.Some? ==> FarApart(d.urlClaim.value, e.urlClaim.value, URL_TTL)
  }

  predicate ContentApart(d: Delivery, e: Delivery) {
    d.content == e.content && d.contentClaim.Some? && e.contentClaim.Some? ==>
      FarApart(d.contentClaim.value, e.contentClaim.value, JOB_TTL)
  }

  ghost predicate ClaimsApart(s: State) {
    forall a, b :: a in s.deliveries && b in s.deliveries && a != b ==>
      UrlApart(s.deliveries[a], s.deliveries[b]) && ContentApart(s.deliveries[a], s.deliveries[b])
  }

  lemma HoldsOn(s: State, step: Step, key: string, claim: int, ttl: int)
    requires Holds(s, key, claim, ttl) && Enabled(s, step)
    ensures Holds(Next(s, step), key, claim, ttl)
  {
  }

  lemma StepKeepsClaims(s: State, step: Step)
    requires ClaimsHold(s) && Enabled(s, step)
    ensures ClaimsHold(Next(s, step))
  {
    var t := Next(s, step);
    forall id | id in t.deliveries
      ensures var d := t.deliveries[id];
              && (d.urlClaim.Some? ==> Holds(t, d.url, d.urlClaim.value, URL_TTL))
              && (d.contentClaim.Some? ==> d.content.Some? && Holds(t, d.content.value, d.contentClaim.value, JOB_TTL))
    {
      if id in s.deliveries {
        var d := s.deliveries[id];
        if d.urlClaim.Some? { HoldsOn(s, step, d.url, d.urlClaim.value, URL_TTL); }
        if d.contentClaim.Some? { HoldsOn(s, step, d.content.value, d.contentClaim.value, JOB_TTL); }
      }
    }
  }

  lemma StepKeepsApart(s: State, step: Step)
    requires ClaimsHold(s) && ClaimsApart(s) && Enabled(s, step)
    ensures ClaimsApart(Next(s, step))
  {
    var t := Next(s, step);
    forall a, b | a in t.deliveries && b in t.deliveries && a != b
      ensures UrlApart(t.deliveries[a], t.deliveries[b]) && ContentApart(t.deliveries[a], t.deliveries[b])
    {
      if a != step.id && b != step.id {
        assert t.deliveries[a] == s.deliveries[a] && t.deliveries[b] == s.deliveries[b];
      } else {
        var other := if a == step.id then b else a;
        NewClaimIsApart(s, step, other);
      }
    }
  }

  /** The delivery that takes the step stays apart from every other. */
  lemma NewClaimIsApart(s: State, step: Step, other: nat)
    requires ClaimsHold(s) && ClaimsApart(s) && Enabled(s, step) && other in s.deliveries && other != step.id
    requires step.id in Next(s, step).deliveries
    ensures var d, e := Next(s, step).deliveries[step.id], s.deliveries[other];
            Next(s, step).deliveries[other] == e
            && UrlApart(d, e) && UrlApart(e, d) && ContentApart(d, e) && ContentApart(e, d)
  {
    if step.id in s.deliveries {
      var d, e := s.deliveries[step.id], s.deliveries[other];
      assert UrlApart(d, e) && ContentApart(d, e);
    }
  }

  lemma {:induction false} ReachableKeepsApart(steps: seq<Step>, s: State)
    requires Reachable(steps, s)
    ensures ClaimsHold(s) && ClaimsApart(s)
    decreases |steps|
  {
    if steps != [] {
      var p :| Reachable(Front(steps), p) && Enabled(p, Last(steps)) && s == Next(p, Last(steps));
      ReachableKeepsApart(Front(steps), p);
      StepKeepsClaims(p, Last(steps));
      StepKeepsApart(p, Last(steps));
    }
  }

  /** Claims on one key are a full TTL apart, whatever becomes of the deliveries that made them: 24 hours
      for a URL, 7 days for a fingerprint. */
  lemma ClaimsAreApart(steps: seq<Step>, s: State, a: nat, b: nat)
    requires Reachable(steps, s) && a in s.deliveries && b in s.deliveries && a != b
    ensures UrlApart(s.deliveries[a], s.deliveries[b]) && ContentApart(s.deliveries[a], s.deliveries[b])
  {
    ReachableKeepsApart(steps, s);
  }

  /** What a persisted delivery went through: both checks, each a claim unless Redis failed. */
  ghost predicate PersistedChecked(s: State) {
    forall id :: id in s.deliveries && s.deliveries[id].persisted ==> s.deliveries[id].content.Some? && !s.deliveries[id].open
  }

  lemma {:induction false} ReachableChecksFirst(steps: seq<Step>, s: State)
    requires Reachable(steps, s)
    ensures PersistedChecked(s)
    decreases |steps|
  {
    if steps != [] {
      var p :| Reachable(Front(steps), p) && Enabled(p, Last(steps)) && s == Next(p, Last(steps));
      ReachableChecksFirst(Front(steps), p);
    }
  }

  /** At-most-once persist: a persisted delivery has a fingerprint that was checked; and of two upserts
      for one URL or one fingerprint, neither of whose checks met a Redis error, the claims are at least
      24 hours or 7 days apart. */
  lemma AtMostOncePersist(steps: seq<Step>, s: State, a: nat, b: nat)
    requires Reachable(steps, s) && a in s.deliveries && b in s.deliveries && a != b
    requires s.deliveries[a].persisted && s.deliveries[b].persisted
    ensures s.deliveries[a].content.Some? && s.deliveries[b].content.Some?
    ensures var d, e := s.deliveries[a], s.deliveries[b];
            && (d.url == e.url && d.urlClaim.Some? && e.urlClaim.Some? ==>
                  FarApart(d.urlClaim.value, e.urlClaim.value, 24 * 3600 * 1000))
            && (d.content.value == e.content.value && d.contentClaim.Some? && e.contentClaim.Some? ==>
                  FarApart(d.contentClaim.value, e.contentClaim.value, 7 * 24 * 3600 * 1000))
  {
    ClaimsAreApart(steps, s, a, b);
    ReachableChecksFirst(steps, s);
  }

  /** The delivery made the claim that holds the key. */
  predicate Claimed(s: State, key: string, id: nat) {
    id in s.deliveries && key in s.claims && s.deliveries[id].url == key
    && s.deliveries[id].urlClaim == Some(s.claims[key] - URL_TTL)
  }

  /** Every URL key that is held was claimed by some delivery. */
  ghost predicate ClaimsHaveClaimants(s: State) {
    forall key :: key in s.claims && IsUrlKey(key) ==> exists id :: Claimed(s, key, id)
  }

  lemma StepKeepsClaimant(s: State, step: Step, key: string)
    requires ClaimsHaveClaimants(s) && Enabled(s, step) && key in Next(s, step).claims && IsUrlKey(key)
    ensures exists id :: Claimed(Next(s, step), key, id)
  {
    var t := Next(s, step);
    if key in s.claims && t.claims[key] == s.claims[key] {
      var id :| Claimed(s, key, id);
      assert Claimed(t, key, id);
    } else {
      assert Claimed(t, key, step.id);
    }
  }

  lemma {:induction false} ReachableHasClaimants(steps: seq<Step>, s: State)
    requires Reachable(steps, s)
    ensures ClaimsHaveClaimants(s)
    decreases |steps|
  {
    if steps != [] {
      var p :| Reachable(Front(steps), p) && Enabled(p, Last(steps)) && s == Next(p, Last(steps));
      ReachableHasClaimants(Front(steps), p);
      forall key | key in s.claims && IsUrlKey(key) ensures exists id :: Claimed(s, key, id) {
        StepKeepsClaimant(p, Last(steps), key);
      }
    }
  }

  /** A delivery that claimed the URL less than 24 hours before. */
  predicate ClaimedRecently(s: State, url: string, at: int, a: nat) {
    a in s.deliveries && s.deliveries[a].url == url && s.deliveries[a].urlClaim.Some?
    && at < s.deliveries[a].urlClaim.value + 24 * 3600 * 1000
  }

  /** Early replays are dropped, and nothing else is: on any run, a delivery whose URL check Redis
      answers goes no further if and only if some delivery of the URL claimed it less than 24 hours
      before, whatever became of that one; and then nothing changes but the clock. */
  lemma {:induction false} EarlyReplayIsDropped(steps: seq<Step>, s: State, replay: Step)
    requires Reachable(steps, s) && replay.CheckUrl? && !replay.fails && Enabled(s, replay)
    ensures replay.id !in Next(s, replay).deliveries <==> exists a :: ClaimedRecently(s, replay.key, replay.at, a)
    ensures replay.id !in Next(s, replay).deliveries ==> Next(s, replay) == s.(clock := replay.at)
  {
    ReachableKeepsApart(steps, s);
    ReachableHasClaimants(steps, s);
    if Taken(s.claims, replay.key, replay.at) {
      var a :| Claimed(s, replay.key, a);
      assert ClaimedRecently(s, replay.key, replay.at, a);
    }
  }

  // ---- The content check ----

  /** The delivery made the claim that holds the content key. */
  predicate ContentClaimed(s: State, key: string, id: nat) {
    id in s.deliveries && key in s.claims && s.deliveries[id].content == Some(key)
    && s.deliveries[id].contentClaim == Some(s.claims[key] - JOB_TTL)
  }

  /** Every content key that is held was claimed by some delivery. */
  ghost predicate ContentClaimsHaveClaimants(s: State) {
    forall key :: key in s.claims && !IsUrlKey(key) ==> exists id :: ContentClaimed(s, key, id)
  }

  lemma StepKeepsContentClaimant(s: State, step: Step, key: string)
    requires ContentClaimsHaveClaimants(s) && ClaimedContentIsKnown(s) && Enabled(s, step)
    requires key in Next(s, step).claims && !IsUrlKey(key)
    ensures exists id :: ContentClaimed(Next(s, step), key, id)
  {
    var t := Next(s, step);
    if key in s.claims && t.claims[key] == s.claims[key] {
      var id :| ContentClaimed(s, key, id);
      assert ContentClaimed(t, key, id);
    } else {
      assert ContentClaimed(t, key, step.id);
    }
  }

  /** A delivery that has not checked its content has claimed none. */
  ghost predicate ClaimedContentIsKnown(s: State) {
    forall id :: id in s.deliveries && s.deliveries[id].contentClaim.Some? ==> s.deliveries[id].content.Some?
  }

  lemma {:induction false} ReachableHasContentClaimants(steps: seq<Step>, s: State)
    requires Reachable(steps, s)
    ensures ContentClaimsHaveClaimants(s) && ClaimedContentIsKnown(s)
    decreases |steps|
  {
    if steps != [] {
      var p :| Reachable(Front(steps), p) && Enabled(p, Last(steps)) && s == Next(p, Last(steps));
      ReachableHasContentClaimants(Front(steps), p);
      forall key | key in s.claims && !IsUrlKey(key) ensures exists id :: ContentClaimed(s, key, id) {
        StepKeepsContentClaimant(p, Last(steps), key);
      }
    }
  }

  /** A delivery that claimed the content less than 7 days before. */
  predicate ContentClaimedRecently(s: State, content: string, at: int, a: nat) {
    a in s.deliveries && s.deliveries[a].content == Some(content) && s.deliveries[a].contentClaim.Some?
    && at < s.deliveries[a].contentClaim.value + 7 * 24 * 3600 * 1000
  }

  /** The same for the content: on any run, a delivery whose content check Redis answers goes no further
      if and only if some delivery of the same fingerprint claimed it less than 7 days before, whatever
      became of that one; and then nothing changes but the clock and that the delivery is over. */
  lemma {:induction false} RecentContentIsDropped(steps: seq<Step>, s: State, check: Step)
    requires Reachable(steps, s) && check.CheckContent? && !check.fails && Enabled(s, check)
    ensures var d, e := s.deliveries[check.id], Next(s, check).deliveries[check.id];
            && (!e.open <==> exists a :: ContentClaimedRecently(s, check.key, check.at, a))
            && (!e.open ==> e == d.(open := false) && Next(s, check).claims == s.claims)
  {
    ReachableKeepsApart(steps, s);
    ReachableHasContentClaimants(steps, s);
    if Taken(s.claims, check.key, check.at) {
      var a :| ContentClaimed(s, check.key, a);
      assert ContentClaimedRecently(s, check.key, check.at, a);
    }
  }
}

/** internal/processor/alert_matcher.go: a second reading of the search filter, and where it parts from
    the search. */
module AlertMatcher {
  import opened Prelude
  import opened Jobs
  import opened Filters
  import opened Strings
  import Fingerprint
  import SearchQuery
  import Sql

  datatype Alert = Alert(id: string, active: bool, filter: SearchFilter)

  function Lower(s: string, low: char -> char): string {
    Fingerprint.ToLower(s, low)
  }

  /** Some job tag and some filter tag agree up to case. */
  predicate TagsIntersect(jobTags: seq<string>, filterTags: seq<string>, low: char -> char) {
    exists t :: t in filterTags && exists u :: u in jobTags && Lower(u, low) == Lower(t, low)
  }

  predicate Matches(job: Job, f: SearchFilter, low: char -> char) {
    && (f.query != "" ==> Contains(Lower(job.title, low), Lower(f.query, low))
                          || Contains(Lower(job.description, low), Lower(f.query, low)))
    && (Items(f.tags) != [] ==> TagsIntersect(job.tags, Items(f.tags), low))
    && (f.remote != "" ==> job.remote == f.remote)
    && (f.salaryMin > 0 ==> job.salaryMin.Some? && job.salaryMin.value >= f.salaryMin)
  }

  method HasTagIntersection(jobTags: seq<string>, filterTags: seq<string>, low: char -> char) returns (found: bool)
    ensures found <==> TagsIntersect(jobTags, filterTags, low)
  {
    var known: map<string, bool> := map[];
    for i := 0 to |jobTags|
      invariant forall t :: t in known <==> exists u :: u in jobTags[..i] && Lower(u, low) == t
      invariant forall t :: t in known ==> known[t]
    {
      ghost var before := known;
      known := known[Lower(jobTags[i], low) := true];
      assert jobTags[..i + 1] == jobTags[..i] + [jobTags[i]];
      assert forall t :: t in known <==> t in before || t == Lower(jobTags[i], low);
    }
    assert jobTags[..|jobTags|] == jobTags;
    for i := 0 to |filterTags|
      invariant forall k :: 0 <= k < i ==> Lower(filterTags[k], low) !in known
    {
      if Lower(filterTags[i], low) in known && known[Lower(filterTags[i], low)] {
        return true;
      }
    }
    return false;
  }

  method MatchesFilter(job: Job, f: SearchFilter, low: char -> char) returns (matched: bool)
    ensures matched <==> Matches(job, f, low)
  {
    if f.query != "" {
      var q := Lower(f.query, low);
      var titleMatch := Contains(Lower(job.title, low), q);
      var descMatch := Contains(Lower(job.description, low), q);
      if !titleMatch && !descMatch {
        return false;
      }
    }
    if |Items(f.tags)| > 0 {
      var found := HasTagIntersection(job.tags, Items(f.tags), low);
      if !found {
        return false;
      }
    }
    if f.remote != "" && job.remote != f.remote {
      return false;
    }
    if f.salaryMin > 0 {
      if job.salaryMin.None? || job.salaryMin.value < f.salaryMin {
        return false;
      }
    }
    return true;
  }

  function MatchingAlerts(alerts: seq<Alert>, n: nat, job: Job, low: char -> char): seq<Alert>
    requires n <= |alerts|
  {
    if n == 0 then []
    else MatchingAlerts(alerts, n - 1, job, low)
         + if alerts[n - 1].active && Matches(job, alerts[n - 1].filter, low) then [alerts[n - 1]] else []
  }

  /** `listed` is the repository's answer: the immediate alerts, or an error. */
  method FindMatchingAlerts(job: Job, listed: Option<seq<Alert>>, low: char -> char) returns (matched: Option<seq<Alert>>)
    ensures matched == if listed.None? then None else Some(MatchingAlerts(listed.value, |listed.value|, job, low))
    ensures matched.Some? ==> forall a :: a in matched.value <==> a in listed.value && a.active && Matches(job, a.filter, low)
  {
    if listed.None? {
      return None;
    }
    var alerts, found := listed.value, [];
    for i := 0 to |alerts|
      invariant found == MatchingAlerts(alerts, i, job, low)
      invariant forall a :: a in found <==> a in alerts[..i] && a.active && Matches(job, a.filter, low)
    {
      assert alerts[..i + 1] == alerts[..i] + [alerts[i]];
      if !alerts[i].active {
        continue;
      }
      var matches := MatchesFilter(job, alerts[i].filter, low);
      if matches {
        found := found + [alerts[i]];
      }
    }
    assert alerts[..|alerts|] == alerts;
    return Some(found);
  }

  /** The alerts that match come back in the order of the list, each as often as it is listed. */
  lemma {:induction false} MatchingAlertsInOrder(alerts: seq<Alert>, n: nat, job: Job, low: char -> char) returns (at: seq<nat>)
    requires n <= |alerts|
    ensures Positions(at, n, (k: nat) => k < |alerts| && alerts[k].active && Matches(job, alerts[k].filter, low))
    ensures ElementsAt(alerts, at, MatchingAlerts(alerts, n, job, low))
  {
    if n == 0 {
      at := [];
    } else {
      var keep := (k: nat) => k < |alerts| && alerts[k].active && Matches(job, alerts[k].filter, low);
      var before := MatchingAlertsInOrder(alerts, n - 1, job, low);
      NextPositionIsLast(before, n - 1, keep);
      at := NextPosition(before, n - 1, keep);
    }
  }

  // ---- The query ----

  /** From position i on, the text reads as the word does, up to the case of each character. */
  predicate ReadsAt(text: string, i: nat, word: string, low: char -> char) {
    i + |word| <= |text| && forall k :: 0 <= k < |word| ==> low(text[i + k]) == low(word[k])
  }

  predicate Mentions(text: string, word: string, low: char -> char) {
    exists i :: 0 <= i <= |text| && ReadsAt(text, i, word, low)
  }

  lemma OccursIsReads(text: string, i: nat, word: string, low: char -> char)
    requires i <= |text|
    ensures OccursAt(Lower(text, low), Lower(word, low), i) <==> ReadsAt(text, i, word, low)
  {
    if i + |word| <= |text| {
      var piece := Lower(text, low)[i..i + |word|];
      assert forall k :: 0 <= k < |word| ==> piece[k] == low(text[i + k]) && Lower(word, low)[k] == low(word[k]);
    }
  }

  lemma ContainsIsMentions(text: string, word: string, low: char -> char)
    ensures Contains(Lower(text, low), Lower(word, low)) <==> Mentions(text, word, low)
  {
    forall i | 0 <= i <= |text|
      ensures OccursAt(Lower(text, low), Lower(word, low), i) <==> ReadsAt(text, i, word, low)
    {
      OccursIsReads(text, i, word, low);
    }
  }

  /** A query narrows a filter to the jobs whose title or whose description mentions it, in any case; an
      empty query to none. */
  lemma QueryNarrows(job: Job, f: SearchFilter, low: char -> char)
    ensures Matches(job, f, low)
       <==> Matches(job, f.(query := ""), low)
            && (f.query == "" || Mentions(job.title, f.query, low) || Mentions(job.description, f.query, low))
  {
    ContainsIsMentions(job.title, f.query, low);
    ContainsIsMentions(job.description, f.query, low);
  }

  // ---- Search implies alert ----

  /** For a filter without a query, every row that the search selects and that an insert made from the
      job also raises the alert. */
  lemma SearchImpliesAlert(f: SearchFilter, job: Job, row: Row, engine: Sql.Engine, low: char -> char)
    requires f.query == "" && row.facts == FactsOf(job) && SearchQuery.Selects(f, row, engine)
    ensures Matches(job, f, low)
  {
    if Items(f.tags) != [] {
      var t := Items(f.tags)[0];
      assert t in Items(f.tags) && t in job.tags;
    }
  }

  // ---- Exactly when the two agree ----

  predicate IsLower(tags: seq<string>, low: char -> char) {
    forall t :: t in tags ==> Lower(t, low) == t
  }

  /** The row that an insert makes of a job. */
  function InsertedRow(job: Job): Row {
    Row("", FactsOf(job), Truncate(job.url, 1000), 0, 0)
  }

  /** On every lowercase-tagged job that the table can hold, search and alert say the same. */
  ghost predicate Agree(f: SearchFilter, engine: Sql.Engine, low: char -> char) {
    forall job :: LegalFacts(FactsOf(job)) && IsLower(job.tags, low) ==>
      (Matches(job, f, low) <==> SearchQuery.Selects(f, InsertedRow(job), engine))
  }

  /** No stored job can have another working mode, or a salary beyond INTEGER. */
  predicate Unsatisfiable(f: SearchFilter) {
    (f.remote != "" && f.remote !in REMOTE_TYPES) || f.salaryMin > MAX_INTEGER
  }

  predicate OneTag(tags: seq<string>) {
    forall t :: t in tags ==> t == tags[0]
  }

  predicate AllSources(sources: seq<string>) {
    sources == [] || forall s :: s in SOURCES ==> s in sources
  }

  /** A job that raises the alert and has the given source and tags, and no city. */
  function Sample(f: SearchFilter, source: string, tags: seq<string>): Job {
    Job("", source, "", "", "", "", "", if f.remote == "" then "NONE" else f.remote,
        if f.salaryMin > 0 then Some(f.salaryMin) else None, None, "", "", tags, "", "", None, None)
  }

  lemma SampleMatches(f: SearchFilter, source: string, tags: seq<string>, low: char -> char)
    requires f.query == "" && !Unsatisfiable(f) && source in SOURCES
    requires Items(f.tags) != [] ==> Items(f.tags)[0] in tags
    ensures LegalFacts(FactsOf(Sample(f, source, tags))) && Matches(Sample(f, source, tags), f, low)
  {
    if Items(f.tags) != [] {
      var t := Items(f.tags)[0];
      assert t in Items(f.tags) && t in Sample(f, source, tags).tags;
    }
  }

  function LowerAll(tags: seq<string>, low: char -> char): (r: seq<string>)
    ensures |r| == |tags|
  {
    seq(|tags|, i requires 0 <= i < |tags| => Lower(tags[i], low))
  }

  ghost predicate LowersOnce(low: char -> char) {
    forall c :: low(low(c)) == low(c)
  }

  lemma LowerAllIsLower(tags: seq<string>, low: char -> char)
    requires LowersOnce(low)
    ensures IsLower(LowerAll(tags, low), low)
  {
    forall i | 0 <= i < |tags| ensures Lower(Lower(tags[i], low), low) == Lower(tags[i], low) {
      assert Lower(Lower(tags[i], low), low) == Lower(tags[i], low);
    }
  }

  /** The filter asks for nothing any job could have; or it asks for no location, for no source or all
      of them, and for at most one distinct tag, in lower case. */
  predicate AsksAlike(f: SearchFilter, low: char -> char) {
    Unsatisfiable(f)
    || (f.location == "" && AllSources(Items(f.sources)) && OneTag(Items(f.tags)) && IsLower(Items(f.tags), low))
  }

  lemma AgreementIsSufficient(f: SearchFilter, engine: Sql.Engine, low: char -> char, job: Job)
    requires f.query == "" && AsksAlike(f, low) && LegalFacts(FactsOf(job)) && IsLower(job.tags, low)
    ensures Matches(job, f, low) <==> SearchQuery.Selects(f, InsertedRow(job), engine)
  {
    if SearchQuery.Selects(f, InsertedRow(job), engine) {
      SearchImpliesAlert(f, job, InsertedRow(job), engine, low);
    }
  }

  /** A job with the source and lowercase tags raises the alert, so where the two agree it is found. */
  lemma SampleIsFound(f: SearchFilter, engine: Sql.Engine, low: char -> char, source: string, tags: seq<string>)
    requires f.query == "" && !Unsatisfiable(f) && Agree(f, engine, low) && source in SOURCES && LowersOnce(low)
    requires Items(f.tags) != [] ==> Items(f.tags)[0] in tags
    ensures SearchQuery.Selects(f, InsertedRow(Sample(f, source, LowerAll(tags, low))), engine)
  {
    var job := Sample(f, source, LowerAll(tags, low));
    LowerAllIsLower(tags, low);
    if Items(f.tags) != [] {
      var t := Items(f.tags)[0];
      var i :| 0 <= i < |tags| && tags[i] == t;
      assert LowerAll(tags, low)[i] == Lower(t, low) && Lower(Lower(t, low), low) == Lower(t, low);
      assert t in Items(f.tags) && Lower(t, low) in job.tags;
    }
    assert Matches(job, f, low);
  }

  lemma AgreementIsNecessary(f: SearchFilter, engine: Sql.Engine, low: char -> char)
    requires f.query == "" && !Unsatisfiable(f) && Agree(f, engine, low) && LowersOnce(low)
    ensures f.location == "" && AllSources(Items(f.sources)) && OneTag(Items(f.tags)) && IsLower(Items(f.tags), low)
  {
    var tags := Items(f.tags);
    SampleIsFound(f, engine, low, "XING", tags);
    LowerAllIsLower(tags, low);
    assert IsLower(tags, low);
    forall s | s in SOURCES ensures Items(f.sources) == [] || s in Items(f.sources) {
      SampleIsFound(f, engine, low, s, tags);
    }
    if tags != [] {
      SampleIsFound(f, engine, low, "XING", [tags[0]]);
      assert tags[0] in tags && LowerAll([tags[0]], low) == [tags[0]];
    }
  }

  /** A query-free filter alerts on exactly the jobs it finds if and only if it asks alike of both. */
  lemma AgreementIsExact(f: SearchFilter, engine: Sql.Engine, low: char -> char)
    requires f.query == "" && LowersOnce(low)
    ensures Agree(f, engine, low) <==> AsksAlike(f, low)
  {
    if AsksAlike(f, low) {
      forall job | LegalFacts(FactsOf(job)) && IsLower(job.tags, low)
        ensures Matches(job, f, low) <==> SearchQuery.Selects(f, InsertedRow(job), engine)
      {
        AgreementIsSufficient(f, engine, low, job);
      }
    } else if Agree(f, engine, low) {
      AgreementIsNecessary(f, engine, low);
    }
  }

  /** Not identical to the search: one of two tags is enough for the alert, the city is
      ignored, and so is the case of a tag. */
  lemma AlertIsWiderThanSearch(engine: Sql.Engine, low: char -> char)
    ensures var f := SearchFilter("", "", "", Some(["go", "rust"]), 0, None, 1, 25, "");
            var job := Sample(f, "XING", ["go"]);
            Matches(job, f, low) && !SearchQuery.Selects(f, InsertedRow(job), engine)
    ensures var f := SearchFilter("", "Berlin", "", None, 0, None, 1, 25, "");
            var job := Sample(f, "XING", []);
            Matches(job, f, low) && !SearchQuery.Selects(f, InsertedRow(job), engine)
    ensures var f := SearchFilter("", "", "", Some(["Go"]), 0, None, 1, 25, "");
            var job := Sample(f, "XING", ["go"]);
            Lower("Go", low) == Lower("go", low) ==>
              Matches(job, f, low) && !SearchQuery.Selects(f, InsertedRow(job), engine)
  {
    var f := SearchFilter("", "", "", Some(["go", "rust"]), 0, None, 1, 25, "");
    SampleMatches(f, "XING", ["go"], low);
    assert "rust" in Items(f.tags) && "go" != "rust";
    var g := SearchFilter("", "", "", Some(["Go"]), 0, None, 1, 25, "");
    assert "Go"[0] != "go"[0] && "Go" in Items(g.tags) && "go" in Sample(g, "XING", ["go"]).tags;
  }
}

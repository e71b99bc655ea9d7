/** A search through the cache, down to the rows: internal/service/cached_job_service.go over
    internal/service/postgres_job_service.go over internal/repository/postgres/job_repo.go. */
module CachedSearch {
  import opened Prelude
  import opened Jobs
  import opened Filters
  import opened Sql
  import opened CachedService
  import opened CacheStaleness
  import JobService

  // The rows of the table, and what an ORDER BY clause makes of them.
  type Rows = seq<Row>
  type Sorter = (Rows, string) -> Rows

  /** A search counts in one state of the table and reads its page in another. */
  function TwoStatements(f: SearchFilter, up: char -> char, counted: Rows, paged: Rows, sorted: Sorter, engine: Engine)
    : Option<JobService.SearchResult>
  {
    match JobService.ServiceAnswer(f, up, counted, clause => sorted(paged, clause), engine)
    case Ok(r) => Some(r)
    case DbError => None
  }

  type Search = (SearchFilter, Rows, Rows) -> Option<JobService.SearchResult>

  function SearchOf(up: char -> char, sorted: Sorter, engine: Engine): Search {
    (f, counted, paged) => TwoStatements(f, up, counted, paged, sorted, engine)
  }

  ghost predicate Searches(w: World<Rows, JobService.SearchResult>, search: Search) {
    forall f, counted, paged :: w.inner([counted, paged], SearchRequest(f)) == search(f, counted, paged)
  }

  /** The answer comes from two states of the table, read in order between the instants. */
  ghost predicate SearchedBetween(history: seq<Version<Rows>>, search: Search, f: SearchFilter, v: JobService.SearchResult,
                                  since: int, until: int) {
    exists counted, paged :: SeenBetween(history, [counted, paged], since, until) && search(f, counted, paged) == Some(v)
  }

  lemma AnswerIsSearched(w: World<Rows, JobService.SearchResult>, search: Search, history: seq<Version<Rows>>, q: Request,
                         v: JobService.SearchResult, since: int, until: int)
    requires Searches(w, search) && q.SearchRequest? && AnswerBetween(w, history, q, v, since, until)
    ensures SearchedBetween(history, search, q.filter, v, since, until)
  {
    var seen :| |seen| == Statements(q) && SeenBetween(history, seen, since, until) && w.inner(seen, q) == Some(v);
    assert seen == [seen[0], seen[1]];
  }

  lemma ReplyIsSearched(w: World<Rows, JobService.SearchResult>, search: Search, rows: Rows, now: int,
                        steps: seq<Step<Rows>>, s: State<Rows, JobService.SearchResult>, id: nat)
    requires Searches(w, search) && Separates(w.key, w.requests) && Reachable(w, Initial(rows, now), steps, s)
    requires id in s.readers && s.readers[id].phase.Answered? && s.readers[id].request.SearchRequest?
    ensures var r := s.readers[id];
            SearchedBetween(s.history, search, r.request.filter, r.phase.reply, r.phase.at - Ttl(r.request) - w.lag, r.phase.at)
  {
    RecentReply(w, rows, now, steps, s, id);
    var r := s.readers[id];
    AnswerIsSearched(w, search, s.history, r.request, r.phase.reply, r.phase.at - Ttl(r.request) - w.lag, r.phase.at);
  }

  /** Whatever the cache does, the total and the page that a search returns are those of two states that
      the table had, in that order, no further back than a minute plus the delay to the write. */
  lemma SearchThroughCache(w: World<Rows, JobService.SearchResult>, up: char -> char, sorted: Sorter, engine: Engine,
                           rows: Rows, now: int, steps: seq<Step<Rows>>, s: State<Rows, JobService.SearchResult>, id: nat)
    requires Searches(w, SearchOf(up, sorted, engine)) && Separates(w.key, w.requests)
    requires Reachable(w, Initial(rows, now), steps, s)
    requires id in s.readers && s.readers[id].phase.Answered? && s.readers[id].request.SearchRequest?
    ensures var r := s.readers[id];
            SearchedBetween(s.history, SearchOf(up, sorted, engine), r.request.filter, r.phase.reply,
                            r.phase.at - 60_000 - w.lag, r.phase.at)
  {
    TtlIsMaxAge(s.readers[id].request);
    ReplyIsSearched(w, SearchOf(up, sorted, engine), rows, now, steps, s, id);
  }
}

/** pkg/httputil/robots.go: the robots.txt of each site, fetched once and kept. */
module Robots {
  import opened Prelude

  /** The rules for every agent: which paths they allow. */
  type Rules = string -> bool

  // One cache entry for each scheme and host.
  type RulesCache = map<string, Rules>

  /** One call: the scheme and host of the URL, None when it does not parse, and what comes back if
      robots.txt is fetched now, None when that fails. */
  datatype Ask = Ask(origin: Option<string>, fetched: Option<Rules>)

  class RobotsChecker {
    var cache: RulesCache

    constructor ()
      ensures cache == map[]
    {
      cache := map[];
    }

    /** A URL that does not parse is refused; a site whose robots.txt cannot be fetched is allowed, and is
        asked again the next time; one that was fetched is never asked again. */
    method IsAllowed(ask: Ask, path: string) returns (allowed: bool, err: bool)
      modifies this
      ensures err <==> ask.origin.None?
      ensures allowed == Answer(old(cache), ask, path)
      ensures cache == Learned(old(cache), ask)
    {
      if ask.origin.None? {
        return false, true;
      }
      var origin := ask.origin.value;
      if origin !in cache {
        if ask.fetched.None? {
          return true, false;
        }
        cache := cache[origin := ask.fetched.value];
      }
      return cache[origin](path), false;
    }
  }

  function Learned(cache: RulesCache, ask: Ask): RulesCache {
    if ask.origin.Some? && ask.origin.value !in cache && ask.fetched.Some? then cache[ask.origin.value := ask.fetched.value]
    else cache
  }

  function Answer(cache: RulesCache, ask: Ask, path: string): bool {
    if ask.origin.None? then false
    else
      var known := Learned(cache, ask);
      ask.origin.value !in known || known[ask.origin.value](path)
  }

  /** The cache after the first n calls. */
  function CacheAfter(asks: seq<Ask>, n: nat): RulesCache
    requires n <= |asks|
  {
    if n == 0 then map[] else Learned(CacheAfter(asks, n - 1), asks[n - 1])
  }

  /** Call i is the first for the site at which its robots.txt could be fetched. */
  ghost predicate FirstFetch(asks: seq<Ask>, i: nat, origin: string)
    requires i < |asks|
  {
    && asks[i].origin == Some(origin) && asks[i].fetched.Some?
    && forall j :: 0 <= j < i && asks[j].origin == Some(origin) ==> asks[j].fetched.None?
  }

  lemma {:induction false} CacheIsFirstFetch(asks: seq<Ask>, n: nat, origin: string)
    requires n <= |asks|
    ensures origin !in CacheAfter(asks, n) <==>
            forall j :: 0 <= j < n && asks[j].origin == Some(origin) ==> asks[j].fetched.None?
    ensures forall i :: 0 <= i < n && FirstFetch(asks, i, origin) ==>
              origin in CacheAfter(asks, n) && CacheAfter(asks, n)[origin] == asks[i].fetched.value
  {
    if n > 0 {
      CacheIsFirstFetch(asks, n - 1, origin);
    }
  }

  /** What the checker answers, over its whole life: no to a URL that does not parse; by the robots.txt
      that it fetched first, whatever the site says later; and yes until it has fetched any. */
  lemma AnswersByFirstFetch(asks: seq<Ask>, k: nat, path: string)
    requires k < |asks|
    ensures var answer := Answer(CacheAfter(asks, k), asks[k], path);
            match asks[k].origin
            case None => !answer
            case Some(origin) =>
              && (forall i :: 0 <= i <= k && FirstFetch(asks, i, origin) ==> answer == asks[i].fetched.value(path))
              && ((forall j :: 0 <= j <= k && asks[j].origin == Some(origin) ==> asks[j].fetched.None?) ==> answer)
  {
    if asks[k].origin.Some? {
      CacheIsFirstFetch(asks, k + 1, asks[k].origin.value);
    }
  }
}

/** internal/crawler/worker.go over pkg/httputil/robots.go: what the crawler's check is worth. */
module RobotsRuns {
  import opened Prelude
  import opened CrawlQueue
  import Robots

  /** How URLs parse, and the rules of each site, which can be fetched and stay as they are. */
  datatype Web = Web(origin: string -> Option<string>, path: string -> string, rules: string -> Robots.Rules)

  /** The worker asks about "/" whatever the path of the URL. */
  predicate RootAllowed(web: Web, url: string) {
    web.origin(url).Some? && web.rules(web.origin(url).value)("/")
  }

  /** What the site says about the URL itself. */
  predicate PathAllowed(web: Web, url: string) {
    web.origin(url).Some? && web.rules(web.origin(url).value)(web.path(url))
  }

  function RootOf(web: Web): string -> bool {
    url => RootAllowed(web, url)
  }

  /** The checker's answer on such a web, at every call of its life. */
  lemma RootIsAsked(web: Web, urls: seq<string>, asks: seq<Robots.Ask>, k: nat)
    requires k < |urls| == |asks|
    requires forall i :: 0 <= i < |asks| ==> asks[i].origin == web.origin(urls[i])
    requires forall i :: 0 <= i < |asks| && asks[i].origin.Some? ==> asks[i].fetched == Some(web.rules(asks[i].origin.value))
    ensures Robots.Answer(Robots.CacheAfter(asks, k), asks[k], "/") == RootAllowed(web, urls[k])
  {
    if asks[k].origin.Some? {
      var i := FirstAsk(asks, k, asks[k].origin.value);
      Robots.AnswersByFirstFetch(asks, k, "/");
    }
  }

  lemma {:induction false} FirstAsk(asks: seq<Robots.Ask>, k: nat, origin: string) returns (i: nat)
    requires k < |asks| && asks[k].origin == Some(origin)
    requires forall i :: 0 <= i < |asks| && asks[i].origin == Some(origin) ==> asks[i].fetched.Some?
    ensures i <= k && Robots.FirstFetch(asks, i, origin)
  {
    if j: nat :| j < k && asks[j].origin == Some(origin) {
      i := FirstAsk(asks, j, origin);
    } else {
      i := k;
    }
  }

  /** Every page in jobs.raw is one that its site allows. */
  ghost predicate Permitted(r: Run, web: Web) {
    forall x :: x in r.raw ==> PathAllowed(web, x.url)
  }

  /** A run in which one detail task arrives and nothing fails. */
  function OnePage(url: string): seq<Event> {
    [Arrive(Message("XING", Task("XING", url, "DETAIL"))),
     Deliver(0, Env(false, true, Some(""), None, AllWritten, false, false))]
  }

  lemma OnePageIsForwarded(url: string, maxFanout: nat, web: Web)
    requires RootAllowed(web, url)
    ensures AsksRobots(OnePage(url), maxFanout, RootOf(web))
    ensures RunAll(OnePage(url), maxFanout).raw == [RawResult("XING", url, "")]
  {
    var events := OnePage(url);
    var first := Front(events);
    assert first == [events[0]] && Front(first) == [];
    assert RunAll(first, maxFanout) == Run([events[0].message], [], [], 0, []);
    assert AsksRobots([], maxFanout, RootOf(web)) && AsksRobots(first, maxFanout, RootOf(web));
  }

  /** Asking about "/" is enough exactly where it decides: every page that ever reaches jobs.raw is one
      that its site allows if and only if every site that allows "/" allows all its URLs. */
  lemma RootRuleIsExact(web: Web, maxFanout: nat)
    ensures (forall events :: AsksRobots(events, maxFanout, RootOf(web)) ==> Permitted(RunAll(events, maxFanout), web))
       <==> forall url :: RootAllowed(web, url) ==> PathAllowed(web, url)
  {
    if forall url :: RootAllowed(web, url) ==> PathAllowed(web, url) {
      forall events | AsksRobots(events, maxFanout, RootOf(web)) ensures Permitted(RunAll(events, maxFanout), web) {
        RobotsAreObeyed(events, maxFanout, RootOf(web));
      }
    } else {
      var url :| RootAllowed(web, url) && !PathAllowed(web, url);
      OnePageIsForwarded(url, maxFanout, web);
      assert RawResult("XING", url, "") in RunAll(OnePage(url), maxFanout).raw;
    }
  }
}

/** The depth-bounded, depth-first crawl of `scrape_recursive` and the seed
    loop of `main`, as functions from one run state to the next. The
    imperative crawler in module Scraper is proved to compute exactly these. */
module CrawlSpec {
  import opened Web
  import opened Store

  /** `scrape_recursive` is called from `main` with its default `max_depth`. */
  const DefaultMaxDepth: int := 2

  /** What each `requests.get` call of the run came to, in call order. */
  datatype Event = Fetched(url: Url) | FetchFailed(url: Url)

  /** The state a crawl threads through its calls: the shared visited set,
      the table, and the log of fetches made so far. */
  datatype Run = Run(visited: set<Url>, table: Table, log: seq<Event>)

  /** The URLs fetched successfully, with multiplicity. */
  function Successes(log: seq<Event>): multiset<Url> {
    if log == [] then multiset{}
    else
      var last := log[|log| - 1];
      Successes(log[..|log| - 1]) + if last.Fetched? then multiset{last.url} else multiset{}
  }

  /** Number of depth levels still open below `depth`. */
  function Rank(maxDepth: int, depth: nat): nat {
    if depth <= maxDepth then maxDepth + 1 - depth else 0
  }

  /** The state right after `url` was fetched: its row saved, the URL
      marked visited, the fetch logged. */
  function SaveAndMark(env: Env, r: Run, url: Url, resp: Response): Run {
    Run(r.visited + {url}, Save(env, r.table, url, resp), r.log + [Fetched(url)])
  }

  /** One call `scrape_recursive(url, ..., max_depth, depth)`. */
  function Visit(env: Env, maxDepth: int, url: Url, depth: nat, r: Run): Run
    decreases Rank(maxDepth, depth), 0, 0
  {
    if depth > maxDepth || url in r.visited then r
    else match Fetch(env, url)
      case None => r.(log := r.log + [FetchFailed(url)])
      case Some(resp) => VisitAll(env, maxDepth, resp.links, depth + 1, SaveAndMark(env, r, url, resp))
  }

  /** Visit every URL of `links`, in order, at the same depth, threading one
      run state through all of them. */
  function VisitAll(env: Env, maxDepth: int, links: seq<Url>, depth: nat, r: Run): Run
    decreases Rank(maxDepth, depth), 1, |links|
  {
    if links == [] then r
    else Visit(env, maxDepth, links[|links| - 1], depth, VisitAll(env, maxDepth, links[..|links| - 1], depth, r))
  }

  /** `main`: every seed at depth 0 with one visited set, starting from an
      empty log and the table as the database already holds it. */
  function Crawl(env: Env, seeds: seq<Url>, db: Table): Run {
    VisitAll(env, DefaultMaxDepth, seeds, 0, Run({}, db, []))
  }

  /** `r2` is a later state of the same run as `r`: the visited set only
      grows, the log only gets longer, no row is changed or removed, and
      every URL that joined the visited set was fetched successfully exactly
      once on the way. */
  ghost predicate Grows(r: Run, r2: Run) {
    r.visited <= r2.visited &&
    r.log <= r2.log &&
    (forall u :: u in r.table ==> u in r2.table && r2.table[u] == r.table[u]) &&
    Successes(r2.log) == Successes(r.log) + multiset(r2.visited - r.visited)
  }

  /** What holds of every state of a run begun with an empty visited set:
      each visited URL was fetched successfully exactly once and nothing
      else was, and a visited URL has its row unless its insert failed. */
  ghost predicate RunInvariant(env: Env, r: Run) {
    Successes(r.log) == multiset(r.visited) &&
    (forall u :: u in r.visited ==> Succeeds(env, u)) &&
    (forall u :: u in r.visited && u !in env.saveFaults ==> u in r.table)
  }
}

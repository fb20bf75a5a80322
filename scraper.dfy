/** The crawler as the program runs it: a visited set shared across the
    whole run and a table, both changed in place, a recursive traversal that
    loops over each page's links, and the seed loop of `main`. */
module Scraper {
  import opened Web
  import opened Store
  import opened CrawlSpec
  import opened CrawlProofs

  class Crawler {
    const env: Env
    var visited: set<Url>
    var table: Table
    /** Every fetch made so far, for stating how often each URL is fetched. */
    ghost var log: seq<Event>

    ghost function State(): Run
      reads this
    {
      Run(visited, table, log)
    }

    /** A fresh visited set over the database as it already stands. */
    constructor (env: Env, db: Table)
      ensures this.env == env && visited == {} && table == db && log == []
    {
      this.env := env;
      visited := {};
      table := db;
      log := [];
    }

    /** `save_to_database` for the response fetched from `url`. */
    method SaveToDatabase(url: Url, resp: Response)
      modifies this`table
      ensures table == Save(env, old(table), url, resp)
    {
      if url in env.saveFaults {
        // sqlite3.Error: reported and swallowed, nothing written
      } else if url !in table {
        table := table[url := MakeRecord(env, url, resp)];
      }
    }

    /** `scrape_recursive(url, conn, visited_urls, maxDepth, depth)`. */
    method ScrapeRecursive(url: Url, maxDepth: int, depth: nat)
      modifies this
      decreases maxDepth + 1 - depth
      ensures State() == Visit(env, maxDepth, url, depth, old(State()))
      ensures depth > maxDepth || url in old(visited) ==>
        visited == old(visited) && table == old(table) && log == old(log)
      ensures !Succeeds(env, url) ==> visited == old(visited) && table == old(table)
    {
      if depth > maxDepth || url in visited {
        return;
      }
      if url !in env.pages || RaisesForStatus(env.pages[url].status) {
        // RequestException: reported, this branch ends, nothing is marked
        log := log + [FetchFailed(url)];
        return;
      }
      var response := env.pages[url];
      log := log + [Fetched(url)];
      SaveToDatabase(url, response);
      visited := visited + {url};
      var links := response.links;
      ghost var start := State();
      for i := 0 to |links|
        invariant State() == VisitAll(env, maxDepth, links[..i], depth + 1, start)
      {
        ScrapeRecursive(links[i], maxDepth, depth + 1);
        assert links[..i + 1][..i] == links[..i];
      }
      assert links[..|links|] == links;
    }
  }

  /** `main`: crawl every seed from depth 0 with the default depth bound and
      one visited set for the whole run; returns that set, the table and
      the log of every fetch made. */
  method ScrapeAll(env: Env, seeds: seq<Url>, db: Table) returns (visited: set<Url>, table: Table, ghost log: seq<Event>)
    ensures visited == Crawl(env, seeds, db).visited && table == Crawl(env, seeds, db).table
    ensures log == Crawl(env, seeds, db).log
    ensures forall u :: Successes(log)[u] == if u in visited then 1 else 0
    ensures forall u :: u in db ==> u in table && table[u] == db[u]
    ensures Keyed(db) ==> Keyed(table)
    ensures forall u :: u in visited ==> Succeeds(env, u) && (u in table || u in env.saveFaults)
    ensures forall u :: u in visited ==> exists i :: 0 <= i < |seeds| && Reaches(env, seeds[i], u, DefaultMaxDepth)
    ensures forall i :: 0 <= i < |seeds| ==> seeds[i] in visited || !Succeeds(env, seeds[i])
  {
    var crawler := new Crawler(env, db);
    ghost var start := crawler.State();
    for i := 0 to |seeds|
      invariant crawler.env == env
      invariant crawler.State() == VisitAll(env, DefaultMaxDepth, seeds[..i], 0, start)
    {
      crawler.ScrapeRecursive(seeds[i], DefaultMaxDepth, 0);
      assert seeds[..i + 1][..i] == seeds[..i];
    }
    assert seeds[..|seeds|] == seeds;
    visited, table, log := crawler.visited, crawler.table, crawler.log;
    CrawlFetchesEachUrlAtMostOnce(env, seeds, db);
    VisitAllGrows(env, DefaultMaxDepth, seeds, 0, start);
    VisitAllReach(env, DefaultMaxDepth, seeds, 0, start);
    VisitAllRecords(env, DefaultMaxDepth, seeds, 0, start);
    VisitAllCovers(env, DefaultMaxDepth, seeds, 0, start);
  }
}

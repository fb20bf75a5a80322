/** Small concrete webs that pin down the crawl's depth boundary and the
    quirks it keeps: a URL first reached deep is never re-expanded from a
    shallower path, and a URL whose fetch fails is fetched again. */
module Scenarios {
  import opened Web
  import opened Store
  import opened CrawlSpec

  function Page(links: seq<Url>): Response {
    Response(200, "<html></html>", "{}", 11, links)
  }

  /** One call past the guard whose fetch succeeds, unfolded. */
  lemma VisitFetched(env: Env, maxDepth: int, url: Url, depth: nat, r: Run, resp: Response)
    requires depth <= maxDepth && url !in r.visited && Fetch(env, url) == Some(resp)
    ensures Visit(env, maxDepth, url, depth, r) ==
      VisitAll(env, maxDepth, resp.links, depth + 1, SaveAndMark(env, r, url, resp))
  {
  }

  lemma VisitAllOne(env: Env, maxDepth: int, x: Url, depth: nat, r: Run)
    ensures VisitAll(env, maxDepth, [x], depth, r) == Visit(env, maxDepth, x, depth, r)
  {
    assert [x][..0] == [];
  }

  lemma VisitAllTwo(env: Env, maxDepth: int, x: Url, y: Url, depth: nat, r: Run)
    ensures VisitAll(env, maxDepth, [x, y], depth, r) == Visit(env, maxDepth, y, depth, Visit(env, maxDepth, x, depth, r))
  {
    assert [x, y][..1] == [x];
    VisitAllOne(env, maxDepth, x, depth, r);
  }

  /** The state after a successful fetch of `url`. */
  function After(env: Env, r: Run, url: Url): Run
    requires Succeeds(env, url)
  {
    SaveAndMark(env, r, url, Fetch(env, url).value)
  }

  lemma AfterFacts(env: Env, r: Run, url: Url)
    requires Succeeds(env, url)
    ensures After(env, r, url).visited == r.visited + {url}
    ensures After(env, r, url).log == r.log + [Fetched(url)]
    ensures r.table.Keys <= After(env, r, url).table.Keys <= r.table.Keys + {url}
    ensures url !in env.saveFaults ==> url in After(env, r, url).table
  {
  }

  /** b at depth 2 is fetched, and its link c at depth 3 is not. */
  lemma LastLevel(env: Env, b: Url, c: Url, r: Run)
    requires b !in r.visited && Links(env, b) == [c]
    ensures Succeeds(env, b) && VisitAll(env, 2, [b], 2, r) == After(env, r, b)
  {
    VisitAllOne(env, 2, b, 2, r);
    VisitFetched(env, 2, b, 2, r, Fetch(env, b).value);
    VisitAllOne(env, 2, c, 3, After(env, r, b));
  }

  lemma DiamondRun(env: Env, db: Table, s: Url, a: Url, b: Url, c: Url)
    requires s != a && s != b && a != b
    requires Links(env, s) == [a, b] && Links(env, a) == [b] && Links(env, b) == [c]
    ensures Succeeds(env, s) && Succeeds(env, a) && Succeeds(env, b)
    ensures Crawl(env, [s], db) == After(env, After(env, After(env, Run({}, db, []), s), a), b)
  {
    var r0 := Run({}, db, []);
    var r1 := After(env, r0, s);
    var r2 := After(env, r1, a);
    LastLevel(env, b, c, r2);
    var r3 := After(env, r2, b);
    VisitAllOne(env, 2, s, 0, r0);
    VisitFetched(env, 2, s, 0, r0, Fetch(env, s).value);
    VisitAllTwo(env, 2, a, b, 1, r1);
    VisitFetched(env, 2, a, 1, r1, Fetch(env, a).value);
    assert Visit(env, 2, b, 1, r3) == r3;
  }

  /** In any web where s links to a then b, a links to b and b links to c
      (four distinct URLs), the default bound 2 lets depth-first order reach
      b first at depth 2 through a and mark it there; its later depth-1
      occurrence under s is skipped, so c is never requested (the log holds
      exactly the fetches of s, a and b) although s -> b -> c is two hops. */
  lemma DeepFirstVisitHidesShallowPath(env: Env, db: Table, s: Url, a: Url, b: Url, c: Url)
    requires s != a && s != b && s != c && a != b && a != c && b != c
    requires Links(env, s) == [a, b] && Links(env, a) == [b] && Links(env, b) == [c]
    ensures var r := Crawl(env, [s], db);
      r.visited == {s, a, b} && c !in r.visited && (c !in db ==> c !in r.table) &&
      r.log == [Fetched(s), Fetched(a), Fetched(b)] &&
      Reaches(env, s, c, DefaultMaxDepth)
  {
    DiamondRun(env, db, s, a, b, c);
    var r1 := After(env, Run({}, db, []), s);
    var r2 := After(env, r1, a);
    AfterFacts(env, Run({}, db, []), s);
    AfterFacts(env, r1, a);
    AfterFacts(env, r2, b);
    assert Reaches(env, c, c, 0);
    ReachesStep(env, b, 0, c, 0);
    ReachesStep(env, s, 1, c, 1);
  }

  lemma ChainRun(env: Env, db: Table, s: Url, a: Url, b: Url, c: Url)
    requires s != a && s != b && a != b
    requires Links(env, s) == [a] && Links(env, a) == [b] && Links(env, b) == [c]
    ensures Succeeds(env, s) && Succeeds(env, a) && Succeeds(env, b)
    ensures Crawl(env, [s], db) == After(env, After(env, After(env, Run({}, db, []), s), a), b)
  {
    var r0 := Run({}, db, []);
    var r1 := After(env, r0, s);
    var r2 := After(env, r1, a);
    LastLevel(env, b, c, r2);
    VisitAllOne(env, 2, s, 0, r0);
    VisitFetched(env, 2, s, 0, r0, Fetch(env, s).value);
    VisitAllOne(env, 2, a, 1, r1);
    VisitFetched(env, 2, a, 1, r1, Fetch(env, a).value);
  }

  /** In any web where s links to a, a to b and b to c (four distinct URLs),
      the default bound 2 fetches and saves the page at depth 2 and neither
      fetches nor saves the one at depth 3. */
  lemma DepthBoundary(env: Env, db: Table, s: Url, a: Url, b: Url, c: Url)
    requires s != a && s != b && s != c && a != b && a != c && b != c
    requires Links(env, s) == [a] && Links(env, a) == [b] && Links(env, b) == [c]
    ensures var r := Crawl(env, [s], db);
      b in r.visited && (b !in env.saveFaults ==> b in r.table) &&
      c !in r.visited && (c !in db ==> c !in r.table) &&
      r.log == [Fetched(s), Fetched(a), Fetched(b)]
  {
    ChainRun(env, db, s, a, b, c);
    var r1 := After(env, Run({}, db, []), s);
    var r2 := After(env, r1, a);
    AfterFacts(env, Run({}, db, []), s);
    AfterFacts(env, r1, a);
    AfterFacts(env, r2, b);
  }

  /** A failed fetch does not mark its URL: a seed listed twice whose fetch
      fails is requested twice, and nothing is marked or saved. */
  lemma FailedFetchIsRetried(env: Env, db: Table, x: Url)
    requires !Succeeds(env, x)
    ensures var r := Crawl(env, [x, x], db);
      r.visited == {} && r.table == db && r.log == [FetchFailed(x), FetchFailed(x)]
  {
    var r0 := Run({}, db, []);
    VisitAllTwo(env, 2, x, x, 0, r0);
  }
}

/** What the crawl guarantees: it only adds to the run state, each URL is
    fetched successfully at most once, every visited URL was reached within
    the depth bound through successful fetches, the table gains only rows of
    visited pages, and every link within the bound is either visited or
    fails. */
module CrawlProofs {
  import opened Web
  import opened Store
  import opened CrawlSpec

  lemma SuccessesAppend(log: seq<Event>, e: Event)
    ensures Successes(log + [e]) == Successes(log) + if e.Fetched? then multiset{e.url} else multiset{}
  {
    assert (log + [e])[..|log|] == log;
  }

  lemma MultisetOfNestedDifference(a: set<Url>, b: set<Url>, c: set<Url>)
    requires a <= b <= c
    ensures multiset(c - a) == multiset(b - a) + multiset(c - b)
  {
    assert c - a == (b - a) + (c - b);
    assert (b - a) !! (c - b);
  }

  lemma GrowsReflexive(r: Run)
    ensures Grows(r, r)
  {
    assert r.visited - r.visited == {};
  }

  lemma GrowsTransitive(r1: Run, r2: Run, r3: Run)
    requires Grows(r1, r2) && Grows(r2, r3)
    ensures Grows(r1, r3)
  {
    MultisetOfNestedDifference(r1.visited, r2.visited, r3.visited);
  }

  /** A call only adds to the run state (old visited ⊆ new visited, no row
      overwritten) and every URL it marks visited is fetched successfully
      exactly once during the call. */
  lemma {:induction false} VisitGrows(env: Env, maxDepth: int, url: Url, depth: nat, r: Run)
    ensures Grows(r, Visit(env, maxDepth, url, depth, r))
    decreases Rank(maxDepth, depth), 0, 0
  {
    if depth > maxDepth || url in r.visited {
      GrowsReflexive(r);
    } else {
      match Fetch(env, url)
      case None =>
        SuccessesAppend(r.log, FetchFailed(url));
        assert r.visited - r.visited == {};
      case Some(resp) =>
        var r1 := SaveAndMark(env, r, url, resp);
        SuccessesAppend(r.log, Fetched(url));
        assert r1.visited - r.visited == {url};
        assert Grows(r, r1);
        VisitAllGrows(env, maxDepth, resp.links, depth + 1, r1);
        GrowsTransitive(r, r1, VisitAll(env, maxDepth, resp.links, depth + 1, r1));
    }
  }

  lemma {:induction false} VisitAllGrows(env: Env, maxDepth: int, links: seq<Url>, depth: nat, r: Run)
    ensures Grows(r, VisitAll(env, maxDepth, links, depth, r))
    decreases Rank(maxDepth, depth), 1, |links|
  {
    if links == [] {
      GrowsReflexive(r);
    } else {
      var n := |links| - 1;
      var mid := VisitAll(env, maxDepth, links[..n], depth, r);
      VisitAllGrows(env, maxDepth, links[..n], depth, r);
      VisitGrows(env, maxDepth, links[n], depth, mid);
      GrowsTransitive(r, mid, Visit(env, maxDepth, links[n], depth, mid));
    }
  }

  /** Every URL a call marks visited was fetched successfully, the call was
      within the depth bound, and the URL lies within `maxDepth - depth`
      successful hops of the call's own URL. */
  lemma {:induction false} VisitReach(env: Env, maxDepth: int, url: Url, depth: nat, r: Run)
    ensures forall u :: u in Visit(env, maxDepth, url, depth, r).visited - r.visited ==>
      Succeeds(env, u) && depth <= maxDepth && Reaches(env, url, u, maxDepth - depth)
    decreases Rank(maxDepth, depth), 0, 0
  {
    if depth <= maxDepth && url !in r.visited {
      match Fetch(env, url)
      case None =>
      case Some(resp) =>
        var r1 := SaveAndMark(env, r, url, resp);
        var r' := VisitAll(env, maxDepth, resp.links, depth + 1, r1);
        VisitAllReach(env, maxDepth, resp.links, depth + 1, r1);
        forall u | u in r'.visited - r.visited
          ensures Succeeds(env, u) && Reaches(env, url, u, maxDepth - depth)
        {
          if u != url {
            assert u in r'.visited - r1.visited;
            assert depth + 1 <= maxDepth;
            var i :| 0 <= i < |resp.links| && Reaches(env, resp.links[i], u, maxDepth - (depth + 1));
            ReachesStep(env, url, i, u, maxDepth - (depth + 1));
          }
        }
    }
  }

  lemma {:induction false} VisitAllReach(env: Env, maxDepth: int, links: seq<Url>, depth: nat, r: Run)
    ensures forall u :: u in VisitAll(env, maxDepth, links, depth, r).visited - r.visited ==>
      Succeeds(env, u) && depth <= maxDepth &&
      exists i :: 0 <= i < |links| && Reaches(env, links[i], u, maxDepth - depth)
    decreases Rank(maxDepth, depth), 1, |links|
  {
    if links != [] {
      var n := |links| - 1;
      var mid := VisitAll(env, maxDepth, links[..n], depth, r);
      var r' := Visit(env, maxDepth, links[n], depth, mid);
      VisitAllReach(env, maxDepth, links[..n], depth, r);
      VisitReach(env, maxDepth, links[n], depth, mid);
      VisitGrows(env, maxDepth, links[n], depth, mid);
      forall u | u in r'.visited - r.visited
        ensures Succeeds(env, u) && depth <= maxDepth
        ensures exists i :: 0 <= i < |links| && Reaches(env, links[i], u, maxDepth - depth)
      {
        if u in mid.visited {
          assert u in mid.visited - r.visited;
          var i :| 0 <= i < n && Reaches(env, links[..n][i], u, maxDepth - depth);
          assert links[..n][i] == links[i];
        } else {
          assert u in r'.visited - mid.visited;
          assert Reaches(env, links[n], u, maxDepth - depth);
        }
      }
    }
  }

  /** A row a call adds is the row of a URL the call marked visited, built
      from that URL's page; a URL the call marks visited has its row unless
      its insert failed. */
  lemma {:induction false} VisitRecords(env: Env, maxDepth: int, url: Url, depth: nat, r: Run)
    ensures var r' := Visit(env, maxDepth, url, depth, r);
      forall u :: u in r'.table && u !in r.table ==>
        u in r'.visited - r.visited && u in env.pages && r'.table[u] == MakeRecord(env, u, env.pages[u])
    ensures var r' := Visit(env, maxDepth, url, depth, r);
      forall u :: u in r'.visited - r.visited && u !in env.saveFaults ==> u in r'.table
    decreases Rank(maxDepth, depth), 0, 0
  {
    if depth <= maxDepth && url !in r.visited {
      match Fetch(env, url)
      case None =>
      case Some(resp) =>
        var r1 := SaveAndMark(env, r, url, resp);
        VisitAllRecords(env, maxDepth, resp.links, depth + 1, r1);
        VisitAllGrows(env, maxDepth, resp.links, depth + 1, r1);
    }
  }

  lemma {:induction false} VisitAllRecords(env: Env, maxDepth: int, links: seq<Url>, depth: nat, r: Run)
    ensures var r' := VisitAll(env, maxDepth, links, depth, r);
      forall u :: u in r'.table && u !in r.table ==>
        u in r'.visited - r.visited && u in env.pages && r'.table[u] == MakeRecord(env, u, env.pages[u])
    ensures var r' := VisitAll(env, maxDepth, links, depth, r);
      forall u :: u in r'.visited - r.visited && u !in env.saveFaults ==> u in r'.table
    decreases Rank(maxDepth, depth), 1, |links|
  {
    if links != [] {
      var n := |links| - 1;
      var mid := VisitAll(env, maxDepth, links[..n], depth, r);
      var r' := Visit(env, maxDepth, links[n], depth, mid);
      VisitAllRecords(env, maxDepth, links[..n], depth, r);
      VisitRecords(env, maxDepth, links[n], depth, mid);
      VisitGrows(env, maxDepth, links[n], depth, mid);
      VisitAllGrows(env, maxDepth, links[..n], depth, r);
      forall u | u in r'.table && u !in r.table
        ensures u in r'.visited - r.visited && u in env.pages && r'.table[u] == MakeRecord(env, u, env.pages[u])
      {
        if u in mid.table {
          assert r'.table[u] == mid.table[u];
        } else {
          assert u in r'.visited - mid.visited;
        }
      }
      forall u | u in r'.visited - r.visited && u !in env.saveFaults
        ensures u in r'.table
      {
        if u in mid.visited {
          assert u in mid.table;
        }
      }
    }
  }

  /** Within the depth bound, a call leaves its URL visited unless the
      fetch of that URL fails. */
  lemma VisitCoversItself(env: Env, maxDepth: int, url: Url, depth: nat, r: Run)
    requires depth <= maxDepth
    ensures url in Visit(env, maxDepth, url, depth, r).visited || !Succeeds(env, url)
  {
    if url !in r.visited {
      match Fetch(env, url)
      case None =>
      case Some(resp) =>
        var r1 := SaveAndMark(env, r, url, resp);
        VisitAllGrows(env, maxDepth, resp.links, depth + 1, r1);
    }
  }

  /** Within the depth bound every link of the list ends up visited unless
      its own fetch fails: a failing link does not stop its siblings. */
  lemma {:induction false} VisitAllCovers(env: Env, maxDepth: int, links: seq<Url>, depth: nat, r: Run)
    requires depth <= maxDepth
    ensures var r' := VisitAll(env, maxDepth, links, depth, r);
      forall i :: 0 <= i < |links| ==> links[i] in r'.visited || !Succeeds(env, links[i])
    decreases |links|
  {
    if links != [] {
      var n := |links| - 1;
      var mid := VisitAll(env, maxDepth, links[..n], depth, r);
      VisitAllCovers(env, maxDepth, links[..n], depth, r);
      VisitGrows(env, maxDepth, links[n], depth, mid);
      VisitCoversItself(env, maxDepth, links[n], depth, mid);
      assert forall i :: 0 <= i < n ==> links[..n][i] == links[i];
    }
  }

  /** A page fetched below the depth bound has all its links visited or
      failed once the call returns; at the bound its links are skipped. */
  lemma VisitCoversChildren(env: Env, maxDepth: int, url: Url, depth: nat, r: Run)
    requires depth < maxDepth && url !in r.visited
    ensures var r' := Visit(env, maxDepth, url, depth, r);
      forall i :: 0 <= i < |Links(env, url)| ==> Links(env, url)[i] in r'.visited || !Succeeds(env, Links(env, url)[i])
  {
    match Fetch(env, url)
    case None =>
    case Some(resp) =>
      var r1 := SaveAndMark(env, r, url, resp);
      VisitAllCovers(env, maxDepth, resp.links, depth + 1, r1);
  }

  /** A call keeps the run invariant: the shared visited set stays equal to
      the set of successful fetches, each made once. */
  lemma VisitAllKeepsInvariant(env: Env, maxDepth: int, links: seq<Url>, depth: nat, r: Run)
    requires RunInvariant(env, r)
    ensures RunInvariant(env, VisitAll(env, maxDepth, links, depth, r))
  {
    var r' := VisitAll(env, maxDepth, links, depth, r);
    VisitAllGrows(env, maxDepth, links, depth, r);
    VisitAllReach(env, maxDepth, links, depth, r);
    VisitAllRecords(env, maxDepth, links, depth, r);
    assert multiset(r'.visited) == multiset(r.visited) + multiset(r'.visited - r.visited) by {
      assert r'.visited == r.visited + (r'.visited - r.visited);
      assert r.visited !! (r'.visited - r.visited);
    }
  }

  /** In a whole run every URL is fetched successfully at most once, and
      exactly the visited URLs are. */
  lemma CrawlFetchesEachUrlAtMostOnce(env: Env, seeds: seq<Url>, db: Table)
    ensures var r := Crawl(env, seeds, db);
      forall u :: Successes(r.log)[u] == if u in r.visited then 1 else 0
  {
    var r0 := Run({}, db, []);
    VisitAllKeepsInvariant(env, DefaultMaxDepth, seeds, 0, r0);
  }

  /** A save failure is swallowed: the URL is still marked visited, and the
      call adds no row for it. */
  lemma SaveFailureStillMarksVisited(env: Env, maxDepth: int, url: Url, depth: nat, r: Run)
    requires depth <= maxDepth && url !in r.visited && Succeeds(env, url) && url in env.saveFaults
    ensures var r' := Visit(env, maxDepth, url, depth, r);
      url in r'.visited && (url in r'.table <==> url in r.table)
  {
    var resp := Fetch(env, url).value;
    var r1 := SaveAndMark(env, r, url, resp);
    VisitAllGrows(env, maxDepth, resp.links, depth + 1, r1);
    VisitAllRecords(env, maxDepth, resp.links, depth + 1, r1);
  }
}

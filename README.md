# Scrapzor crawler: a verified model of the crawl-and-persist loop

Scrapzor is a small recursive web crawler. It reads seed URLs, fetches
each page, saves the page into the `scraped_data` SQLite table, and follows
the page's hyperlinks depth-first up to a depth bound (2 by default). All
seeds share one visited set. This project models that loop in Dafny and
proves what it guarantees.

The model has three parts:

- `Web` (web.dfy) replaces the outside world with one deterministic value, `Env`:
  - `pages` maps each reachable URL to its response: status, body, serialised headers, transport version, and links. The links are already resolved against the page URL and kept in document order.
  - A URL outside `pages` raises a `RequestException`.
  - `raise_for_status` rejects a status from 400 to 599.
  - `saveFaults` lists the URLs whose insert raises `sqlite3.Error`.
  - `md5` stands for the hex digest of a body.
- `Store` (store.dfy) models the table as a map from the UNIQUE `url` column to its row. It defines `INSERT OR IGNORE`, the protocol label, and `save_to_database`.
- `CrawlSpec` (crawl.dfy) defines the crawl as functions on a run state `Run(visited, table, log)`. `log` records every fetch and whether it succeeded. `Visit` is one call of `scrape_recursive`. `VisitAll` threads the state through a list of URLs at one depth. `Crawl` is the seed loop of `main`.
- `Scraper` (scraper.dfy) is the imperative program:
  - Class `Crawler` holds the shared `visited` set and the `table`, and changes both in place.
  - `ScrapeRecursive` is recursive. It loops over a page's links and terminates by `decreases maxDepth + 1 - depth`.
  - `ScrapeAll` is the seed loop. It is proved to compute exactly `Crawl`: the same visited set, table and fetch log.
- `CrawlProofs` (crawl_proofs.dfy) proves the crawl's guarantees.
- `Scenarios` (scenarios.dfy) proves the depth boundary and the two documented quirks on small link shapes. Each shape is stated for every web that has it.

Two behaviours of the code the model keeps:

- A URL is marked visited even when its save fails (main.py:50-56, 70-71).
- Only a final status from 400 to 599 makes the fetch fail (main.py:67); any other status, 1xx included, is saved and followed.

## Model

| member | source | states |
|---|---|---|
| Web.RaisesForStatus | main.py:67 | defining predicate without a contract: a status from 400 to 599 raises; its effect is stated by `Scraper.Crawler.ScrapeRecursive` and `CrawlProofs.VisitReach` (only successful fetches are visited) |
| Web.Fetch | main.py:66-67 | defining function without a contract: a response for a URL the network answers with a non-error status, otherwise failure; `CrawlProofs.VisitReach`, `CrawlProofs.VisitAllCovers` and `Scenarios.FailedFetchIsRetried` state what the crawl does with each outcome |
| Store.MakeRecord | main.py:39-53 | defining function without a contract: the row built from a response (body, headers, status, protocol label, md5 of the body); `Store.Save` and `CrawlProofs.VisitRecords` state that every added row is this row of its URL's page |
| CrawlSpec.Visit | main.py:60-85 | defining function without a contract: one call of `scrape_recursive` on the run state; its properties are stated by `CrawlProofs.VisitGrows`, `CrawlProofs.VisitReach`, `CrawlProofs.VisitRecords`, `CrawlProofs.VisitCoversItself` and `CrawlProofs.VisitCoversChildren`, and `Scraper.Crawler.ScrapeRecursive` is proved equal to it |
| CrawlSpec.VisitAll | main.py:78-80 | defining function without a contract: the loop over a page's links at one depth; its properties are stated by `CrawlProofs.VisitAllGrows`, `CrawlProofs.VisitAllReach`, `CrawlProofs.VisitAllRecords`, `CrawlProofs.VisitAllCovers` and `CrawlProofs.VisitAllKeepsInvariant` |
| CrawlSpec.Crawl | main.py:97-101 | defining function without a contract: every seed at depth 0 with one shared visited set; its properties are stated by `CrawlProofs.CrawlFetchesEachUrlAtMostOnce`, `Scraper.ScrapeAll` and the three `Scenarios` lemmas |
| Store.ProtocolLabel | main.py:42-48 | version 10, 11 and 20 (and only they) give "HTTP/1.0", "HTTP/1.1" and "HTTP/2.0"; every other version is kept unchanged as the raw value |
| Store.ProtocolLabelInjective | main.py:42-48 | two versions with the same stored label are the same version |
| Store.InsertOrIgnore | main.py:51-53 | the URL is present afterwards; an existing row is never overwritten; a new URL gets exactly its own row; the row count grows by one exactly when the URL was new; every row still sits under its own URL, so no URL has two rows |
| Store.InsertOrIgnoreIdempotent | main.py:51-53 | inserting a second row for a URL already inserted changes nothing |
| Store.Save | main.py:35-56 | without a storage error the URL is in the table afterwards; with one the table is unchanged; no other row is added or changed; a new row is built from the response: body, headers, status, protocol label and md5 digest |
| Scraper.Crawler.constructor | main.py:94-97 | a run starts with an empty visited set over the table as the database already holds it |
| Scraper.Crawler.SaveToDatabase | main.py:35-56 | the table afterwards is `Save` of the table before |
| Scraper.Crawler.ScrapeRecursive | main.py:60-85 | the new state is `Visit` of the old one; past the depth bound or on an already visited URL nothing changes and nothing is fetched; on a failed fetch the visited set and the table are unchanged |
| Scraper.ScrapeAll | main.py:89-104 | the visited set, the table and the fetch log are those of `Crawl` of the seeds; each visited URL is fetched successfully exactly once and no other URL is; existing rows are kept; one-row-per-URL is preserved; every visited URL was fetched successfully and has its row unless its save failed; every visited URL is within 2 hops of some seed; every seed is visited unless its own fetch fails |
| CrawlProofs.VisitGrows | main.py:60-85 | across a call the visited set only grows, the log only extends, no row changes, and each URL newly marked visited was fetched successfully exactly once during the call |
| CrawlProofs.VisitAllGrows | main.py:77-80 | the same guarantees hold across the loop over a page's links |
| CrawlProofs.VisitReach | main.py:61-80 | each URL a call marks visited was fetched successfully; the call was within the bound; the URL is at most `maxDepth - depth` successful hops from the call's URL |
| CrawlProofs.VisitAllReach | main.py:77-80 | each URL the link loop marks visited was fetched successfully and is within `maxDepth - depth` hops of one of the links |
| CrawlProofs.VisitRecords | main.py:64-71 | every row a call adds belongs to a URL the call marked visited and is built from that URL's page; a newly visited URL has its row unless its save failed |
| CrawlProofs.VisitAllRecords | main.py:77-80 | the same guarantees hold across the loop over a page's links |
| CrawlProofs.VisitCoversItself | main.py:61-71 | within the bound, a call leaves its URL visited unless the fetch of that URL fails |
| CrawlProofs.VisitAllCovers | main.py:78-83 | within the bound, every link of the list ends up visited unless its own fetch fails, so one failure does not stop its siblings |
| CrawlProofs.VisitCoversChildren | main.py:74-80 | a page fetched below the bound has every one of its links visited or failed when the call returns |
| CrawlProofs.VisitAllKeepsInvariant | main.py:60-85 | the run invariant is preserved: the visited set equals the multiset of successful fetches; every visited URL was fetched successfully; every visited URL has its row unless its save failed |
| CrawlProofs.CrawlFetchesEachUrlAtMostOnce | main.py:97-101 | over a whole run with the shared visited set, a visited URL is fetched successfully exactly once and any other URL never |
| CrawlProofs.SaveFailureStillMarksVisited | main.py:50-71 | when the save raises `sqlite3.Error` the URL is still marked visited and no row is added for it |
| Scenarios.DeepFirstVisitHidesShallowPath | main.py:61-80 | with s linking to a then b, a to b, and b to c: b is first reached at depth 2 through a; the fetch log is exactly s, a, b, so c is never requested or saved, although s -> b -> c is two hops |
| Scenarios.DepthBoundary | main.py:61-62 | on a chain s -> a -> b -> c with the default bound 2, b (depth 2) is fetched and saved; c (depth 3) is neither fetched nor saved |
| Scenarios.FailedFetchIsRetried | main.py:64-83 | a seed listed twice whose fetch fails is requested twice; nothing is marked visited or saved |

## Left out

- Reading the seeds from `config.yaml` (main.py:11-14): file I/O and a YAML parser. The seeds are an input sequence.
- The HTTP request itself, its 10-second timeout and its `User-Agent` header (main.py:66): network I/O. The answer for each URL comes from `Env.pages`.
- `raise_for_status` (main.py:67): the library's rule (a status from 400 to 599 raises) is written out in `RaisesForStatus`.
- HTML parsing with BeautifulSoup and `urljoin` resolution (main.py:74-79): foreign libraries. Each response carries its links, already absolute and in document order. Both steps are total in the model.
- The catch-all `except Exception` (main.py:84-85): no other exception can arise in the model. In the program, such an exception raised while looping over links would also skip the page's remaining links.
- MD5 (RFC 1321) (main.py:39): `Env.md5` is an uninterpreted function of the body. So identical bodies give identical checksums, but the model does not claim that different bodies give different ones.
- The sqlite connection, `commit`, `close` and `CREATE TABLE IF NOT EXISTS` (main.py:18-31, 54, 104): storage-engine plumbing. The table is a map given to the run and returned from it.
- The auto-increment `id` column (main.py:22): rows are identified by their URL.
- Store.Save: a `sqlite3.Error` is decided per URL by `Env.saveFaults`, and the model takes it to leave the table unchanged. It does not model a failure at `commit` that leaves an insert pending in the connection.
- Store.ProtocolLabel: an unrecognised version is kept as the integer itself. SQLite's conversion of that integer to text in the TEXT column is not modelled.
- The `print` messages and the `str(response.headers)` serialisation (main.py:53, 56, 83, 85): output formatting. The headers are an opaque string.
- Python's recursion limit and memory exhaustion: with the default bound 2 the recursion is at most three calls deep.

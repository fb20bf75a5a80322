/** The world the crawler talks to, reduced to what the traversal depends on.
    The HTTP stack, the HTML parser with `urljoin`, the database engine's
    failures and the MD5 digest are all replaced by one deterministic value
    of type `Env`. */
module Web {

  type Url = string

  datatype Option<+T> = None | Some(value: T)

  /** One answer of `requests.get`: status, decoded body, serialised
      headers, the transport version (10, 11, 20, ...) and the hyperlinks of
      the body, already resolved against the page's own URL, in document order. */
  datatype Response = Response(status: int, body: string, headers: string, version: int, links: seq<Url>)

  /** `pages` answers every URL the network can reach; a URL outside it
      raises a `RequestException` (connection error, timeout).
      `saveFaults` are the URLs whose insert raises `sqlite3.Error`.
      `md5` stands for the hex MD5 digest of a body. */
  datatype Env = Env(pages: map<Url, Response>, saveFaults: set<Url>, md5: string -> string)

  /** `raise_for_status`: a 4xx or 5xx status raises `HTTPError`. */
  predicate RaisesForStatus(status: int) {
    400 <= status < 600
  }

  /** The fetch as the crawler sees it: a response that passed the status
      check, or `None` for any `RequestException`. */
  function Fetch(env: Env, url: Url): Option<Response> {
    if url in env.pages && !RaisesForStatus(env.pages[url].status) then Some(env.pages[url]) else None
  }

  predicate Succeeds(env: Env, url: Url) {
    Fetch(env, url).Some?
  }

  /** The links the crawler follows from `url`: none when the fetch fails. */
  function Links(env: Env, url: Url): seq<Url> {
    match Fetch(env, url)
    case Some(resp) => resp.links
    case None => []
  }

  /** `to` is `from` itself, or is reached from it by following at most
      `hops` links, each out of a page whose fetch succeeds. */
  ghost predicate Reaches(env: Env, from: Url, to: Url, hops: nat)
    decreases hops
  {
    from == to ||
    (hops > 0 && exists i :: 0 <= i < |Links(env, from)| && Reaches(env, Links(env, from)[i], to, hops - 1))
  }

  lemma ReachesStep(env: Env, from: Url, i: nat, to: Url, hops: nat)
    requires i < |Links(env, from)| && Reaches(env, Links(env, from)[i], to, hops)
    ensures Reaches(env, from, to, hops + 1)
  {
  }
}

/** The `scraped_data` table and the write `save_to_database` performs on it.
    The table is a map from the UNIQUE `url` column to the row holding it. */
module Store {
  import opened Web

  /** The `http_protocol` column: a fixed label for the three known
      transport versions, otherwise the raw version value unchanged. */
  datatype Protocol = Named(name: string) | Raw(version: int)

  /** One row of `scraped_data` (the auto-increment `id` is not modelled). */
  datatype Record = Record(url: Url, body: string, headers: string, status: int, protocol: Protocol, checksum: string)

  type Table = map<Url, Record>

  /** Every row sits under its own `url`, so no URL has two rows. */
  ghost predicate Keyed(t: Table) {
    forall u :: u in t ==> t[u].url == u
  }

  /** The if/elif chain on `response.raw.version`. */
  function ProtocolLabel(version: int): (p: Protocol)
    ensures p == Named("HTTP/1.0") <==> version == 10
    ensures p == Named("HTTP/1.1") <==> version == 11
    ensures p == Named("HTTP/2.0") <==> version == 20
    ensures p.Raw? <==> version != 10 && version != 11 && version != 20
    ensures p.Raw? ==> p.version == version
  {
    if version == 10 then Named("HTTP/1.0")
    else if version == 11 then Named("HTTP/1.1")
    else if version == 20 then Named("HTTP/2.0")
    else Raw(version)
  }

  /** Distinct transport versions never share a label. */
  lemma ProtocolLabelInjective(v: int, w: int)
    requires ProtocolLabel(v) == ProtocolLabel(w)
    ensures v == w
  {
  }

  /** The row built from a response: body, headers, status, protocol label
      and the digest of the body. */
  function MakeRecord(env: Env, url: Url, resp: Response): Record {
    Record(url, resp.body, resp.headers, resp.status, ProtocolLabel(resp.version), env.md5(resp.body))
  }

  /** `INSERT OR IGNORE` against the UNIQUE `url` column. */
  function InsertOrIgnore(t: Table, rec: Record): (t': Table)
    ensures t'.Keys == t.Keys + {rec.url}
    ensures forall u :: u in t ==> t'[u] == t[u]
    ensures rec.url !in t ==> t'[rec.url] == rec
    ensures |t'| == if rec.url in t then |t| else |t| + 1
    ensures Keyed(t) ==> Keyed(t')
  {
    if rec.url in t then t else t[rec.url := rec]
  }

  /** A second insert of the same URL changes nothing. */
  lemma InsertOrIgnoreIdempotent(t: Table, a: Record, b: Record)
    requires a.url == b.url
    ensures InsertOrIgnore(InsertOrIgnore(t, a), b) == InsertOrIgnore(t, a)
  {
  }

  /** `save_to_database`: insert-or-ignore the row for `url`; when the
      insert raises `sqlite3.Error` the error is swallowed and the table is
      left as it was. */
  function Save(env: Env, t: Table, url: Url, resp: Response): (t': Table)
    ensures url in env.saveFaults ==> t' == t
    ensures url !in env.saveFaults ==> t'.Keys == t.Keys + {url}
    ensures t'.Keys <= t.Keys + {url}
    ensures forall u :: u in t ==> u in t' && t'[u] == t[u]
    ensures url in t' && url !in t ==> t'[url] == MakeRecord(env, url, resp)
    ensures Keyed(t) ==> Keyed(t')
  {
    if url in env.saveFaults then t else InsertOrIgnore(t, MakeRecord(env, url, resp))
  }
}

/**
 * `process_entry` and the rest of `crawl_source` in wechat/services.py:
 * an entry's detail page is fetched first (a failed fetch drops the
 * entry), parsed, identified by its content and URL, checked against the
 * shared record store, stored and returned. Entries are processed one
 * after the other; the concurrency of the source is not modelled.
 */
module WechatProcess {
  import opened Wrappers
  import opened Text
  import opened Json
  import opened Dates
  import opened CrawlerConfig
  import opened CrawlerFetch
  import opened CrawlerCrawl
  import opened CrawlerProcess
  import CrawlerDetail
  import RecordStore
  import WechatServices

  // ---------------------------------------------------------------------
  // The content-based id
  // ---------------------------------------------------------------------

  /** `content.strip() or detail_url`: the stripped content, or the URL when it is blank. */
  function ContentKey(content: string, url: string): (r: string)
    ensures Strip(content) != "" ==> r == Strip(content)
    ensures Strip(content) == "" ==> r == url
  {
    if Strip(content) != "" then Strip(content) else url
  }

  /** `compute_sha256(content.strip() or detail_url or "", detail_url)` under the hash `sha`. */
  function ItemId(sha: string -> string, content: string, url: string): string
  {
    sha(IdPayload([Some(ContentKey(content, url)), Some(url)]))
  }

  /** The hashed text is the content key, a newline and the URL. */
  lemma ItemIdPayload(content: string, url: string)
    ensures IdPayload([Some(ContentKey(content, url)), Some(url)]) == ContentKey(content, url) + "\n" + url
  {
    var parts := OrEmpty([Some(ContentKey(content, url)), Some(url)]);
    assert parts == [ContentKey(content, url), url];
    assert parts[1..] == [url];
  }

  /**
   * Two detail URLs without newlines give different hashed texts, however
   * alike their contents: the URL is the text after the last newline.
   */
  lemma DistinctUrlsDistinctPayloads(c1: string, u1: string, c2: string, u2: string)
    requires '\n' !in u1 && '\n' !in u2 && u1 != u2
    ensures IdPayload([Some(ContentKey(c1, u1)), Some(u1)]) != IdPayload([Some(ContentKey(c2, u2)), Some(u2)])
  {
    ItemIdPayload(c1, u1);
    ItemIdPayload(c2, u2);
    if ContentKey(c1, u1) + "\n" + u1 == ContentKey(c2, u2) + "\n" + u2 {
      NewlineSuffix(ContentKey(c1, u1), u1, ContentKey(c2, u2), u2);
    }
  }

  /** Index of the last newline in `s`, or -1 when it holds none. */
  function LastNewline(s: string): (r: int)
    ensures -1 <= r < |s|
    ensures r >= 0 ==> s[r] == '\n'
  {
    if s == [] then -1
    else if s[|s| - 1] == '\n' then |s| - 1
    else LastNewline(s[..|s| - 1])
  }

  /** The newline placed before a newline-free tail is the last one. */
  lemma {:induction false} LastNewlineBefore(a: string, u: string)
    requires '\n' !in u
    ensures LastNewline(a + "\n" + u) == |a|
    decreases |u|
  {
    if u != [] {
      var s := a + "\n" + u;
      assert s[..|s| - 1] == a + "\n" + u[..|u| - 1];
      LastNewlineBefore(a, u[..|u| - 1]);
    }
  }

  /** Text after a newline that holds no newline is the same in equal strings. */
  lemma NewlineSuffix(a1: string, u1: string, a2: string, u2: string)
    requires a1 + "\n" + u1 == a2 + "\n" + u2 && '\n' !in u1 && '\n' !in u2
    ensures u1 == u2
  {
    var p := a1 + "\n" + u1;
    LastNewlineBefore(a1, u1);
    LastNewlineBefore(a2, u2);
    assert u1 == p[|a1| + 1..];
  }

  // ---------------------------------------------------------------------
  // process_entry
  // ---------------------------------------------------------------------

  /** `entry.get("title") or ""` for the returned item. */
  function TitleText(title: Json): (r: string)
    ensures title.JStr? ==> r == title.s
    ensures !title.JStr? ==> r == ""
  {
    if title.JStr? then title.s else ""
  }

  /** `entry.get("date")`: the listed date text, if the list gave one. */
  function DateOf(e: Entry): (r: Option<string>)
    ensures r.Some? <==> e.date.JStr?
  {
    if e.date.JStr? then Some(e.date.s) else None
  }

  /** The metadata stored with a document; `publish_time` is the `isoformat` of `pt`. */
  function Metadata(e: Entry, url: string, src: Source, pt: DateTime, atts: seq<CrawlerDetail.Attachment>,
                    dumps: seq<CrawlerDetail.Attachment> -> string): (m: RecordStore.Metadata)
    requires Valid(pt)
    ensures m.Keys == {"url", "source_id", "source_name", "title", "publish_time", "attachments"}
    ensures m["url"] == Some(url) && m["title"] == TitleColumn(e.title)
    ensures m["publish_time"] == Some(IsoFormat(pt))
    ensures m["attachments"].Some? <==> atts != []
  {
    map["url" := Some(url),
        "source_id" := Some(src.id),
        "source_name" := Some(src.name),
        "title" := TitleColumn(e.title),
        "publish_time" := Some(IsoFormat(pt)),
        "attachments" := if atts != [] then Some(dumps(atts)) else None]
  }

  /**
   * The parsed detail page at `url` or the exception parsing it raises, or
   * None when the fetch fails after the retries.
   */
  function DetailPageOf(url: string, src: Source, env: Env, selectors: map<string, CrawlerDetail.Group>)
    : (r: Option<Result<CrawlerDetail.DetailPage, string>>)
    ensures r.None? <==> Outcome(env.getHtml(url, src.headers), env.retries).None?
  {
    match Outcome(env.getHtml(url, src.headers), env.retries)
    case None => None
    case Some(html) => Some(WechatServices.PageOf(env.soup(html), selectors, src.baseUrl, src.headers, env.svc, env.ocrCmd))
  }

  /**
   * One `process_entry(entry)` against the table `rows`, with the detail
   * pages parsed against `selectors`: the coroutine's outcome and the table
   * after it.
   */
  function EntryStep(rows: seq<RecordStore.Row>, e: Entry, src: Source, env: Env,
                     selectors: map<string, CrawlerDetail.Group>): (r: (Task, seq<RecordStore.Row>))
    requires Valid(env.now) && env.now.aware
  {
    if e.url.None? || e.url.value == "" then (TaskReturned(None), rows)
    else
      var url := e.url.value;
      match DetailPageOf(url, src, env, selectors)
      case None => (TaskReturned(None), rows)
      case Some(Err(err)) => (TaskRaised(err), rows)
      case Some(Ok(page)) =>
        var id := ItemId(env.sha, page.content, url);
        if RecordStore.ExistsIn(rows, id, None) then (TaskReturned(None), rows)
        else Finish(rows, e, url, id, page, src, env)
  }

  /**
   * The rest of `process_entry` for a new document: store it, then return
   * the item, or raise pydantic's rejection of a URL that is not an HTTP URL.
   */
  function Finish(rows: seq<RecordStore.Row>, e: Entry, url: string, id: string, page: CrawlerDetail.DetailPage,
                  src: Source, env: Env): (r: (Task, seq<RecordStore.Row>))
    requires Valid(env.now) && env.now.aware
  {
    var pt := WechatServices.ParsePublishTime(DateOf(e), env.now);
    var m := Metadata(e, url, src, pt, page.attachments, env.dumps);
    var rows1 := Stored(rows, id, page.content, m, env.createdAt);
    if !env.svc.validUrl(url) then (TaskRaised(CrawlerDetail.InvalidUrl), rows1)
    else
      (TaskReturned(Some(CrawlItem(id, TitleText(e.title), page.content, url, pt, src.name,
                                   if page.attachments == [] then None else Some(page.attachments), e.kind))),
       rows1)
  }

  /**
   * An entry raises exactly when its fetched page fails to parse, or when
   * its page is new and its URL is not an HTTP URL; it gives nothing, and
   * leaves the table alone, exactly when it has no URL, its fetch fails or
   * its document is already stored.
   */
  lemma StepOutcomes(rows: seq<RecordStore.Row>, e: Entry, src: Source, env: Env,
                     selectors: map<string, CrawlerDetail.Group>)
    requires Valid(env.now) && env.now.aware
    ensures var r := EntryStep(rows, e, src, env, selectors);
            r.0.TaskRaised?
            <==> (e.url.Some? && e.url.value != "" && DetailPageOf(e.url.value, src, env, selectors).Some?
                  && (DetailPageOf(e.url.value, src, env, selectors).value.Err?
                      || (!RecordStore.ExistsIn(rows, ItemId(env.sha, DetailPageOf(e.url.value, src, env, selectors).value.value.content,
                                                             e.url.value), None)
                          && !env.svc.validUrl(e.url.value))))
    ensures var r := EntryStep(rows, e, src, env, selectors);
            (r.0.TaskReturned? && r.0.item.None?)
            <==> (e.url.None? || e.url.value == ""
                  || DetailPageOf(e.url.value, src, env, selectors).None?
                  || (DetailPageOf(e.url.value, src, env, selectors).value.Ok?
                      && RecordStore.ExistsIn(rows, ItemId(env.sha, DetailPageOf(e.url.value, src, env, selectors).value.value.content,
                                                           e.url.value), None)))
    ensures var r := EntryStep(rows, e, src, env, selectors);
            r.0.TaskReturned? && r.0.item.None? ==> r.1 == rows
  {
  }

  /** A failed detail fetch stores nothing: unlike the crawler, no placeholder row is written. */
  lemma FetchFailureDropsEntry(rows: seq<RecordStore.Row>, e: Entry, src: Source, env: Env,
                               selectors: map<string, CrawlerDetail.Group>)
    requires Valid(env.now) && env.now.aware && e.url.Some? && e.url.value != ""
    requires Outcome(env.getHtml(e.url.value, src.headers), env.retries).None?
    ensures EntryStep(rows, e, src, env, selectors) == (TaskReturned(None), rows)
  {
    assert DetailPageOf(e.url.value, src, env, selectors).None?;
  }

  /** A page that fails to parse raises its exception, and nothing is stored. */
  lemma ParseErrorDropsEntry(rows: seq<RecordStore.Row>, e: Entry, src: Source, env: Env,
                             selectors: map<string, CrawlerDetail.Group>)
    requires Valid(env.now) && env.now.aware && e.url.Some? && e.url.value != ""
    requires DetailPageOf(e.url.value, src, env, selectors).Some? && DetailPageOf(e.url.value, src, env, selectors).value.Err?
    ensures EntryStep(rows, e, src, env, selectors)
            == (TaskRaised(DetailPageOf(e.url.value, src, env, selectors).value.error), rows)
  {
  }

  /**
   * A new page at a URL that is not an HTTP URL raises after it is stored:
   * with non-empty content and title its row is complete, so every later
   * visit skips the entry and it is never returned.
   */
  lemma InvalidUrlStoredNotReturned(rows: seq<RecordStore.Row>, e: Entry, src: Source, env: Env,
                                    selectors: map<string, CrawlerDetail.Group>)
    requires Valid(env.now) && env.now.aware && RecordStore.UniqueIds(rows)
    requires e.url.Some? && e.url.value != "" && !env.svc.validUrl(e.url.value)
    requires DetailPageOf(e.url.value, src, env, selectors).Some? && DetailPageOf(e.url.value, src, env, selectors).value.Ok?
    requires DetailPageOf(e.url.value, src, env, selectors).value.value.content != ""
    requires !RecordStore.ExistsIn(rows, ItemId(env.sha, DetailPageOf(e.url.value, src, env, selectors).value.value.content,
                                                e.url.value), None)
    requires TitleColumn(e.title).Some? && TitleColumn(e.title).value != ""
    ensures EntryStep(rows, e, src, env, selectors).0 == TaskRaised(CrawlerDetail.InvalidUrl)
    ensures var rows1 := EntryStep(rows, e, src, env, selectors).1;
            EntryStep(rows1, e, src, env, selectors) == (TaskReturned(None), rows1)
  {
    var url := e.url.value;
    var page := DetailPageOf(url, src, env, selectors).value.value;
    var id := ItemId(env.sha, page.content, url);
    var pt := WechatServices.ParsePublishTime(DateOf(e), env.now);
    var m := Metadata(e, url, src, pt, page.attachments, env.dumps);
    assert EntryStep(rows, e, src, env, selectors) == Finish(rows, e, url, id, page, src, env);
    StoredComplete(rows, id, page.content, m, env.createdAt, TitleColumn(e.title).value, url);
    StoredSkipped(EntryStep(rows, e, src, env, selectors).1, e, src, env, selectors);
  }

  /** Every step keeps the primary key of the table. */
  lemma EntryStepKeepsIds(rows: seq<RecordStore.Row>, e: Entry, src: Source, env: Env,
                          selectors: map<string, CrawlerDetail.Group>)
    requires Valid(env.now) && env.now.aware && RecordStore.UniqueIds(rows)
    ensures RecordStore.UniqueIds(EntryStep(rows, e, src, env, selectors).1)
  {
    if EntryStep(rows, e, src, env, selectors).1 != rows {
      var url, id, page := ChangedStepFinished(rows, e, src, env, selectors);
      FinishKeepsIds(rows, e, url, id, page, src, env);
    }
  }

  /** A step that changes the table stored a new, parsed page. */
  lemma ChangedStepFinished(rows: seq<RecordStore.Row>, e: Entry, src: Source, env: Env,
                            selectors: map<string, CrawlerDetail.Group>)
    returns (url: string, id: string, page: CrawlerDetail.DetailPage)
    requires Valid(env.now) && env.now.aware
    requires EntryStep(rows, e, src, env, selectors).1 != rows
    ensures EntryStep(rows, e, src, env, selectors) == Finish(rows, e, url, id, page, src, env)
  {
    url := e.url.value;
    page := DetailPageOf(url, src, env, selectors).value.value;
    id := ItemId(env.sha, page.content, url);
  }

  /** Storing a new document keeps the primary key of the table. */
  lemma FinishKeepsIds(rows: seq<RecordStore.Row>, e: Entry, url: string, id: string, page: CrawlerDetail.DetailPage,
                       src: Source, env: Env)
    requires Valid(env.now) && env.now.aware && RecordStore.UniqueIds(rows)
    ensures RecordStore.UniqueIds(Finish(rows, e, url, id, page, src, env).1)
  {
    var pt := WechatServices.ParsePublishTime(DateOf(e), env.now);
    StoredKeepsIds(rows, id, page.content, Metadata(e, url, src, pt, page.attachments, env.dumps), env.createdAt);
  }

  /**
   * The id depends on the page, not on the listing: once a page with
   * non-empty content is stored under a non-empty title, any entry at the
   * same URL (whatever its title, date or type) whose page reads the same
   * is skipped.
   */
  lemma SamePageSkipped(rows: seq<RecordStore.Row>, e: Entry, e2: Entry, src: Source, env: Env,
                        selectors: map<string, CrawlerDetail.Group>)
    requires Valid(env.now) && env.now.aware && RecordStore.UniqueIds(rows)
    requires e2.url == e.url
    requires var r := EntryStep(rows, e, src, env, selectors);
             r.0.TaskReturned? && r.0.item.Some? && r.0.item.value.content != ""
    requires TitleColumn(e.title).Some? && TitleColumn(e.title).value != ""
    ensures var rows1 := EntryStep(rows, e, src, env, selectors).1;
            EntryStep(rows1, e2, src, env, selectors) == (TaskReturned(None), rows1)
  {
    StoredAfterStep(rows, e, src, env, selectors);
    StoredSkipped(EntryStep(rows, e, src, env, selectors).1, e2, src, env, selectors);
  }

  /** A stored entry leaves a complete row under its document id. */
  lemma StoredAfterStep(rows: seq<RecordStore.Row>, e: Entry, src: Source, env: Env,
                        selectors: map<string, CrawlerDetail.Group>)
    requires Valid(env.now) && env.now.aware && RecordStore.UniqueIds(rows)
    requires var r := EntryStep(rows, e, src, env, selectors);
             r.0.TaskReturned? && r.0.item.Some? && r.0.item.value.content != ""
    requires TitleColumn(e.title).Some? && TitleColumn(e.title).value != ""
    ensures e.url.Some? && DetailPageOf(e.url.value, src, env, selectors).Some?
            && DetailPageOf(e.url.value, src, env, selectors).value.Ok?
    ensures RecordStore.ExistsIn(EntryStep(rows, e, src, env, selectors).1,
                                 ItemId(env.sha, DetailPageOf(e.url.value, src, env, selectors).value.value.content, e.url.value), None)
  {
    ReturnedStepFinished(rows, e, src, env, selectors);
    var url := e.url.value;
    var page := DetailPageOf(url, src, env, selectors).value.value;
    FinishedStored(rows, e, url, ItemId(env.sha, page.content, url), page, src, env);
  }

  /** A step that returns an item went through `Finish` for a new, parsed page at its URL. */
  lemma ReturnedStepFinished(rows: seq<RecordStore.Row>, e: Entry, src: Source, env: Env,
                             selectors: map<string, CrawlerDetail.Group>)
    requires Valid(env.now) && env.now.aware
    requires var r := EntryStep(rows, e, src, env, selectors);
             r.0.TaskReturned? && r.0.item.Some?
    ensures e.url.Some? && e.url.value != "" && DetailPageOf(e.url.value, src, env, selectors).Some?
            && DetailPageOf(e.url.value, src, env, selectors).value.Ok?
    ensures var page := DetailPageOf(e.url.value, src, env, selectors).value.value;
            EntryStep(rows, e, src, env, selectors)
            == Finish(rows, e, e.url.value, ItemId(env.sha, page.content, e.url.value), page, src, env)
  {
  }

  /** A finished page whose item has content leaves a complete row under its id. */
  lemma FinishedStored(rows: seq<RecordStore.Row>, e: Entry, url: string, id: string, page: CrawlerDetail.DetailPage,
                       src: Source, env: Env)
    requires Valid(env.now) && env.now.aware && RecordStore.UniqueIds(rows)
    requires var r := Finish(rows, e, url, id, page, src, env);
             r.0.TaskReturned? && r.0.item.Some? && r.0.item.value.content != ""
    requires TitleColumn(e.title).Some? && TitleColumn(e.title).value != ""
    ensures RecordStore.ExistsIn(Finish(rows, e, url, id, page, src, env).1, id, None)
  {
    var pt := WechatServices.ParsePublishTime(DateOf(e), env.now);
    var m := Metadata(e, url, src, pt, page.attachments, env.dumps);
    StoredComplete(rows, id, page.content, m, env.createdAt, TitleColumn(e.title).value, url);
  }

  /** An entry whose page is already stored under its document id is skipped. */
  lemma StoredSkipped(rows: seq<RecordStore.Row>, e: Entry, src: Source, env: Env,
                      selectors: map<string, CrawlerDetail.Group>)
    requires Valid(env.now) && env.now.aware
    requires e.url.Some? && DetailPageOf(e.url.value, src, env, selectors).Some?
    requires DetailPageOf(e.url.value, src, env, selectors).value.Ok?
    requires RecordStore.ExistsIn(rows, ItemId(env.sha, DetailPageOf(e.url.value, src, env, selectors).value.value.content,
                                               e.url.value), None)
    ensures EntryStep(rows, e, src, env, selectors) == (TaskReturned(None), rows)
  {
  }

  /** `process_entry(entry)` on the store `db`. */
  method ProcessEntry(db: RecordStore.Database, e: Entry, src: Source, env: Env,
                      selectors: map<string, CrawlerDetail.Group>) returns (task: Task)
    requires db.Valid() && Valid(env.now) && env.now.aware
    modifies db
    ensures db.Valid()
    ensures (task, db.rows) == EntryStep(old(db.rows), e, src, env, selectors)
  {
    if e.url.None? || e.url.value == "" {
      return TaskReturned(None);
    }
    var url := e.url.value;
    var page := FetchDetail(url, src, env, selectors);
    if page.None? {
      return TaskReturned(None);
    }
    if page.value.Err? {
      return TaskRaised(page.value.error);
    }
    var id := ItemId(env.sha, page.value.value.content, url);
    var stored := db.RecordExists(id, None);
    if stored {
      return TaskReturned(None);
    }
    task := StoreEntry(db, e, url, id, page.value.value, src, env);
  }

  /** Fetch the detail page and parse it; a failed fetch is caught, a parse error is returned. */
  method FetchDetail(url: string, src: Source, env: Env, selectors: map<string, CrawlerDetail.Group>)
    returns (page: Option<Result<CrawlerDetail.DetailPage, string>>)
    ensures page == DetailPageOf(url, src, env, selectors)
  {
    var html := FetchHtml(url, env.getHtml(url, src.headers), env.retries);
    if html.Err? {
      return None;
    }
    var parsed := WechatServices.ParseDetailPage(html.value, src.baseUrl, src.headers, selectors,
                                                 env.soup, env.svc, env.ocrCmd);
    page := Some(parsed);
  }

  /** Store a new document (a failed insert is caught) and build the returned item. */
  method StoreEntry(db: RecordStore.Database, e: Entry, url: string, id: string, page: CrawlerDetail.DetailPage,
                    src: Source, env: Env) returns (task: Task)
    requires db.Valid() && Valid(env.now) && env.now.aware
    modifies db
    ensures db.Valid()
    ensures (task, db.rows) == Finish(old(db.rows), e, url, id, page, src, env)
  {
    var publishTime := WechatServices.ParsePublishTime(DateOf(e), env.now);
    var metadata := Metadata(e, url, src, publishTime, page.attachments, env.dumps);
    var _ := db.StoreDocument(id, page.content, metadata, env.createdAt);
    if !env.svc.validUrl(url) {
      return TaskRaised(CrawlerDetail.InvalidUrl);
    }
    task := TaskReturned(Some(CrawlItem(id, TitleText(e.title), page.content, url, publishTime, src.name,
                                        if page.attachments == [] then None else Some(page.attachments), e.kind)));
  }

  // ---------------------------------------------------------------------
  // The crawl
  // ---------------------------------------------------------------------

  /** `process_entry` for a source, the environment and the selector dict. */
  function Stepper(src: Source, env: Env, selectors: map<string, CrawlerDetail.Group>)
    : (step: (seq<RecordStore.Row>, Entry) -> (Task, seq<RecordStore.Row>))
    requires Valid(env.now) && env.now.aware
    ensures forall rows, e :: step(rows, e) == EntryStep(rows, e, src, env, selectors)
  {
    (rows, e) => EntryStep(rows, e, src, env, selectors)
  }

  /**
   * `crawl_source(source_id)` over the target sources and the table
   * `rows`: the error it raises or the items it returns, and the table
   * after it.
   */
  function Crawl(sources: seq<Source>, id: string, rows: seq<RecordStore.Row>, env: Env,
                 selectors: map<string, CrawlerDetail.Group>): (r: (Result<seq<CrawlItem>, string>, seq<RecordStore.Row>))
    requires Valid(env.now) && env.now.aware
    ensures FindSource(sources, id).None? ==> r == (Err("Unknown source id: " + id), rows)
    ensures r.0.Err? && FindSource(sources, id).Some? ==> r.1 == rows
  {
    match FindSource(sources, id)
    case None => (Err("Unknown source id: " + id), rows)
    case Some(src) =>
      match WechatServices.Gather(WechatServices.Pages(src, env))
      case Err(e) => (Err(e), rows)
      case Ok(entries) =>
        var run := Run(rows, entries, Stepper(src, env, selectors));
        (Ok(Items(run.0)), run.1)
  }

  /** `crawl_source(source_id)` on the store `db`. */
  method CrawlSource(sources: seq<Source>, id: string, db: RecordStore.Database, env: Env,
                     selectors: map<string, CrawlerDetail.Group>) returns (r: Result<seq<CrawlItem>, string>)
    requires db.Valid() && Valid(env.now) && env.now.aware
    modifies db
    ensures db.Valid()
    ensures (r, db.rows) == Crawl(sources, id, old(db.rows), env, selectors)
  {
    var found := FindSource(sources, id);
    if found.None? {
      return Err("Unknown source id: " + id);
    }
    var src := found.value;
    var collected := WechatServices.CollectEntries(src, env);
    if collected.Err? {
      return Err(collected.error);
    }
    var tasks := ProcessEntries(db, collected.value, src, env, selectors);
    r := Ok(Items(tasks));
  }

  /** The coroutines of `crawl_source`, run one after the other on the store `db`. */
  method ProcessEntries(db: RecordStore.Database, entries: seq<Entry>, src: Source, env: Env,
                        selectors: map<string, CrawlerDetail.Group>) returns (tasks: seq<Task>)
    requires db.Valid() && Valid(env.now) && env.now.aware
    modifies db
    ensures db.Valid()
    ensures (tasks, db.rows) == Run(old(db.rows), entries, Stepper(src, env, selectors))
  {
    ghost var step := Stepper(src, env, selectors);
    ghost var run := Run(db.rows, entries, step);
    tasks := [];
    var i := 0;
    assert entries[0..] == entries;
    assert [] + run.0 == run.0;
    while i < |entries|
      invariant 0 <= i <= |entries| && db.Valid()
      invariant run == (tasks + Run(db.rows, entries[i..], step).0, Run(db.rows, entries[i..], step).1)
    {
      ghost var before := db.rows;
      var task := ProcessEntry(db, entries[i], src, env, selectors);
      RunAdvance(run, tasks, task, before, db.rows, entries, i, step);
      tasks := tasks + [task];
      i := i + 1;
    }
    assert tasks + [] == tasks;
  }

  // ---------------------------------------------------------------------
  // Properties of a crawl
  // ---------------------------------------------------------------------

  /** A crawl keeps the primary key of the table. */
  lemma CrawlKeepsIds(sources: seq<Source>, id: string, rows: seq<RecordStore.Row>, env: Env,
                      selectors: map<string, CrawlerDetail.Group>)
    requires Valid(env.now) && env.now.aware && RecordStore.UniqueIds(rows)
    ensures RecordStore.UniqueIds(Crawl(sources, id, rows, env, selectors).1)
  {
    var found := FindSource(sources, id);
    if found.Some? && WechatServices.Gather(WechatServices.Pages(found.value, env)).Ok? {
      var src := found.value;
      var step := Stepper(src, env, selectors);
      forall rs, e | RecordStore.UniqueIds(rs)
        ensures RecordStore.UniqueIds(step(rs, e).1)
      {
        EntryStepKeepsIds(rs, e, src, env, selectors);
      }
      RunKeepsIds(rows, WechatServices.Gather(WechatServices.Pages(found.value, env)).value, step);
    }
  }

  /**
   * An entry that cannot raise: it has no URL, its fetch fails, or its
   * page parses and its URL is an HTTP URL.
   */
  predicate Clean(e: Entry, src: Source, env: Env, selectors: map<string, CrawlerDetail.Group>)
  {
    e.url.None? || e.url.value == "" || DetailPageOf(e.url.value, src, env, selectors).None?
    || (DetailPageOf(e.url.value, src, env, selectors).value.Ok? && env.svc.validUrl(e.url.value))
  }

  /** A step over an entry that cannot raise returns. */
  lemma CleanStepReturns(rows: seq<RecordStore.Row>, e: Entry, src: Source, env: Env,
                         selectors: map<string, CrawlerDetail.Group>)
    requires Valid(env.now) && env.now.aware && Clean(e, src, env, selectors)
    ensures EntryStep(rows, e, src, env, selectors).0.TaskReturned?
  {
    StepOutcomes(rows, e, src, env, selectors);
  }

  /**
   * Over entries that cannot raise every task of a run returns, so only
   * missing, failed or known entries are left out.
   */
  lemma {:induction false} CleanRunNeverRaises(rows: seq<RecordStore.Row>, entries: seq<Entry>, src: Source, env: Env,
                                               selectors: map<string, CrawlerDetail.Group>)
    requires Valid(env.now) && env.now.aware
    requires forall i :: 0 <= i < |entries| ==> Clean(entries[i], src, env, selectors)
    ensures var tasks := Run(rows, entries, Stepper(src, env, selectors)).0;
            forall i :: 0 <= i < |tasks| ==> tasks[i].TaskReturned?
    decreases |entries|
  {
    var step := Stepper(src, env, selectors);
    if entries != [] {
      var first := step(rows, entries[0]);
      CleanStepReturns(rows, entries[0], src, env, selectors);
      assert forall i :: 0 <= i < |entries[1..]| ==> entries[1..][i] == entries[i + 1];
      CleanRunNeverRaises(first.1, entries[1..], src, env, selectors);
      var rest := Run(first.1, entries[1..], step);
      var tasks := Run(rows, entries, step).0;
      assert first == EntryStep(rows, entries[0], src, env, selectors);
      assert first.0.TaskReturned?;
      assert tasks == [first.0] + rest.0;
      assert rest == Run(first.1, entries[1..], Stepper(src, env, selectors));
      assert forall i :: 0 <= i < |rest.0| ==> rest.0[i].TaskReturned?;
      assert forall i :: 1 <= i < |tasks| ==> tasks[i] == rest.0[i - 1];
    }
  }

  /**
   * With no page at all reachable, a crawl of a known source returns no
   * items and leaves the table as it was: failed list fetches are skipped
   * rather than raised.
   */
  lemma OfflineCrawlIsEmpty(sources: seq<Source>, id: string, rows: seq<RecordStore.Row>, env: Env,
                            selectors: map<string, CrawlerDetail.Group>)
    requires Valid(env.now) && env.now.aware && FindSource(sources, id).Some?
    requires forall url, h, k :: env.getHtml(url, h)(k).None?
    ensures Crawl(sources, id, rows, env, selectors) == (Ok([]), rows)
  {
    var src := FindSource(sources, id).value;
    var pages := WechatServices.Pages(src, env);
    forall i | 0 <= i < |pages|
      ensures pages[i] == PageSkipped
    {
    }
    WechatServices.GatherListed(pages);
    SkippedListNothing(pages);
  }

  /** Pages that were all skipped list nothing. */
  lemma {:induction false} SkippedListNothing(pages: seq<PageOutcome>)
    requires forall i :: 0 <= i < |pages| ==> pages[i] == PageSkipped
    ensures Listed(pages) == []
  {
    if pages != [] {
      SkippedListNothing(pages[..|pages| - 1]);
    }
  }
}

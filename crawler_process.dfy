/**
 * `process_entry` and the rest of `crawl_source` (crawler/services.py):
 * each listed entry is checked against the shared record store, its
 * detail page fetched and parsed (or replaced by a placeholder), the
 * document stored and the item returned; the results are gathered in
 * entry order. Entries are processed one after the other; the
 * concurrency of the source is not modelled.
 */
module CrawlerProcess {
  import opened Wrappers
  import opened Text
  import opened Json
  import opened Dates
  import opened CrawlerConfig
  import opened CrawlerFetch
  import opened CrawlerCrawl
  import CrawlerDates
  import CrawlerDetail
  import RecordStore

  // ---------------------------------------------------------------------
  // process_entry
  // ---------------------------------------------------------------------

  /** The content stored for an entry whose detail page could not be fetched. */
  const Unreachable: string := "详情页不可访问"

  /** `CrawlItem`: the returned record; `category` is the entry's `type`. */
  datatype CrawlItem = CrawlItem(
    id: string,
    title: string,
    content: string,
    url: string,
    publishTime: DateTime,
    source: string,
    attachments: Option<seq<CrawlerDetail.Attachment>>,
    category: Json)

  /** What one `process_entry` task ends with: an exception, or its return value. */
  datatype Task = TaskRaised(error: string) | TaskReturned(item: Option<CrawlItem>)

  /**
   * `entry.get("title") or ""` as the left operand of `+ url`: a falsy
   * title reads "", a string is itself, and any other value raises
   * TypeError.
   */
  function TitlePrefix(title: Json): (r: Result<string, string>)
    ensures r.Ok? <==> !Truthy(title) || title.JStr?
    ensures r.Ok? && title.JStr? ==> r.value == title.s
    ensures r.Ok? && !title.JStr? ==> r.value == ""
  {
    if !Truthy(title) then Ok("")
    else if title.JStr? then Ok(title.s)
    else Err("TypeError: unsupported operand type(s) for +")
  }

  /**
   * The `title` column the metadata gives SQLite: a string as is, an
   * integer or boolean as its text (the column has TEXT affinity), and
   * None for null, which violates NOT NULL. An array or an object cannot
   * be bound and fails the insert likewise.
   */
  function TitleColumn(title: Json): (r: Option<string>)
    ensures r.None? <==> title.JNull? || title.JArr? || title.JObj?
    ensures title.JStr? ==> r == Some(title.s)
  {
    match title
    case JStr(s) => Some(s)
    case JNum(n) => Some(IntToString(n))
    case JBool(b) => Some(if b then "1" else "0")
    case _ => None
  }

  /**
   * The text `parse_publish_time` reads from an entry's date: nothing for a
   * falsy value, else `str(date)`. A non-empty array or object is read as
   * nothing: its text starts with a bracket, which no rule accepts.
   */
  function DateText(date: Json): (r: Option<string>)
    ensures !Truthy(date) ==> r.None?
    ensures date.JStr? ==> r == (if date.s == "" then None else Some(date.s))
    ensures date.JNum? && date.n != 0 ==> r == Some(IntToString(date.n))
  {
    match date
    case JStr(s) => if s == "" then None else Some(s)
    case JNum(n) => if n == 0 then None else Some(IntToString(n))
    case JBool(b) => if b then Some("True") else None
    case _ => None
  }

  /** The publish time of an entry. */
  function PublishTime(e: Entry, env: Env): (r: DateTime)
    requires Valid(env.now) && env.now.aware
    ensures Valid(r) && r.aware
  {
    CrawlerDates.ParsePublishTime(DateText(e.date), env.now)
  }

  /** What the detail step gives: the fetch failed, or the page was parsed (or raised). */
  datatype Detail = DetailUnreachable | DetailParsed(page: Result<CrawlerDetail.DetailPage, string>)

  /** Fetch the detail page with the source's headers and parse it against `table`. */
  function DetailOf(url: string, base: string, headers: map<string, string>, env: Env,
                    table: CrawlerDetail.SelectorTable): (r: Detail)
    ensures r.DetailUnreachable? <==> Outcome(env.getHtml(url, headers), env.retries).None?
    ensures r.DetailParsed? && CrawlerDetail.Resolve(table, base).Err? ==> r.page == Err(CrawlerDetail.Resolve(table, base).error)
  {
    match Outcome(env.getHtml(url, headers), env.retries)
    case None => DetailUnreachable
    case Some(html) =>
      match CrawlerDetail.Resolve(table, base)
      case Err(e) => DetailParsed(Err(e))
      case Ok(cfg) => DetailParsed(CrawlerDetail.PageOf(env.soup(html), cfg, base, headers, env.svc, env.ocrCmd))
  }

  /** The metadata `process_entry` stores with a document. */
  function EntryMetadata(e: Entry, url: string, src: Source, atts: Option<seq<CrawlerDetail.Attachment>>,
                         env: Env): (m: RecordStore.Metadata)
    requires Valid(env.now) && env.now.aware
    ensures m.Keys == {"url", "source_id", "source_name", "title", "publish_time", "attachments"}
    ensures m["url"] == Some(url) && m["title"] == TitleColumn(e.title)
    ensures m["attachments"].Some? <==> atts.Some? && atts.value != []
  {
    var stored := if atts.Some? && atts.value != [] then Some(env.dumps(atts.value)) else None;
    MetadataOf(url, src, TitleColumn(e.title), IsoFormat(PublishTime(e, env)), stored)
  }

  /** The metadata map with its six keys. */
  function MetadataOf(url: string, src: Source, title: Option<string>, publish: string, stored: Option<string>): (m: RecordStore.Metadata)
    ensures m.Keys == {"url", "source_id", "source_name", "title", "publish_time", "attachments"}
    ensures m["url"] == Some(url) && m["title"] == title && m["attachments"] == stored
  {
    map["url" := Some(url),
        "source_id" := Some(src.id),
        "source_name" := Some(src.name),
        "title" := title,
        "publish_time" := Some(publish),
        "attachments" := stored]
  }

  /** The table after `store_document`: the upserted row, or unchanged when the insert fails (the error is caught). */
  function Stored(rows: seq<RecordStore.Row>, id: string, content: string, m: RecordStore.Metadata,
                  now: string): seq<RecordStore.Row>
  {
    match RecordStore.NewRow(id, content, m, now)
    case Err(_) => rows
    case Ok(row) => RecordStore.Upsert(rows, row)
  }

  /** Storing a document with content and a non-empty title leaves a complete row under its id. */
  lemma StoredComplete(rows: seq<RecordStore.Row>, id: string, content: string, m: RecordStore.Metadata,
                       now: string, title: string, url: string)
    requires RecordStore.UniqueIds(rows) && content != "" && title != ""
    requires "title" in m && m["title"] == Some(title) && "url" in m && m["url"] == Some(url)
    ensures RecordStore.ExistsIn(Stored(rows, id, content, m, now), id, None)
  {
    RecordStore.NewRowKeepsValues(id, content, m, now, title, url);
    var row := RecordStore.NewRow(id, content, m, now).value;
    RecordStore.UpsertReplaces(rows, row);
    var rows1 := RecordStore.Upsert(rows, row);
    assert RecordStore.Matches(rows1[|rows1| - 1], id, None) && RecordStore.Complete(rows1[|rows1| - 1]);
  }

  /**
   * One `process_entry(entry)` against the table `rows`, with the detail
   * fetches under `headers`: the coroutine's outcome and the table after it.
   */
  function EntryStep(rows: seq<RecordStore.Row>, e: Entry, src: Source, headers: map<string, string>, env: Env,
                     table: CrawlerDetail.SelectorTable): (r: (Task, seq<RecordStore.Row>))
    requires Valid(env.now) && env.now.aware
  {
    if e.url.None? || e.url.value == "" then (TaskReturned(None), rows)
    else
      var url := e.url.value;
      match TitlePrefix(e.title)
      case Err(msg) => (TaskRaised(msg), rows)
      case Ok(prefix) =>
        var id := EntryId(env.sha, prefix, url);
        if RecordStore.ExistsIn(rows, id, None) then (TaskReturned(None), rows)
        else Finish(rows, e, url, prefix, id, src, DetailOf(url, src.baseUrl, headers, env, table), env)
  }

  /**
   * The rest of `process_entry` once the detail step is done: a parse
   * error raises; otherwise the content (or the placeholder) is stored,
   * and the item is returned, or pydantic's rejection of a URL that is not
   * an HTTP URL is raised after the store.
   */
  function Finish(rows: seq<RecordStore.Row>, e: Entry, url: string, prefix: string, id: string, src: Source,
                  detail: Detail, env: Env): (r: (Task, seq<RecordStore.Row>))
    requires Valid(env.now) && env.now.aware
  {
    if detail.DetailParsed? && detail.page.Err? then (TaskRaised(detail.page.error), rows)
    else
      var content := if detail.DetailUnreachable? then Unreachable else detail.page.value.content;
      var atts := if detail.DetailUnreachable? then None else Some(detail.page.value.attachments);
      var m := EntryMetadata(e, url, src, atts, env);
      var rows1 := Stored(rows, id, content, m, env.createdAt);
      if !env.svc.validUrl(url) then (TaskRaised(CrawlerDetail.InvalidUrl), rows1)
      else
        (TaskReturned(Some(CrawlItem(id, prefix, content, url, PublishTime(e, env), src.name,
                                     if atts == Some([]) then None else atts, e.kind))),
         rows1)
  }

  /** Every step keeps the primary key of the table. */
  lemma EntryStepKeepsIds(rows: seq<RecordStore.Row>, e: Entry, src: Source, headers: map<string, string>, env: Env,
                          table: CrawlerDetail.SelectorTable)
    requires Valid(env.now) && env.now.aware && RecordStore.UniqueIds(rows)
    ensures RecordStore.UniqueIds(EntryStep(rows, e, src, headers, env, table).1)
  {
    if e.url.Some? && e.url.value != "" && TitlePrefix(e.title).Ok? {
      var url, prefix := e.url.value, TitlePrefix(e.title).value;
      var id := EntryId(env.sha, prefix, url);
      if !RecordStore.ExistsIn(rows, id, None) {
        var detail := DetailOf(url, src.baseUrl, headers, env, table);
        assert EntryStep(rows, e, src, headers, env, table) == Finish(rows, e, url, prefix, id, src, detail, env);
        FinishKeepsIds(rows, e, url, prefix, id, src, detail, env);
      }
    }
  }

  /** Finishing an entry keeps the primary key of the table. */
  lemma FinishKeepsIds(rows: seq<RecordStore.Row>, e: Entry, url: string, prefix: string, id: string, src: Source,
                       detail: Detail, env: Env)
    requires Valid(env.now) && env.now.aware && RecordStore.UniqueIds(rows)
    ensures RecordStore.UniqueIds(Finish(rows, e, url, prefix, id, src, detail, env).1)
  {
    if !(detail.DetailParsed? && detail.page.Err?) {
      var content := if detail.DetailUnreachable? then Unreachable else detail.page.value.content;
      var atts := if detail.DetailUnreachable? then None else Some(detail.page.value.attachments);
      StoredKeepsIds(rows, id, content, EntryMetadata(e, url, src, atts, env), env.createdAt);
    }
  }

  /** Storing a document keeps the primary key of the table. */
  lemma StoredKeepsIds(rows: seq<RecordStore.Row>, id: string, content: string, m: RecordStore.Metadata, now: string)
    requires RecordStore.UniqueIds(rows)
    ensures RecordStore.UniqueIds(Stored(rows, id, content, m, now))
  {
    if RecordStore.NewRow(id, content, m, now).Ok? {
      RecordStore.UpsertReplaces(rows, RecordStore.NewRow(id, content, m, now).value);
    }
  }

  /**
   * `process_entry(entry)` on the store `db`: skip an entry without a URL
   * or already stored, fetch and parse its detail page (the placeholder
   * when it cannot be fetched), store the document and return the item.
   */
  method ProcessEntry(db: RecordStore.Database, e: Entry, src: Source, headers: map<string, string>, env: Env,
                      table: CrawlerDetail.SelectorTable) returns (task: Task)
    requires db.Valid() && Valid(env.now) && env.now.aware
    modifies db
    ensures db.Valid()
    ensures (task, db.rows) == EntryStep(old(db.rows), e, src, headers, env, table)
  {
    if e.url.None? || e.url.value == "" {
      return TaskReturned(None);
    }
    var url := e.url.value;
    var prefix := TitlePrefix(e.title);
    if prefix.Err? {
      return TaskRaised(prefix.error);
    }
    var id := EntryId(env.sha, prefix.value, url);
    var stored := db.RecordExists(id, None);
    if stored {
      return TaskReturned(None);
    }
    var detail := FetchDetail(url, src.baseUrl, headers, env, table);
    task := StoreEntry(db, e, url, prefix.value, id, src, detail, env);
  }

  /** Fetch the detail page; a fetch failure is caught, a parse error is returned. */
  method FetchDetail(url: string, base: string, headers: map<string, string>, env: Env,
                     table: CrawlerDetail.SelectorTable) returns (d: Detail)
    ensures d == DetailOf(url, base, headers, env, table)
  {
    var html := FetchHtml(url, env.getHtml(url, headers), env.retries);
    if html.Err? {
      return DetailUnreachable;
    }
    var page := CrawlerDetail.ParseDetailPage(html.value, base, headers, table, env.soup, env.svc, env.ocrCmd);
    d := DetailParsed(page);
  }

  /** Store the document the detail step gave and build the returned item. */
  method StoreEntry(db: RecordStore.Database, e: Entry, url: string, prefix: string, id: string, src: Source,
                    detail: Detail, env: Env) returns (task: Task)
    requires db.Valid() && Valid(env.now) && env.now.aware
    modifies db
    ensures db.Valid()
    ensures (task, db.rows) == Finish(old(db.rows), e, url, prefix, id, src, detail, env)
  {
    if detail.DetailParsed? && detail.page.Err? {
      return TaskRaised(detail.page.error);
    }
    var content := if detail.DetailUnreachable? then Unreachable else detail.page.value.content;
    var atts := if detail.DetailUnreachable? then None else Some(detail.page.value.attachments);
    var publishTime := CrawlerDates.ParsePublishTime(DateText(e.date), env.now);
    var metadata := EntryMetadata(e, url, src, atts, env);
    var _ := db.StoreDocument(id, content, metadata, env.createdAt);
    if !env.svc.validUrl(url) {
      return TaskRaised(CrawlerDetail.InvalidUrl);
    }
    task := TaskReturned(Some(CrawlItem(id, prefix, content, url, publishTime, src.name,
                                        if atts == Some([]) then None else atts, e.kind)));
  }

  // ---------------------------------------------------------------------
  // The crawl: entries processed in order, results gathered
  // ---------------------------------------------------------------------

  /** The outcomes of `entries` processed one after the other by `step` from `rows`, and the final table. */
  function Run(rows: seq<RecordStore.Row>, entries: seq<Entry>,
               step: (seq<RecordStore.Row>, Entry) -> (Task, seq<RecordStore.Row>)): (r: (seq<Task>, seq<RecordStore.Row>))
    ensures |r.0| == |entries|
    decreases |entries|
  {
    if entries == [] then ([], rows)
    else
      var first := step(rows, entries[0]);
      var rest := Run(first.1, entries[1..], step);
      ([first.0] + rest.0, rest.1)
  }

  /** `process_entry` for a source, its fetch headers, the environment and the selector table. */
  function Stepper(src: Source, headers: map<string, string>, env: Env, table: CrawlerDetail.SelectorTable)
    : (step: (seq<RecordStore.Row>, Entry) -> (Task, seq<RecordStore.Row>))
    requires Valid(env.now) && env.now.aware
    ensures forall rows, e :: step(rows, e) == EntryStep(rows, e, src, headers, env, table)
  {
    (rows, e) => EntryStep(rows, e, src, headers, env, table)
  }

  /** The gather loop: exceptions and None results are dropped, items kept in entry order. */
  function Items(tasks: seq<Task>): (r: seq<CrawlItem>)
    ensures |r| <= |tasks|
  {
    if tasks == [] then []
    else (if tasks[0].TaskReturned? && tasks[0].item.Some? then [tasks[0].item.value] else []) + Items(tasks[1..])
  }

  /** An item is gathered exactly when some task returned it. */
  lemma {:induction false} ItemsExactly(tasks: seq<Task>, x: CrawlItem)
    ensures x in Items(tasks) <==> exists i :: 0 <= i < |tasks| && tasks[i] == TaskReturned(Some(x))
  {
    if tasks != [] {
      ItemsExactly(tasks[1..], x);
      if x in Items(tasks[1..]) {
        var i :| 0 <= i < |tasks[1..]| && tasks[1..][i] == TaskReturned(Some(x));
        assert tasks[i + 1] == TaskReturned(Some(x));
      }
      if exists i :: 0 <= i < |tasks| && tasks[i] == TaskReturned(Some(x)) {
        var i :| 0 <= i < |tasks| && tasks[i] == TaskReturned(Some(x));
        if i > 0 {
          assert tasks[1..][i - 1] == TaskReturned(Some(x));
        }
      }
    }
  }

  /** Gathering a concatenation gathers each part. */
  lemma {:induction false} ItemsAppend(a: seq<Task>, b: seq<Task>)
    ensures Items(a + b) == Items(a) + Items(b)
  {
    if a == [] {
      assert a + b == b;
    } else {
      var head := if a[0].TaskReturned? && a[0].item.Some? then [a[0].item.value] else [];
      ItemsAppend(a[1..], b);
      assert (a + b)[0] == a[0];
      assert (a + b)[1..] == a[1..] + b;
      assert Items(a + b) == head + Items(a[1..] + b);
      assert Items(a) == head + Items(a[1..]);
    }
  }

  /** A run of steps that keep the primary key keeps it. */
  lemma {:induction false} RunKeepsIds(rows: seq<RecordStore.Row>, entries: seq<Entry>,
                                        step: (seq<RecordStore.Row>, Entry) -> (Task, seq<RecordStore.Row>))
    requires RecordStore.UniqueIds(rows)
    requires forall rs, e :: RecordStore.UniqueIds(rs) ==> RecordStore.UniqueIds(step(rs, e).1)
    ensures RecordStore.UniqueIds(Run(rows, entries, step).1)
    decreases |entries|
  {
    if entries != [] {
      RunKeepsIds(step(rows, entries[0]).1, entries[1..], step);
    }
  }

  /** One step of a run over the entries from `i` on. */
  lemma RunStep(rows: seq<RecordStore.Row>, entries: seq<Entry>, i: nat,
                step: (seq<RecordStore.Row>, Entry) -> (Task, seq<RecordStore.Row>))
    requires i < |entries|
    ensures var first := step(rows, entries[i]);
            var rest := Run(first.1, entries[i + 1..], step);
            Run(rows, entries[i..], step) == ([first.0] + rest.0, rest.1)
  {
    assert entries[i..][0] == entries[i] && entries[i..][1..] == entries[i + 1..];
  }

  /** One more step of the run moves its outcome from the rest of the run to the outcomes so far. */
  lemma RunAdvance(run: (seq<Task>, seq<RecordStore.Row>), tasks: seq<Task>, task: Task,
                   rows: seq<RecordStore.Row>, rows': seq<RecordStore.Row>, entries: seq<Entry>, i: nat,
                   step: (seq<RecordStore.Row>, Entry) -> (Task, seq<RecordStore.Row>))
    requires i < |entries| && step(rows, entries[i]) == (task, rows')
    requires run == (tasks + Run(rows, entries[i..], step).0, Run(rows, entries[i..], step).1)
    ensures run == ((tasks + [task]) + Run(rows', entries[i + 1..], step).0, Run(rows', entries[i + 1..], step).1)
  {
    RunStep(rows, entries, i, step);
    assert tasks + ([task] + Run(rows', entries[i + 1..], step).0)
        == (tasks + [task]) + Run(rows', entries[i + 1..], step).0;
  }

  /**
   * `crawl_source(source_id)` over the configured `sources` and the table
   * `rows`: the error it raises or the items it returns, and the table after it.
   */
  function Crawl(sources: seq<Source>, id: string, rows: seq<RecordStore.Row>, env: Env,
                 table: CrawlerDetail.SelectorTable): (r: (Result<seq<CrawlItem>, string>, seq<RecordStore.Row>))
    requires forall s :: s in sources ==> WellFormed(s)
    requires Valid(env.now) && env.now.aware
    ensures FindSource(sources, id).None? ==> r == (Err("Unknown source id: " + id), rows)
    ensures r.0.Err? && FindSource(sources, id).Some? ==> r.1 == rows
  {
    match FindSource(sources, id)
    case None => (Err("Unknown source id: " + id), rows)
    case Some(src) =>
      match Collect(Pages(src, env))
      case Err(e) => (Err(e), rows)
      case Ok(entries) =>
        var run := Run(rows, entries, Stepper(src, CrawlHeaders(src), env, table));
        (Ok(Items(run.0)), run.1)
  }

  /**
   * `crawl_source(source_id)` on the store `db`: find the source, collect
   * its entries, process them in order and gather the items.
   */
  method CrawlSource(sources: seq<Source>, id: string, db: RecordStore.Database, env: Env,
                     table: CrawlerDetail.SelectorTable) returns (r: Result<seq<CrawlItem>, string>)
    requires forall s :: s in sources ==> WellFormed(s)
    requires db.Valid() && Valid(env.now) && env.now.aware
    modifies db
    ensures db.Valid()
    ensures (r, db.rows) == Crawl(sources, id, old(db.rows), env, table)
  {
    var found := FindSource(sources, id);
    if found.None? {
      return Err("Unknown source id: " + id);
    }
    var src := found.value;
    var headers := new Headers(src.headers);
    var collected := CollectEntries(src, headers, env);
    if collected.Err? {
      return Err(collected.error);
    }
    var tasks := ProcessEntries(db, collected.value, src, headers.entries, env, table);
    r := Ok(Items(tasks));
  }

  /** The coroutines of `crawl_source`, run one after the other on the store `db`. */
  method ProcessEntries(db: RecordStore.Database, entries: seq<Entry>, src: Source, headers: map<string, string>,
                        env: Env, table: CrawlerDetail.SelectorTable) returns (tasks: seq<Task>)
    requires db.Valid() && Valid(env.now) && env.now.aware
    modifies db
    ensures db.Valid()
    ensures (tasks, db.rows) == Run(old(db.rows), entries, Stepper(src, headers, env, table))
  {
    ghost var step := Stepper(src, headers, env, table);
    ghost var run := Run(db.rows, entries, step);
    tasks := [];
    var i := 0;
    assert entries[0..] == entries;
    assert [] + run.0 == run.0;
    while i < |entries|
      invariant 0 <= i <= |entries| && db.Valid()
      invariant run == (tasks + Run(db.rows, entries[i..], step).0, Run(db.rows, entries[i..], step).1)
    {
      ghost var before := db.rows;
      var task := ProcessEntry(db, entries[i], src, headers, env, table);
      RunAdvance(run, tasks, task, before, db.rows, entries, i, step);
      tasks := tasks + [task];
      i := i + 1;
    }
    assert tasks + [] == tasks;
  }

  // ---------------------------------------------------------------------
  // Properties of a crawl
  // ---------------------------------------------------------------------

  /** A crawl keeps the primary key of the table. */
  lemma CrawlKeepsIds(sources: seq<Source>, id: string, rows: seq<RecordStore.Row>, env: Env,
                      table: CrawlerDetail.SelectorTable)
    requires forall s :: s in sources ==> WellFormed(s)
    requires Valid(env.now) && env.now.aware && RecordStore.UniqueIds(rows)
    ensures RecordStore.UniqueIds(Crawl(sources, id, rows, env, table).1)
  {
    var found := FindSource(sources, id);
    if found.Some? && Collect(Pages(found.value, env)).Ok? {
      var src := found.value;
      var step := Stepper(src, CrawlHeaders(src), env, table);
      forall rs, e | RecordStore.UniqueIds(rs)
        ensures RecordStore.UniqueIds(step(rs, e).1)
      {
        EntryStepKeepsIds(rs, e, src, CrawlHeaders(src), env, table);
      }
      RunKeepsIds(rows, Collect(Pages(src, env)).value, step);
    }
  }

  /**
   * Once an entry's detail content (or the placeholder) is stored with a
   * non-empty title, the entry is skipped on every later visit, whatever
   * the source configuration, the network and the selector table then are:
   * `record_exists` finds the stored row complete.
   */
  lemma SecondVisitSkips(rows: seq<RecordStore.Row>, e: Entry, src: Source, headers: map<string, string>, env: Env,
                         table: CrawlerDetail.SelectorTable, src2: Source, headers2: map<string, string>, env2: Env,
                         table2: CrawlerDetail.SelectorTable)
    requires Valid(env.now) && env.now.aware && Valid(env2.now) && env2.now.aware
    requires RecordStore.UniqueIds(rows) && env2.sha == env.sha
    requires var r := EntryStep(rows, e, src, headers, env, table);
             r.0.TaskReturned? && r.0.item.Some? && r.0.item.value.content != ""
    requires TitleColumn(e.title).Some? && TitleColumn(e.title).value != ""
    ensures var rows1 := EntryStep(rows, e, src, headers, env, table).1;
            EntryStep(rows1, e, src2, headers2, env2, table2) == (TaskReturned(None), rows1)
  {
    StoredAfterStep(rows, e, src, headers, env, table);
    StoredSkipped(EntryStep(rows, e, src, headers, env, table).1, e, src2, headers2, env2, table2);
  }

  /** A stored entry leaves a complete row under its document id. */
  lemma StoredAfterStep(rows: seq<RecordStore.Row>, e: Entry, src: Source, headers: map<string, string>, env: Env,
                        table: CrawlerDetail.SelectorTable)
    requires Valid(env.now) && env.now.aware && RecordStore.UniqueIds(rows)
    requires var r := EntryStep(rows, e, src, headers, env, table);
             r.0.TaskReturned? && r.0.item.Some? && r.0.item.value.content != ""
    requires TitleColumn(e.title).Some? && TitleColumn(e.title).value != ""
    ensures e.url.Some? && TitlePrefix(e.title).Ok?
    ensures RecordStore.ExistsIn(EntryStep(rows, e, src, headers, env, table).1,
                                 EntryId(env.sha, TitlePrefix(e.title).value, e.url.value), None)
  {
    ReturnedStepFinished(rows, e, src, headers, env, table);
    var url := e.url.value;
    var prefix := TitlePrefix(e.title).value;
    FinishedStored(rows, e, url, prefix, EntryId(env.sha, prefix, url), src, DetailOf(url, src.baseUrl, headers, env, table), env);
  }

  /** A step that returns an item went through `Finish` for a new document at its URL. */
  lemma ReturnedStepFinished(rows: seq<RecordStore.Row>, e: Entry, src: Source, headers: map<string, string>, env: Env,
                             table: CrawlerDetail.SelectorTable)
    requires Valid(env.now) && env.now.aware
    requires var r := EntryStep(rows, e, src, headers, env, table);
             r.0.TaskReturned? && r.0.item.Some?
    ensures e.url.Some? && e.url.value != "" && TitlePrefix(e.title).Ok?
    ensures var prefix := TitlePrefix(e.title).value;
            EntryStep(rows, e, src, headers, env, table)
            == Finish(rows, e, e.url.value, prefix, EntryId(env.sha, prefix, e.url.value), src,
                      DetailOf(e.url.value, src.baseUrl, headers, env, table), env)
  {
  }

  /** A finished entry whose item has content leaves a complete row under its id. */
  lemma FinishedStored(rows: seq<RecordStore.Row>, e: Entry, url: string, prefix: string, id: string, src: Source,
                       detail: Detail, env: Env)
    requires Valid(env.now) && env.now.aware && RecordStore.UniqueIds(rows)
    requires var r := Finish(rows, e, url, prefix, id, src, detail, env);
             r.0.TaskReturned? && r.0.item.Some? && r.0.item.value.content != ""
    requires TitleColumn(e.title).Some? && TitleColumn(e.title).value != ""
    ensures RecordStore.ExistsIn(Finish(rows, e, url, prefix, id, src, detail, env).1, id, None)
  {
    var content := if detail.DetailUnreachable? then Unreachable else detail.page.value.content;
    var atts := if detail.DetailUnreachable? then None else Some(detail.page.value.attachments);
    var m := EntryMetadata(e, url, src, atts, env);
    StoredComplete(rows, id, content, m, env.createdAt, TitleColumn(e.title).value, url);
  }

  /** An entry whose document id is already stored complete is skipped. */
  lemma StoredSkipped(rows: seq<RecordStore.Row>, e: Entry, src: Source, headers: map<string, string>, env: Env,
                      table: CrawlerDetail.SelectorTable)
    requires Valid(env.now) && env.now.aware
    requires e.url.Some? && TitlePrefix(e.title).Ok?
    requires RecordStore.ExistsIn(rows, EntryId(env.sha, TitlePrefix(e.title).value, e.url.value), None)
    ensures EntryStep(rows, e, src, headers, env, table) == (TaskReturned(None), rows)
  {
  }

  /**
   * A new entry whose detail page cannot be fetched is returned with the
   * placeholder content and no attachments, or raises when its URL is not
   * an HTTP URL; either way, with a non-empty title the placeholder row is
   * stored as a complete record, so the entry is never fetched again.
   */
  lemma UnreachableStored(rows: seq<RecordStore.Row>, e: Entry, src: Source, headers: map<string, string>, env: Env,
                          table: CrawlerDetail.SelectorTable)
    requires Valid(env.now) && env.now.aware && RecordStore.UniqueIds(rows)
    requires e.url.Some? && e.url.value != "" && TitlePrefix(e.title).Ok?
    requires !RecordStore.ExistsIn(rows, EntryId(env.sha, TitlePrefix(e.title).value, e.url.value), None)
    requires Outcome(env.getHtml(e.url.value, headers), env.retries).None?
    ensures var r := EntryStep(rows, e, src, headers, env, table);
            env.svc.validUrl(e.url.value) ==> r.0.TaskReturned? && r.0.item.Some? && r.0.item.value.content == Unreachable
                                              && r.0.item.value.attachments.None?
    ensures !env.svc.validUrl(e.url.value) ==> EntryStep(rows, e, src, headers, env, table).0 == TaskRaised(CrawlerDetail.InvalidUrl)
    ensures TitleColumn(e.title).Some? && TitleColumn(e.title).value != "" ==>
              RecordStore.ExistsIn(EntryStep(rows, e, src, headers, env, table).1,
                                   EntryId(env.sha, TitlePrefix(e.title).value, e.url.value), None)
  {
    var url := e.url.value;
    var prefix := TitlePrefix(e.title).value;
    var id := EntryId(env.sha, prefix, url);
    assert DetailOf(url, src.baseUrl, headers, env, table) == DetailUnreachable;
    var m := EntryMetadata(e, url, src, None, env);
    if TitleColumn(e.title).Some? && TitleColumn(e.title).value != "" {
      RecordStore.NewRowKeepsValues(id, Unreachable, m, env.createdAt, TitleColumn(e.title).value, url);
      var row := RecordStore.NewRow(id, Unreachable, m, env.createdAt).value;
      RecordStore.UpsertReplaces(rows, row);
      var rows1 := RecordStore.Upsert(rows, row);
      assert RecordStore.Matches(rows1[|rows1| - 1], id, None) && RecordStore.Complete(rows1[|rows1| - 1]);
    }
  }

  /**
   * Resolving against the configured selector dict, a new entry whose
   * detail page was fetched raises in `parse_detail_page`: the coroutine is
   * dropped by the gather loop and nothing is stored.
   */
  lemma AsWrittenDropsFetchedEntries(rows: seq<RecordStore.Row>, e: Entry, src: Source, headers: map<string, string>,
                                     env: Env, selectors: map<string, CrawlerDetail.Group>)
    requires Valid(env.now) && env.now.aware
    requires e.url.Some? && e.url.value != "" && TitlePrefix(e.title).Ok?
    requires !RecordStore.ExistsIn(rows, EntryId(env.sha, TitlePrefix(e.title).value, e.url.value), None)
    requires Outcome(env.getHtml(e.url.value, headers), env.retries).Some?
    ensures var r := EntryStep(rows, e, src, headers, env, CrawlerDetail.ConfiguredDict(selectors));
            r.0.TaskRaised? && r.1 == rows
  {
    assert CrawlerDetail.Resolve(CrawlerDetail.ConfiguredDict(selectors), src.baseUrl).Err?;
  }

  /**
   * Resolving against a non-empty list of per-site configurations, a new
   * entry whose detail page was fetched is returned with the parsed
   * content, and with its attachments when there are any.
   */
  lemma CorrectedStoresPages(rows: seq<RecordStore.Row>, e: Entry, src: Source, headers: map<string, string>,
                             env: Env, cfgs: seq<CrawlerDetail.DetailConfig>)
    requires Valid(env.now) && env.now.aware && cfgs != []
    requires e.url.Some? && e.url.value != "" && TitlePrefix(e.title).Ok?
    requires !RecordStore.ExistsIn(rows, EntryId(env.sha, TitlePrefix(e.title).value, e.url.value), None)
    requires Outcome(env.getHtml(e.url.value, headers), env.retries).Some?
    ensures var html := Outcome(env.getHtml(e.url.value, headers), env.retries).value;
            var page := CrawlerDetail.PageOf(env.soup(html), CrawlerDetail.ResolveSelectors(cfgs, src.baseUrl).value,
                                             src.baseUrl, headers, env.svc, env.ocrCmd);
            var r := EntryStep(rows, e, src, headers, env, CrawlerDetail.PerSite(cfgs));
            (page.Err? ==> r == (TaskRaised(page.error), rows))
            && (page.Ok? && env.svc.validUrl(e.url.value) ==>
                  r.0.TaskReturned? && r.0.item.Some? && r.0.item.value.content == page.value.content
                  && r.0.item.value.attachments == (if page.value.attachments == [] then None else Some(page.value.attachments)))
  {
    var url, prefix := e.url.value, TitlePrefix(e.title).value;
    var id := EntryId(env.sha, prefix, url);
    var table := CrawlerDetail.PerSite(cfgs);
    var html := Outcome(env.getHtml(url, headers), env.retries).value;
    var cfg := CrawlerDetail.ResolveSelectors(cfgs, src.baseUrl).value;
    assert CrawlerDetail.Resolve(table, src.baseUrl) == Ok(cfg);
    var detail := DetailOf(url, src.baseUrl, headers, env, table);
    assert detail == DetailParsed(CrawlerDetail.PageOf(env.soup(html), cfg, src.baseUrl, headers, env.svc, env.ocrCmd));
    assert EntryStep(rows, e, src, headers, env, table) == Finish(rows, e, url, prefix, id, src, detail, env);
    if detail.page.Ok? {
      FinishReturnsPage(rows, e, url, prefix, id, src, detail, env);
    }
  }

  /**
   * A parsed page is returned with its content, and with its attachments
   * when there are any, unless its URL fails validation.
   */
  lemma FinishReturnsPage(rows: seq<RecordStore.Row>, e: Entry, url: string, prefix: string, id: string, src: Source,
                          detail: Detail, env: Env)
    requires Valid(env.now) && env.now.aware && detail.DetailParsed? && detail.page.Ok?
    ensures var page := detail.page.value;
            var r := Finish(rows, e, url, prefix, id, src, detail, env);
            (env.svc.validUrl(url) ==>
               r.0.TaskReturned? && r.0.item.Some? && r.0.item.value.content == page.content
               && r.0.item.value.attachments == (if page.attachments == [] then None else Some(page.attachments)))
            && (!env.svc.validUrl(url) ==> r.0 == TaskRaised(CrawlerDetail.InvalidUrl))
  {
  }

  /** Under the configured selector dict, every item a step returns is a placeholder. */
  lemma AsWrittenStepPlaceholder(rows: seq<RecordStore.Row>, e: Entry, src: Source, headers: map<string, string>,
                                 env: Env, selectors: map<string, CrawlerDetail.Group>)
    requires Valid(env.now) && env.now.aware
    ensures var r := EntryStep(rows, e, src, headers, env, CrawlerDetail.ConfiguredDict(selectors));
            r.0.TaskReturned? && r.0.item.Some? ==>
              r.0.item.value.content == Unreachable && r.0.item.value.attachments.None?
  {
    var table := CrawlerDetail.ConfiguredDict(selectors);
    var r := EntryStep(rows, e, src, headers, env, table);
    if r.0.TaskReturned? && r.0.item.Some? {
      ReturnedStepFinished(rows, e, src, headers, env, table);
      assert CrawlerDetail.Resolve(table, src.baseUrl).Err?;
    }
  }

  /** Under the configured selector dict, every gathered item of a run is a placeholder. */
  lemma {:induction false} AsWrittenRunPlaceholders(rows: seq<RecordStore.Row>, entries: seq<Entry>, src: Source,
                                                     headers: map<string, string>, env: Env,
                                                     selectors: map<string, CrawlerDetail.Group>)
    requires Valid(env.now) && env.now.aware
    ensures var items := Items(Run(rows, entries, Stepper(src, headers, env, CrawlerDetail.ConfiguredDict(selectors))).0);
            forall x :: x in items ==> x.content == Unreachable && x.attachments.None?
    decreases |entries|
  {
    var step := Stepper(src, headers, env, CrawlerDetail.ConfiguredDict(selectors));
    if entries != [] {
      var first := step(rows, entries[0]);
      AsWrittenStepPlaceholder(rows, entries[0], src, headers, env, selectors);
      AsWrittenRunPlaceholders(first.1, entries[1..], src, headers, env, selectors);
      var rest := Run(first.1, entries[1..], step);
      ItemsAppend([first.0], rest.0);
    }
  }

  /**
   * With the configured `DETAIL_SELECTORS`, every item a crawl returns
   * carries the placeholder content and no attachments: no detail page is
   * ever parsed.
   */
  lemma AsWrittenOnlyPlaceholders(sources: seq<Source>, id: string, rows: seq<RecordStore.Row>, env: Env)
    requires forall s :: s in sources ==> WellFormed(s)
    requires Valid(env.now) && env.now.aware
    ensures var r := Crawl(sources, id, rows, env, CrawlerDetail.ConfiguredDict(DetailSelectors)).0;
            r.Ok? ==> forall x :: x in r.value ==> x.content == Unreachable && x.attachments.None?
  {
    var found := FindSource(sources, id);
    if found.Some? && Collect(Pages(found.value, env)).Ok? {
      var src := found.value;
      AsWrittenRunPlaceholders(rows, Collect(Pages(src, env)).value, src, CrawlHeaders(src), env, DetailSelectors);
    }
  }
}

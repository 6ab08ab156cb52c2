/**
 * The listing half of `crawl_source` (crawler/services.py): the entry id,
 * `parse_list`, `parse_api_response` and the pagination loops that collect
 * the entries of a configured source page by page, from HTML list pages or
 * from a JSON API.
 */
module CrawlerCrawl {
  import opened Wrappers
  import opened Text
  import opened Json
  import opened Dicts
  import opened Dates
  import opened CrawlerConfig
  import opened CrawlerUrls
  import opened CrawlerFetch
  import CrawlerDates
  import CrawlerDetail
  import RecordStore

  // ---------------------------------------------------------------------
  // compute_sha256
  // ---------------------------------------------------------------------

  /** `segment or ""` for every segment. */
  function OrEmpty(segments: seq<Option<string>>): (r: seq<string>)
    ensures |r| == |segments|
    ensures forall i :: 0 <= i < |segments| ==> r[i] == OrElse(segments[i], "")
  {
    if segments == [] then [] else [OrElse(segments[0], "")] + OrEmpty(segments[1..])
  }

  /** The text `compute_sha256(*segments)` hashes: the segments joined by newlines, None read as "". */
  function IdPayload(segments: seq<Option<string>>): string
  {
    Join("\n", OrEmpty(segments))
  }

  /** Splitting at the first separator gives the text before it, then the rest split. */
  lemma {:induction false} SplitAtFirst(x: string, c: char, y: string)
    requires c !in x
    ensures Split(x + [c] + y, c) == [x] + Split(y, c)
  {
    if x == [] {
      assert x + [c] + y == [c] + y;
      assert ([c] + y)[1..] == y;
    } else {
      SplitAtFirst(x[1..], c, y);
      assert (x + [c] + y)[1..] == x[1..] + [c] + y;
      assert x == [x[0]] + x[1..];
    }
  }

  /** Segments without newlines are recovered from the payload: the hashed text determines them. */
  lemma {:induction false} IdPayloadSplits(segments: seq<Option<string>>)
    requires segments != []
    requires forall i :: 0 <= i < |segments| ==> '\n' !in OrElse(segments[i], "")
    ensures Split(IdPayload(segments), '\n') == OrEmpty(segments)
  {
    var parts := OrEmpty(segments);
    if |segments| == 1 {
      CrawlerDetail.SplitWithout(parts[0], '\n');
    } else {
      IdPayloadSplits(segments[1..]);
      assert OrEmpty(segments[1..]) == parts[1..];
      assert IdPayload(segments) == parts[0] + "\n" + Join("\n", parts[1..]);
      SplitAtFirst(parts[0], '\n', Join("\n", parts[1..]));
    }
  }

  /** `compute_sha256((title or "") + url, url)`: the entry id under the hash `sha`. */
  function EntryId(sha: string -> string, prefix: string, url: string): string
  {
    sha(IdPayload([Some(prefix + url), Some(url)]))
  }

  /** The hashed text of an entry id is the title and url, a newline, and the url again. */
  lemma EntryIdPayload(prefix: string, url: string)
    ensures IdPayload([Some(prefix + url), Some(url)]) == prefix + url + "\n" + url
  {
    var parts := OrEmpty([Some(prefix + url), Some(url)]);
    assert parts == [prefix + url, url];
    assert parts[1..] == [url];
  }

  // ---------------------------------------------------------------------
  // Entries: parse_list and parse_api_response
  // ---------------------------------------------------------------------

  /**
   * A listed entry: its title, date and type as the list gave them (a
   * string, or null, or for the API any JSON value) and its resolved
   * detail URL.
   */
  datatype Entry = Entry(title: Json, date: Json, url: Option<string>, kind: Json)

  /** The message of the KeyError `selectors[key]` raises. */
  function KeyError(key: string): string
  {
    "KeyError: '" + key + "'"
  }

  /** `el.get_text(strip=True) if el else None`. */
  function TextOf(dom: CrawlerDetail.Dom, el: Option<CrawlerDetail.Node>): (r: Json)
    ensures el.None? <==> r == JNull
  {
    if el.Some? then JStr(dom.strippedText(el.value)) else JNull
  }

  /** The element whose `href` or `src` is the entry URL: the item itself without a `url` selector. */
  function UrlElement(dom: CrawlerDetail.Dom, item: CrawlerDetail.Node, selectors: map<string, string>): (r: UrlValue)
  {
    if !("url" in selectors && selectors["url"] != "") then Element(dom.attr(item, "href"), dom.attr(item, "src"))
    else match dom.selectOne(Some(item), selectors["url"])
      case None => NoValue
      case Some(a) => Element(dom.attr(a, "href"), dom.attr(a, "src"))
  }

  /** One entry of `parse_list`. */
  function ListEntry(dom: CrawlerDetail.Dom, item: CrawlerDetail.Node, selectors: map<string, string>, base: string,
                     join: (string, string) -> string): (r: Entry)
    requires "date" in selectors && "title" in selectors
    ensures r.title.JNull? || r.title.JStr?
    ensures r.date.JNull? || r.date.JStr?
    ensures !("type" in selectors && selectors["type"] != "") ==> r.kind == JNull
    ensures r.url.None? <==> Href(UrlElement(dom, item, selectors)) == ""
  {
    var typeEl := if "type" in selectors && selectors["type"] != "" then dom.selectOne(Some(item), selectors["type"]) else None;
    Entry(TextOf(dom, dom.selectOne(Some(item), selectors["title"])),
          TextOf(dom, dom.selectOne(Some(item), selectors["date"])),
          NormalizeUrl(base, UrlElement(dom, item, selectors), join),
          TextOf(dom, typeEl))
  }

  /**
   * `parse_list(html, selectors, base_url)` on the parsed page: one entry
   * per item, in page order. `item_container` is read first, `date` and
   * `title` once there is an item; a missing one raises KeyError.
   */
  function ParseList(dom: CrawlerDetail.Dom, selectors: map<string, string>, base: string,
                     join: (string, string) -> string): (r: Result<seq<Entry>, string>)
    ensures "item_container" !in selectors ==> r == Err(KeyError("item_container"))
    ensures "item_container" in selectors ==>
              var items := dom.select(None, selectors["item_container"]);
              (r.Ok? <==> items == [] || ("date" in selectors && "title" in selectors))
              && (r.Ok? ==> |r.value| == |items|
                            && forall i :: 0 <= i < |items| ==> r.value[i].url == NormalizeUrl(base, UrlElement(dom, items[i], selectors), join))
  {
    if "item_container" !in selectors then Err(KeyError("item_container"))
    else
      var items := dom.select(None, selectors["item_container"]);
      if items == [] then Ok([])
      else if "date" !in selectors then Err(KeyError("date"))
      else if "title" !in selectors then Err(KeyError("title"))
      else Ok(seq(|items|, i requires 0 <= i < |items| => ListEntry(dom, items[i], selectors, base, join)))
  }

  /** `selectors.get(key, default)`. */
  function SelectorOr(selectors: map<string, string>, key: string, default: string): (r: string)
    ensures key in selectors ==> r == selectors[key]
    ensures key !in selectors ==> r == default
  {
    if key in selectors then selectors[key] else default
  }

  /**
   * What `normalize_url` makes of an item's raw URL value before resolving
   * it: null is no value, a string is itself, and a dict gives its first
   * truthy "href" or "src" (or "") to strip. Anything else has no `get`,
   * and a dict's pick that is not a string has no `strip`: both raise.
   */
  function ApiUrlValue(raw: Json): Result<UrlValue, string>
  {
    if raw.JNull? then Ok(NoValue)
    else if raw.JStr? then Ok(Str(raw.s))
    else if !raw.JObj? then Err("AttributeError: object has no attribute 'get'")
    else if LinkPick(raw.fields).JStr? then Ok(Str(LinkPick(raw.fields).s))
    else Err("AttributeError: object has no attribute 'strip'")
  }

  /** `d.get("href") or d.get("src") or ""`. */
  function LinkPick(fields: map<string, Json>): (r: Json)
    ensures Truthy(Get(fields, "href", JNull)) ==> r == fields["href"]
    ensures !Truthy(Get(fields, "href", JNull)) && Truthy(Get(fields, "src", JNull)) ==> r == fields["src"]
    ensures !Truthy(Get(fields, "href", JNull)) && !Truthy(Get(fields, "src", JNull)) ==> r == JStr("")
  {
    var href := Get(fields, "href", JNull);
    var src := Get(fields, "src", JNull);
    if Truthy(href) then href else if Truthy(src) then src else JStr("")
  }

  /**
   * Null, a string and a dict whose first truthy link is a string (or that
   * has none) are read; every other value raises.
   */
  lemma ApiUrlValueCases(raw: Json)
    ensures raw.JNull? ==> ApiUrlValue(raw) == Ok(NoValue)
    ensures raw.JStr? ==> ApiUrlValue(raw) == Ok(Str(raw.s))
    ensures raw.JObj? ==> (ApiUrlValue(raw).Ok? <==> LinkPick(raw.fields).JStr?)
                          && (ApiUrlValue(raw).Ok? ==> ApiUrlValue(raw).value == Str(LinkPick(raw.fields).s))
    ensures !(raw.JNull? || raw.JStr? || raw.JObj?) ==> ApiUrlValue(raw).Err?
  {
  }

  /** A dict holding its link under "src" resolves like that string; one with a numeric "href" raises. */
  lemma ApiDictUrl(u: string, n: int)
    requires n != 0
    ensures ApiUrlValue(JObj(map["href" := JNull, "src" := JStr(u)])) == Ok(Str(u))
    ensures ApiUrlValue(JObj(map["href" := JNum(n), "src" := JStr(u)])).Err?
  {
    assert Get(map["href" := JNull, "src" := JStr(u)], "src", JNull) == JStr(u);
  }

  /**
   * One API item: title and date are read with their default keys and the
   * URL value is resolved. An item that is not a dict raises, and so does
   * a URL value `normalize_url` cannot read.
   */
  function ApiEntry(item: Json, selectors: map<string, string>, base: string, join: (string, string) -> string): Result<Entry, string>
  {
    if !item.JObj? then Err("AttributeError: object has no attribute 'get'")
    else
      match ApiUrlValue(Get(item.fields, SelectorOr(selectors, "url", "url"), JNull))
      case Err(e) => Err(e)
      case Ok(value) =>
        Ok(Entry(Get(item.fields, SelectorOr(selectors, "title", "title"), JNull),
                 Get(item.fields, SelectorOr(selectors, "date", "releasetime"), JNull),
                 NormalizeUrl(base, value, join), JNull))
  }

  /**
   * An item gives an entry exactly when it is a dict whose URL value can be
   * read; the entry holds the title and date under their keys, the resolved
   * URL and no type.
   */
  lemma ApiEntryReads(item: Json, selectors: map<string, string>, base: string, join: (string, string) -> string)
    ensures var r := ApiEntry(item, selectors, base, join);
            (r.Ok? <==> item.JObj? && ApiUrlValue(Get(item.fields, SelectorOr(selectors, "url", "url"), JNull)).Ok?)
            && (r.Ok? ==> r.value.title == Get(item.fields, SelectorOr(selectors, "title", "title"), JNull)
                          && r.value.date == Get(item.fields, SelectorOr(selectors, "date", "releasetime"), JNull)
                          && r.value.url == NormalizeUrl(base, ApiUrlValue(Get(item.fields, SelectorOr(selectors, "url", "url"), JNull)).value, join)
                          && r.value.kind == JNull)
  {
  }

  /** The values of `rs` in order, or the first error among them. */
  function FirstError(rs: seq<Result<Entry, string>>): (r: Result<seq<Entry>, string>)
    ensures r.Ok? <==> forall i :: 0 <= i < |rs| ==> rs[i].Ok?
    ensures r.Ok? ==> |r.value| == |rs| && forall i :: 0 <= i < |rs| ==> r.value[i] == rs[i].value
    ensures r.Err? ==> exists i :: 0 <= i < |rs| && rs[i] == Err(r.error) && forall j :: 0 <= j < i ==> rs[j].Ok?
  {
    if rs == [] then Ok([])
    else match rs[0]
      case Err(e) => assert rs[0] == Err(e); Err(e)
      case Ok(first) =>
        match FirstError(rs[1..])
        case Err(e) =>
          ghost var k :| 0 <= k < |rs[1..]| && rs[1..][k] == Err(e) && forall j :: 0 <= j < k ==> rs[1..][j].Ok?;
          assert rs[k + 1] == Err(e);
          Err(e)
        case Ok(rest) =>
          Ok([first] + rest)
  }

  /** The entries of `items`, in order, or the first item's exception. */
  function ApiEntries(items: seq<Json>, selectors: map<string, string>, base: string, join: (string, string) -> string): Result<seq<Entry>, string>
  {
    FirstError(ApiResults(items, selectors, base, join))
  }

  /** The items give entries exactly when every one does, one entry per item in order; otherwise the first failing item's exception. */
  lemma {:induction false} ApiEntriesOk(items: seq<Json>, selectors: map<string, string>, base: string, join: (string, string) -> string)
    ensures ApiEntries(items, selectors, base, join).Ok? <==> forall i :: 0 <= i < |items| ==> ApiEntry(items[i], selectors, base, join).Ok?
    ensures ApiEntries(items, selectors, base, join).Ok? ==>
              |ApiEntries(items, selectors, base, join).value| == |items|
              && forall i :: 0 <= i < |items| ==> ApiEntries(items, selectors, base, join).value[i] == ApiEntry(items[i], selectors, base, join).value
    ensures ApiEntries(items, selectors, base, join).Err? ==>
              exists i :: 0 <= i < |items| && ApiEntry(items[i], selectors, base, join) == Err(ApiEntries(items, selectors, base, join).error)
                          && forall j :: 0 <= j < i ==> ApiEntry(items[j], selectors, base, join).Ok?
  {
    var results := ApiResults(items, selectors, base, join);
    assert ApiEntries(items, selectors, base, join) == FirstError(results);
  }

  /** The outcome of each item, in order. */
  function ApiResults(items: seq<Json>, selectors: map<string, string>, base: string, join: (string, string) -> string)
    : (rs: seq<Result<Entry, string>>)
    ensures |rs| == |items| && forall i :: 0 <= i < |items| ==> rs[i] == ApiEntry(items[i], selectors, base, join)
  {
    seq(|items|, i requires 0 <= i < |items| => ApiEntry(items[i], selectors, base, join))
  }

  /** No items, no entries. */
  lemma NoApiItems(selectors: map<string, string>, base: string, join: (string, string) -> string)
    ensures ApiEntries([], selectors, base, join) == Ok([])
  {
    ApiEntriesOk([], selectors, base, join);
  }

  /**
   * `parse_api_response(json_data, selectors, base_url)`: the list under
   * `item_container` (default "infolist"); a missing or falsy list gives no
   * entries. A response that is not an object, or a list that is not an
   * array, raises.
   */
  function ParseApiResponse(data: Json, selectors: map<string, string>, base: string,
                            join: (string, string) -> string): Result<seq<Entry>, string>
  {
    if !data.JObj? then Err("AttributeError: object has no attribute 'get'")
    else
      var items := ApiList(data.fields, selectors);
      if !Truthy(items) then Ok([])
      else if items.JArr? then ApiEntries(items.items, selectors, base, join)
      else Err("TypeError: items are not a list of objects")
  }

  /** `json_data.get(list_key, [])`. */
  function ApiList(fields: map<string, Json>, selectors: map<string, string>): Json
  {
    Get(fields, SelectorOr(selectors, "item_container", "infolist"), JArr([]))
  }

  /**
   * A response that is not a dict raises; a falsy list gives no entries; a
   * list gives its items' entries (or the first item's exception); any
   * other truthy value raises.
   */
  lemma ApiResponseCases(data: Json, selectors: map<string, string>, base: string, join: (string, string) -> string)
    ensures !data.JObj? ==> ParseApiResponse(data, selectors, base, join).Err?
    ensures data.JObj? && !Truthy(ApiList(data.fields, selectors)) ==> ParseApiResponse(data, selectors, base, join) == Ok([])
    ensures data.JObj? && ApiList(data.fields, selectors).JArr? ==>
              ParseApiResponse(data, selectors, base, join) == ApiEntries(ApiList(data.fields, selectors).items, selectors, base, join)
    ensures data.JObj? && Truthy(ApiList(data.fields, selectors)) && !ApiList(data.fields, selectors).JArr? ==>
              ParseApiResponse(data, selectors, base, join).Err?
  {
    if data.JObj? && ApiList(data.fields, selectors).JArr? {
      ApiListParsed(data.fields, selectors, base, join);
    }
  }

  /** A list under the key gives exactly its items' entries. */
  lemma ApiListParsed(fields: map<string, Json>, selectors: map<string, string>, base: string, join: (string, string) -> string)
    requires ApiList(fields, selectors).JArr?
    ensures ParseApiResponse(JObj(fields), selectors, base, join) == ApiEntries(ApiList(fields, selectors).items, selectors, base, join)
  {
    var items := ApiList(fields, selectors);
    if items.items == [] {
      NoApiItems(selectors, base, join);
      assert !Truthy(items);
    } else {
      assert Truthy(items);
    }
  }

  /** Without configured keys the list is read from "infolist". */
  lemma ApiDefaultList(fields: map<string, Json>, items: seq<Json>, base: string, join: (string, string) -> string)
    requires "infolist" in fields && fields["infolist"] == JArr(items)
    ensures ParseApiResponse(JObj(fields), map[], base, join) == ApiEntries(items, map[], base, join)
  {
    assert SelectorOr(map[], "item_container", "infolist") == "infolist";
  }

  /** Without configured keys an item's "title", "releasetime" and "url" fields are read. */
  lemma ApiDefaultFields(fields: map<string, Json>, url: string, base: string, join: (string, string) -> string)
    requires "url" in fields && fields["url"] == JStr(url)
    ensures ApiEntry(JObj(fields), map[], base, join)
            == Ok(Entry(Get(fields, "title", JNull), Get(fields, "releasetime", JNull), NormalizeUrl(base, Str(url), join), JNull))
  {
    assert SelectorOr(map[], "url", "url") == "url";
    assert SelectorOr(map[], "title", "title") == "title";
    assert SelectorOr(map[], "date", "releasetime") == "releasetime";
    assert Get(fields, "url", JNull) == JStr(url);
  }

  // ---------------------------------------------------------------------
  // Pagination
  // ---------------------------------------------------------------------

  /** What one list page gives: skipped (its fetch raised RuntimeError), its entries, or an exception that ends the crawl. */
  datatype PageOutcome = PageSkipped | PageListed(entries: seq<Entry>) | PageRaised(error: string)

  /** A page after which pagination goes on: skipped, or with at least one entry. */
  predicate Continues(p: PageOutcome)
  {
    p.PageSkipped? || (p.PageListed? && p.entries != [])
  }

  /** The entries of the pages, in order. */
  function Listed(pages: seq<PageOutcome>): (r: seq<Entry>)
  {
    if pages == [] then []
    else Listed(pages[..|pages| - 1]) + (if pages[|pages| - 1].PageListed? then pages[|pages| - 1].entries else [])
  }

  /**
   * The entries the pagination loop collects: skipped pages are passed
   * over, the first empty page stops the loop, an exception ends the crawl.
   */
  function Collect(pages: seq<PageOutcome>): (r: Result<seq<Entry>, string>)
  {
    if pages == [] then Ok([])
    else match pages[0]
      case PageSkipped => Collect(pages[1..])
      case PageRaised(e) => Err(e)
      case PageListed(es) =>
        if es == [] then Ok([])
        else match Collect(pages[1..])
          case Ok(rest) => Ok(es + rest)
          case Err(e) => Err(e)
  }

  /** `entries + rest` inside a result. */
  function Prepend(es: seq<Entry>, r: Result<seq<Entry>, string>): Result<seq<Entry>, string>
  {
    match r
    case Ok(rest) => Ok(es + rest)
    case Err(e) => Err(e)
  }

  /** Pages that let pagination go on contribute their entries ahead of what follows. */
  lemma {:induction false} CollectPrefix(ps: seq<PageOutcome>, qs: seq<PageOutcome>)
    requires forall i :: 0 <= i < |ps| ==> Continues(ps[i])
    ensures Collect(ps + qs) == Prepend(Listed(ps), Collect(qs))
  {
    if ps == [] {
      assert ps + qs == qs;
      match Collect(qs)
      case Ok(rest) => assert [] + rest == rest;
      case Err(e) =>
    } else {
      CollectPrefix(ps[1..], qs);
      assert (ps + qs)[1..] == ps[1..] + qs;
      assert (ps + qs)[0] == ps[0];
      ListedFirst(ps);
      var tail := Collect(ps[1..] + qs);
      match ps[0]
      case PageSkipped =>
        assert Collect(ps + qs) == tail;
        assert Listed(ps) == Listed(ps[1..]);
      case PageListed(es) =>
        assert Collect(ps + qs) == Prepend(es, tail);
        assert Listed(ps) == es + Listed(ps[1..]);
        match Collect(qs)
        case Ok(rest) =>
          assert Listed(ps) + rest == es + (Listed(ps[1..]) + rest);
        case Err(e) =>
    }
  }

  /** `Listed` read from the front. */
  lemma {:induction false} ListedFirst(ps: seq<PageOutcome>)
    requires ps != []
    ensures Listed(ps) == (if ps[0].PageListed? then ps[0].entries else []) + Listed(ps[1..])
  {
    if |ps| == 1 {
      assert ps[..0] == [] && ps[1..] == [];
    } else {
      var init, rest := ps[..|ps| - 1], ps[1..];
      var head := if ps[0].PageListed? then ps[0].entries else [];
      var last := if ps[|ps| - 1].PageListed? then ps[|ps| - 1].entries else [];
      assert init[0] == ps[0] && rest[|rest| - 1] == ps[|ps| - 1];
      assert init[1..] == rest[..|rest| - 1];
      ListedFirst(init);
      assert Listed(rest) == Listed(init[1..]) + last;
      calc {
        Listed(ps);
        Listed(init) + last;
        (head + Listed(init[1..])) + last;
        head + (Listed(init[1..]) + last);
      }
    }
  }

  /** Pagination stops at the first empty page: nothing after it is collected. */
  lemma {:induction false} CollectStopsAtEmpty(ps: seq<PageOutcome>, qs: seq<PageOutcome>)
    ensures Collect(ps + [PageListed([])] + qs) == Collect(ps)
  {
    if ps == [] {
      assert ps + [PageListed([])] + qs == [PageListed([])] + qs;
    } else {
      CollectStopsAtEmpty(ps[1..], qs);
      assert (ps + [PageListed([])] + qs)[1..] == ps[1..] + [PageListed([])] + qs;
      assert (ps + [PageListed([])] + qs)[0] == ps[0];
    }
  }

  /** A page whose fetch failed is passed over as if it were not there. */
  lemma {:induction false} CollectSkips(ps: seq<PageOutcome>, qs: seq<PageOutcome>)
    ensures Collect(ps + [PageSkipped] + qs) == Collect(ps + qs)
  {
    if ps == [] {
      assert ps + [PageSkipped] + qs == [PageSkipped] + qs;
      assert ([PageSkipped] + qs)[0] == PageSkipped && ([PageSkipped] + qs)[1..] == qs;
      assert ps + qs == qs;
    } else {
      CollectSkips(ps[1..], qs);
      assert (ps + [PageSkipped] + qs)[1..] == ps[1..] + [PageSkipped] + qs;
      assert (ps + qs)[1..] == ps[1..] + qs;
      assert (ps + [PageSkipped] + qs)[0] == ps[0] && (ps + qs)[0] == ps[0];
    }
  }

  /** The list URLs `build_paginated_urls` gives. */
  function ListUrls(listUrl: string, maxPages: int): (r: seq<string>)
    ensures |r| == if maxPages <= 1 then 1 else maxPages
  {
    seq(if maxPages <= 1 then 1 else maxPages, k requires 0 <= k => if k == 0 then listUrl else PageUrl(listUrl, k + 1))
  }

  /**
   * The network and the foreign functions a crawl uses: the attempts of a
   * GET of a URL with headers, the attempts of an API POST, the HTML
   * parser, the detail-page services, the SHA-256 hex digest, the JSON
   * text of an attachment list, the Python repr of a list or dict, the retry count, the tesseract command,
   * the current time and the SQLite `CURRENT_TIMESTAMP`.
   */
  datatype Env = Env(
    getHtml: (string, map<string, string>) -> (nat -> Option<string>),
    post: string -> ((Dict<string, string>, map<string, string>) -> (nat -> Option<Json>)),
    soup: string -> CrawlerDetail.Dom,
    svc: CrawlerDetail.Services,
    sha: string -> string,
    dumps: seq<CrawlerDetail.Attachment> -> string,
    repr: Json -> string,
    retries: int,
    ocrCmd: string,
    now: DateTime,
    createdAt: string)

  /** What fetching and parsing one HTML list page gives. */
  function HtmlPage(url: string, src: Source, headers: map<string, string>, env: Env): PageOutcome
  {
    match Outcome(env.getHtml(url, headers), env.retries)
    case None => PageSkipped
    case Some(html) =>
      match ParseList(env.soup(html), src.selectors, src.baseUrl, env.svc.join)
      case Ok(es) => PageListed(es)
      case Err(e) => PageRaised(e)
  }

  /** The outcomes of the list pages of an HTML source. */
  function HtmlPages(src: Source, headers: map<string, string>, env: Env): (r: seq<PageOutcome>)
  {
    HtmlPagesOf(ListUrls(src.listUrl, MaxPages(src)), src, headers, env)
  }

  /** The outcomes of the list pages at `urls`, in order. */
  function HtmlPagesOf(urls: seq<string>, src: Source, headers: map<string, string>, env: Env): (r: seq<PageOutcome>)
    ensures |r| == |urls| && forall i :: 0 <= i < |urls| ==> r[i] == HtmlPage(urls[i], src, headers, env)
  {
    if urls == [] then [] else HtmlPagesOf(urls[..|urls| - 1], src, headers, env) + [HtmlPage(urls[|urls| - 1], src, headers, env)]
  }

  /** The payload of API page `page`: a copy of the base payload with `pageno` and `hasPage` set. */
  function PagePayload(payload: Dict<string, Json>, page: nat): Dict<string, Json>
  {
    Put(Put(payload, "pageno", JStr(NatToString(page))), "hasPage", JStr("true"))
  }

  /** The page payload carries the page number and `hasPage`, and every other key of the base payload as it was. */
  lemma PagePayloadLookup(payload: Dict<string, Json>, page: nat, k: string)
    requires UniqueKeys(payload)
    ensures UniqueKeys(PagePayload(payload, page))
    ensures Lookup(PagePayload(payload, page), "pageno") == Some(JStr(NatToString(page)))
    ensures Lookup(PagePayload(payload, page), "hasPage") == Some(JStr("true"))
    ensures k != "pageno" && k != "hasPage" ==> Lookup(PagePayload(payload, page), k) == Lookup(payload, k)
  {
    var withPage := Put(payload, "pageno", JStr(NatToString(page)));
    PutLookup(payload, "pageno", JStr(NatToString(page)), "hasPage");
    PutLookup(payload, "pageno", JStr(NatToString(page)), k);
    PutLookup(withPage, "hasPage", JStr("true"), k);
    PutLookup(withPage, "hasPage", JStr("true"), "pageno");
  }

  /** What fetching and parsing API page `page` gives; `headers` already hold the content type. */
  function ApiPage(src: Source, page: nat, headers: map<string, string>, env: Env): PageOutcome
    requires src.mode.Api? && UniqueKeys(src.mode.payload)
  {
    ApiPageOf(ApiResponse(src, page, headers, env), src, env)
  }

  /** The response of the POST for API page `page`, after the retries. */
  function ApiResponse(src: Source, page: nat, headers: map<string, string>, env: Env): Result<Json, string>
    requires src.mode.Api? && UniqueKeys(src.mode.payload)
  {
    ApiOutcome(src.mode.apiUrl, PagePayload(src.mode.payload, page), env.repr, headers, env.post(src.mode.apiUrl), env.retries)
  }

  /** A failed request skips the page; a response is parsed into entries or raises. */
  function ApiPageOf(response: Result<Json, string>, src: Source, env: Env): PageOutcome
  {
    match response
    case Err(_) => PageSkipped
    case Ok(data) =>
      match ParseApiResponse(data, src.selectors, src.baseUrl, env.svc.join)
      case Ok(es) => PageListed(es)
      case Err(e) => PageRaised(e)
  }

  /** The outcomes of API pages 1 to `max_pages`. */
  function ApiPages(src: Source, headers: map<string, string>, env: Env): (r: seq<PageOutcome>)
    requires src.mode.Api? && UniqueKeys(src.mode.payload)
    ensures |r| == if MaxPages(src) < 0 then 0 else MaxPages(src)
  {
    PageRun(if MaxPages(src) < 0 then 0 else MaxPages(src), ApiPager(src, headers, env))
  }

  /** API page numbers to their outcomes. */
  function ApiPager(src: Source, headers: map<string, string>, env: Env): (r: nat -> PageOutcome)
    requires src.mode.Api? && UniqueKeys(src.mode.payload)
  {
    (k: nat) => ApiPage(src, k, headers, env)
  }

  /** The outcomes of pages 1 to `n`, page `p` giving `pageOf(p)`. */
  function PageRun(n: nat, pageOf: nat -> PageOutcome): (r: seq<PageOutcome>)
    ensures |r| == n
  {
    if n == 0 then [] else PageRun(n - 1, pageOf) + [pageOf(n)]
  }

  /** Entry `i` of a page run is page `i + 1`. */
  lemma {:induction false} PageRunAt(n: nat, pageOf: nat -> PageOutcome, i: nat)
    requires i < n
    ensures PageRun(n, pageOf)[i] == pageOf(i + 1)
  {
    if i < n - 1 {
      PageRunAt(n - 1, pageOf, i);
    }
  }

  /** The headers once the pagination loop is over: the API mode added the content type if it fetched at all. */
  function CrawlHeaders(src: Source): (r: map<string, string>)
    ensures src.mode.Html? || MaxPages(src) < 1 ==> r == src.headers
    ensures src.mode.Api? && MaxPages(src) >= 1 ==> r == WithContentType(src.headers)
  {
    if src.mode.Api? && MaxPages(src) >= 1 then WithContentType(src.headers) else src.headers
  }

  /** A source as the configuration holds it: an API payload is a dict, so its keys are unique. */
  predicate WellFormed(src: Source)
  {
    src.mode.Api? ==> UniqueKeys(src.mode.payload)
  }

  /** The pages a source's pagination loop sees. */
  function Pages(src: Source, env: Env): seq<PageOutcome>
    requires WellFormed(src)
  {
    if src.mode.Html? then HtmlPages(src, src.headers, env) else ApiPages(src, WithContentType(src.headers), env)
  }

  /** One step of `Collect` over the pages from `i` on. */
  lemma CollectStep(pages: seq<PageOutcome>, i: nat)
    requires i < |pages|
    ensures Collect(pages[i..]) == match pages[i]
                                   case PageSkipped => Collect(pages[i + 1..])
                                   case PageRaised(e) => Err(e)
                                   case PageListed(es) => if es == [] then Ok([]) else Prepend(es, Collect(pages[i + 1..]))
  {
    assert pages[i..][0] == pages[i] && pages[i..][1..] == pages[i + 1..];
  }

  /** What the loop knows after looking at page `i`, in each of its outcomes. */
  lemma CollectAdvance(pages: seq<PageOutcome>, i: nat, entries: seq<Entry>)
    requires i < |pages| && Collect(pages) == Prepend(entries, Collect(pages[i..]))
    ensures pages[i].PageRaised? ==> Collect(pages) == Err(pages[i].error)
    ensures pages[i] == PageListed([]) ==> Collect(pages) == Ok(entries)
    ensures pages[i].PageSkipped? ==> Collect(pages) == Prepend(entries, Collect(pages[i + 1..]))
    ensures pages[i].PageListed? && pages[i].entries != [] ==>
              Collect(pages) == Prepend(entries + pages[i].entries, Collect(pages[i + 1..]))
  {
    CollectStep(pages, i);
    if pages[i] == PageListed([]) {
      assert entries + [] == entries;
    } else if pages[i].PageListed? {
      PrependTwice(entries, pages[i].entries, Collect(pages[i + 1..]));
    }
  }

  /** Prepending nothing changes nothing. */
  lemma PrependNothing(r: Result<seq<Entry>, string>)
    ensures Prepend([], r) == r
  {
    match r
    case Ok(rest) => assert [] + rest == rest;
    case Err(_) =>
  }

  /** Prepending twice is prepending the concatenation. */
  lemma PrependTwice(a: seq<Entry>, b: seq<Entry>, r: Result<seq<Entry>, string>)
    ensures Prepend(a, Prepend(b, r)) == Prepend(a + b, r)
  {
    match r
    case Ok(rest) => assert a + (b + rest) == (a + b) + rest;
    case Err(_) =>
  }

  /** Fetch and parse one HTML list page. */
  method FetchListPage(url: string, src: Source, headers: map<string, string>, env: Env) returns (p: PageOutcome)
    ensures p == HtmlPage(url, src, headers, env)
  {
    var html := FetchHtml(url, env.getHtml(url, headers), env.retries);
    if html.Err? {
      return PageSkipped;
    }
    var parsed := ParseList(env.soup(html.value), src.selectors, src.baseUrl, env.svc.join);
    p := if parsed.Ok? then PageListed(parsed.value) else PageRaised(parsed.error);
  }

  /** Fetch and parse API page `page`; the fetch adds the content type to `headers`. */
  method FetchApiPage(src: Source, page: nat, headers: Headers, env: Env) returns (p: PageOutcome)
    requires src.mode.Api? && UniqueKeys(src.mode.payload)
    modifies headers
    ensures headers.entries == WithContentType(old(headers.entries))
    ensures p == ApiPage(src, page, headers.entries, env)
  {
    var data := FetchApi(src.mode.apiUrl, PagePayload(src.mode.payload, page), env.repr, headers, env.post(src.mode.apiUrl), env.retries);
    if data.Err? {
      return PageSkipped;
    }
    var parsed := ParseApiResponse(data.value, src.selectors, src.baseUrl, env.svc.join);
    p := if parsed.Ok? then PageListed(parsed.value) else PageRaised(parsed.error);
  }

  /** The HTML pagination loop: the list pages in order, fetched with the source's headers. */
  method CollectHtmlEntries(src: Source, headers: map<string, string>, env: Env) returns (r: Result<seq<Entry>, string>)
    ensures r == Collect(HtmlPages(src, headers, env))
  {
    var urls := BuildPaginatedUrls(src.listUrl, MaxPages(src));
    assert urls == ListUrls(src.listUrl, MaxPages(src));
    r := CollectHtmlPages(urls, src, headers, env);
  }

  /** The loop over the list page URLs: fetch each in turn, stopping at an empty or failing page. */
  method CollectHtmlPages(urls: seq<string>, src: Source, headers: map<string, string>, env: Env)
    returns (r: Result<seq<Entry>, string>)
    ensures r == Collect(HtmlPagesOf(urls, src, headers, env))
  {
    var entries: seq<Entry> := [];
    ghost var pages := HtmlPagesOf(urls, src, headers, env);
    var i := 0;
    assert pages[0..] == pages;
    PrependNothing(Collect(pages));
    while i < |urls|
      invariant 0 <= i <= |urls|
      invariant Collect(pages) == Prepend(entries, Collect(pages[i..]))
    {
      var p := FetchListPage(urls[i], src, headers, env);
      assert p == pages[i];
      CollectAdvance(pages, i, entries);
      if p.PageRaised? {
        return Err(p.error);
      }
      if p == PageListed([]) {
        return Ok(entries);
      }
      if p.PageListed? {
        entries := entries + p.entries;
      }
      i := i + 1;
    }
    assert pages[i..] == [] && entries + [] == entries;
    r := Ok(entries);
  }

  /**
   * The API pagination loop: pages 1 to `max_pages`, each with its own
   * payload; every fetch adds the content type to the source's `headers`.
   */
  method CollectApiEntries(src: Source, headers: Headers, env: Env) returns (r: Result<seq<Entry>, string>)
    requires src.mode.Api? && UniqueKeys(src.mode.payload) && headers.entries == src.headers
    modifies headers
    ensures headers.entries == CrawlHeaders(src)
    ensures r == Collect(ApiPages(src, WithContentType(src.headers), env))
  {
    WithContentTypeIdempotent(src.headers);
    r := CollectApiPages(src, if MaxPages(src) < 0 then 0 else MaxPages(src), headers, env);
  }

  /** The loop over API pages 1 to `n`: fetch each in turn, stopping at an empty or failing page. */
  method CollectApiPages(src: Source, n: nat, headers: Headers, env: Env) returns (r: Result<seq<Entry>, string>)
    requires src.mode.Api? && UniqueKeys(src.mode.payload)
    requires WithContentType(headers.entries) == WithContentType(src.headers)
    modifies headers
    ensures headers.entries == if n == 0 then old(headers.entries) else WithContentType(src.headers)
    ensures r == Collect(PageRun(n, ApiPager(src, WithContentType(src.headers), env)))
  {
    var entries: seq<Entry> := [];
    ghost var pages := PageRun(n, ApiPager(src, WithContentType(src.headers), env));
    var i := 0;
    assert pages[0..] == pages;
    PrependNothing(Collect(pages));
    while i < n
      invariant 0 <= i <= n
      invariant headers.entries == if i == 0 then old(headers.entries) else WithContentType(src.headers)
      invariant Collect(pages) == Prepend(entries, Collect(pages[i..]))
    {
      var p := FetchApiPageAt(src, i, headers, env, pages);
      CollectAdvance(pages, i, entries);
      if p.PageRaised? {
        return Err(p.error);
      }
      if p == PageListed([]) {
        return Ok(entries);
      }
      if p.PageListed? {
        entries := entries + p.entries;
      }
      i := i + 1;
    }
    assert pages[i..] == [] && entries + [] == entries;
    r := Ok(entries);
  }

  /** Fetch API page `i + 1`, the entry `i` of the run of pages. */
  method FetchApiPageAt(src: Source, i: nat, headers: Headers, env: Env, ghost pages: seq<PageOutcome>) returns (p: PageOutcome)
    requires src.mode.Api? && UniqueKeys(src.mode.payload)
    requires pages == PageRun(|pages|, ApiPager(src, WithContentType(src.headers), env)) && i < |pages|
    requires WithContentType(headers.entries) == WithContentType(src.headers)
    modifies headers
    ensures headers.entries == WithContentType(src.headers)
    ensures p == pages[i]
  {
    p := FetchApiPage(src, i + 1, headers, env);
    PageRunAt(|pages|, ApiPager(src, WithContentType(src.headers), env), i);
  }

  /** The pagination loop of `crawl_source`, in the source's mode. */
  method CollectEntries(src: Source, headers: Headers, env: Env) returns (r: Result<seq<Entry>, string>)
    requires WellFormed(src) && headers.entries == src.headers
    modifies headers
    ensures headers.entries == CrawlHeaders(src)
    ensures r == Collect(Pages(src, env))
  {
    if src.mode.Html? {
      r := CollectHtmlEntries(src, headers.entries, env);
    } else {
      r := CollectApiEntries(src, headers, env);
    }
  }

  /** Re-running the crawl of an API source on headers a previous crawl already completed fetches with the same headers. */
  lemma HeadersPersistHarmless(src: Source)
    ensures CrawlHeaders(src.(headers := CrawlHeaders(src))) == CrawlHeaders(src)
  {
    WithContentTypeIdempotent(src.headers);
  }
}

/**
 * The older twin of the crawler in wechat/services.py: its `parse_list`,
 * `parse_publish_time`, `extract_text_content`, `parse_detail_page` and
 * the pagination loop of its `crawl_source`. `normalize_url`,
 * `build_paginated_urls`, the retry loops and the image, file and viewer
 * extractors are the crawler's own (`CrawlerUrls`, `CrawlerFetch`,
 * `CrawlerDetail`). The selector dict and the target sources it imports
 * are parameters.
 */
module WechatServices {
  import opened Wrappers
  import opened Text
  import opened Json
  import opened Dates
  import opened CrawlerConfig
  import opened CrawlerUrls
  import opened CrawlerFetch
  import opened CrawlerCrawl
  import CrawlerDates
  import CrawlerDetail

  // ---------------------------------------------------------------------
  // parse_list
  // ---------------------------------------------------------------------

  /** The per-item keys `parse_list` reads with `selectors[...]`, in the order it reads them. */
  predicate ItemKeys(selectors: map<string, string>)
  {
    "date" in selectors && "title" in selectors && "url" in selectors && "type" in selectors
  }

  /** `item.select_one(selectors["url"])` passed to `normalize_url`. */
  function LinkOf(dom: CrawlerDetail.Dom, el: Option<CrawlerDetail.Node>): (r: UrlValue)
    ensures el.None? <==> r.NoValue?
  {
    if el.Some? then Element(dom.attr(el.value, "href"), dom.attr(el.value, "src")) else NoValue
  }

  /** One entry: the stripped texts of title, date and type (or null) and the resolved link. */
  function ListEntry(dom: CrawlerDetail.Dom, item: CrawlerDetail.Node, selectors: map<string, string>, base: string,
                     join: (string, string) -> string): (r: Entry)
    requires ItemKeys(selectors)
    ensures r.title.JNull? || r.title.JStr?
    ensures r.date.JNull? || r.date.JStr?
    ensures r.kind.JNull? || r.kind.JStr?
    ensures r.url.None? <==> Href(LinkOf(dom, dom.selectOne(Some(item), selectors["url"]))) == ""
  {
    Entry(TextOf(dom, dom.selectOne(Some(item), selectors["title"])),
          TextOf(dom, dom.selectOne(Some(item), selectors["date"])),
          NormalizeUrl(base, LinkOf(dom, dom.selectOne(Some(item), selectors["url"])), join),
          TextOf(dom, dom.selectOne(Some(item), selectors["type"])))
  }

  /** The entries of `items`, in order. */
  function ListEntries(dom: CrawlerDetail.Dom, items: seq<CrawlerDetail.Node>, selectors: map<string, string>,
                       base: string, join: (string, string) -> string): (r: seq<Entry>)
    requires ItemKeys(selectors)
    ensures |r| == |items|
    ensures forall i :: 0 <= i < |items| ==> r[i] == ListEntry(dom, items[i], selectors, base, join)
  {
    if items == [] then []
    else [ListEntry(dom, items[0], selectors, base, join)] + ListEntries(dom, items[1..], selectors, base, join)
  }

  /**
   * `parse_list(html, selectors, base_url)` on the parsed page. Every
   * selector key is mandatory: `item_container` is read first, then, once
   * there is an item, `date`, `title`, `url` and `type`; a missing one
   * raises KeyError.
   */
  function ParseList(dom: CrawlerDetail.Dom, selectors: map<string, string>, base: string,
                     join: (string, string) -> string): (r: Result<seq<Entry>, string>)
    ensures "item_container" !in selectors ==> r == Err(KeyError("item_container"))
    ensures "item_container" in selectors ==>
              var items := dom.select(None, selectors["item_container"]);
              (r.Ok? <==> items == [] || ItemKeys(selectors))
              && (r.Ok? ==> |r.value| == |items|)
    ensures "item_container" in selectors && dom.select(None, selectors["item_container"]) != [] && !ItemKeys(selectors)
            ==> r == Err(KeyError(if "date" !in selectors then "date" else if "title" !in selectors then "title"
                                  else if "url" !in selectors then "url" else "type"))
  {
    if "item_container" !in selectors then Err(KeyError("item_container"))
    else
      var items := dom.select(None, selectors["item_container"]);
      if items == [] then Ok([])
      else if "date" !in selectors then Err(KeyError("date"))
      else if "title" !in selectors then Err(KeyError("title"))
      else if "url" !in selectors then Err(KeyError("url"))
      else if "type" !in selectors then Err(KeyError("type"))
      else Ok(ListEntries(dom, items, selectors, base, join))
  }

  /**
   * With every key configured and non-empty `url` and `type` selectors,
   * this `parse_list` lists exactly what the crawler's does.
   */
  lemma ParseListAgrees(dom: CrawlerDetail.Dom, selectors: map<string, string>, base: string,
                        join: (string, string) -> string)
    requires "item_container" in selectors && ItemKeys(selectors)
    requires selectors["url"] != "" && selectors["type"] != ""
    ensures ParseList(dom, selectors, base, join) == CrawlerCrawl.ParseList(dom, selectors, base, join)
  {
    var items := dom.select(None, selectors["item_container"]);
    if items != [] {
      var mine := ListEntries(dom, items, selectors, base, join);
      var theirs := seq(|items|, i requires 0 <= i < |items| => CrawlerCrawl.ListEntry(dom, items[i], selectors, base, join));
      assert CrawlerCrawl.ParseList(dom, selectors, base, join) == Ok(theirs);
      forall i | 0 <= i < |items|
        ensures mine[i] == theirs[i]
      {
        ListEntryAgrees(dom, items[i], selectors, base, join);
      }
      assert mine == theirs;
    }
  }

  /** One item with every key configured and non-empty `url` and `type` selectors: the same entry as the crawler's. */
  lemma ListEntryAgrees(dom: CrawlerDetail.Dom, item: CrawlerDetail.Node, selectors: map<string, string>, base: string,
                        join: (string, string) -> string)
    requires ItemKeys(selectors) && selectors["url"] != "" && selectors["type"] != ""
    ensures ListEntry(dom, item, selectors, base, join) == CrawlerCrawl.ListEntry(dom, item, selectors, base, join)
  {
    assert LinkOf(dom, dom.selectOne(Some(item), selectors["url"])) == CrawlerCrawl.UrlElement(dom, item, selectors);
  }

  /**
   * Without a `url` selector the crawler reads the link from the item
   * itself, while this `parse_list` raises KeyError on the first item.
   */
  lemma MissingUrlKeyRaises(dom: CrawlerDetail.Dom, selectors: map<string, string>, base: string,
                            join: (string, string) -> string)
    requires "item_container" in selectors && "date" in selectors && "title" in selectors && "url" !in selectors
    requires dom.select(None, selectors["item_container"]) != []
    ensures ParseList(dom, selectors, base, join) == Err(KeyError("url"))
    ensures CrawlerCrawl.ParseList(dom, selectors, base, join).Ok?
  {
  }

  // ---------------------------------------------------------------------
  // parse_publish_time
  // ---------------------------------------------------------------------

  /** The separators of `%Y-%m-%d`, `%Y/%m/%d` and `%Y.%m.%d`, in the order tried. */
  const WechatFormats: seq<string> := ["-", "/", "."]

  /**
   * `parse_publish_time(date_str)`: the first format that reads the text
   * as given (no stripping), a naive midnight; else `now`, in UTC.
   */
  function ParsePublishTime(date: Option<string>, now: DateTime): (r: DateTime)
    requires Valid(now) && now.aware
    ensures Valid(r)
    ensures r.aware <==> date.None? || date.value == "" || CrawlerDates.FirstFormat(date.value, WechatFormats).None?
    ensures r.aware ==> r == now
  {
    if date.None? || date.value == "" then now
    else match CrawlerDates.FirstFormat(date.value, WechatFormats)
      case Some(dt) => dt
      case None => now
  }

  /**
   * A valid date written `YYYY-MM-DD`, `YYYY/MM/DD` or `YYYY.MM.DD` is read
   * as that date without a timezone; the crawler reads the same text as
   * the same date in UTC, and the stored `isoformat` text is six
   * characters shorter (no "+00:00").
   */
  lemma WrittenDateNaive(y: nat, m: nat, d: nat, k: nat, now: DateTime)
    requires Valid(now) && now.aware && ValidDate(y, m, d) && k < |WechatFormats|
    ensures var s := ZeroPad(y, 4) + WechatFormats[k] + ZeroPad(m, 2) + WechatFormats[k] + ZeroPad(d, 2);
            ParsePublishTime(Some(s), now) == Midnight(y, m, d)
            && CrawlerDates.ParsePublishTime(Some(s), now) == WithUtc(ParsePublishTime(Some(s), now))
            && |IsoFormat(ParsePublishTime(Some(s), now))| + 6 == |IsoFormat(CrawlerDates.ParsePublishTime(Some(s), now))|
  {
    assert WechatFormats[k] == CrawlerDates.CrawlerFormats[k];
    WechatReadsDate(y, m, d, k, now);
    CrawlerDates.FormatsRoundTrip(y, m, d, k, now);
  }

  /** A date written with one of the three separators is read as that date at midnight. */
  lemma WechatReadsDate(y: nat, m: nat, d: nat, k: nat, now: DateTime)
    requires Valid(now) && now.aware && ValidDate(y, m, d) && k < |WechatFormats|
    ensures var s := ZeroPad(y, 4) + WechatFormats[k] + ZeroPad(m, 2) + WechatFormats[k] + ZeroPad(d, 2);
            ParsePublishTime(Some(s), now) == Midnight(y, m, d)
  {
    var sep := WechatFormats[k];
    Dates.ZeroPadExact(y, 4);
    Dates.ZeroPadExact(m, 2);
    Dates.ZeroPadExact(d, 2);
    var a, b, c := ZeroPad(y, 4), ZeroPad(m, 2), ZeroPad(d, 2);
    CrawlerDates.DigitGroupsDigits(a, b, c, sep);
    WechatFormatPicked(a + sep + b + sep + c, y, m, d, k);
  }

  /** The written-out date is read by its own format, the earlier ones failing. */
  lemma WechatFormatPicked(s: string, y: nat, m: nat, d: nat, k: nat)
    requires ValidDate(y, m, d) && k < |WechatFormats|
    requires s == ZeroPad(y, 4) + WechatFormats[k] + ZeroPad(m, 2) + WechatFormats[k] + ZeroPad(d, 2)
    requires |s| >= 8 && AllDigits(s[..4]) && s[4..5] == WechatFormats[k]
    ensures CrawlerDates.FirstFormat(s, WechatFormats) == Some(Midnight(y, m, d))
  {
    var sep := WechatFormats[k];
    assert |sep| == 1 && sep == CrawlerDates.CrawlerFormats[k];
    Dates.StrptimeIsoDate(y, m, d, sep);
    CrawlerDates.EarlierFormatsFail(s, k);
    forall j | 0 <= j < k
      ensures Dates.Strptime(s, WechatFormats[j]).None?
    {
      assert WechatFormats[j] == CrawlerDates.CrawlerFormats[j];
    }
    CrawlerDates.FirstFormatPicks(s, WechatFormats, k);
  }

  /** Text with a leading blank is not stripped: no format reads it, and the time is `now`. */
  lemma PaddedDateIsNow(s: string, now: DateTime)
    requires Valid(now) && now.aware && s != [] && IsSpace(s[0])
    ensures ParsePublishTime(Some(s), now) == now
  {
    assert !IsDigit(s[0]);
    forall k | 0 <= k < |WechatFormats|
      ensures Dates.Strptime(s, WechatFormats[k]).None?
    {
      NonDigitNoDate(s, WechatFormats[k]);
    }
  }

  /** A date text must open with the year's digits. */
  lemma NonDigitNoDate(s: string, sep: string)
    requires s != [] && !IsDigit(s[0])
    ensures Dates.Strptime(s, sep).None?
  {
    if |s| >= 4 {
      assert s[..4][0] == s[0];
    }
  }

  /** Eight digits are not a date here (there is no `%Y%m%d`): the time is `now`. */
  lemma CompactDateIsNow(s: string, now: DateTime)
    requires Valid(now) && now.aware && |s| == 8 && AllDigits(s)
    ensures ParsePublishTime(Some(s), now) == now
  {
    assert IsDigit(s[4]);
    forall k | 0 <= k < |WechatFormats|
      ensures Dates.Strptime(s, WechatFormats[k]).None?
    {
      assert !Dates.LiteralAt(s, 4, WechatFormats[k]);
    }
  }

  // ---------------------------------------------------------------------
  // extract_text_content
  // ---------------------------------------------------------------------

  /**
   * The text chunks: none without a group or container; the selected
   * nodes with a content selector; the whole container without one.
   */
  function TextChunks(dom: CrawlerDetail.Dom, g: Option<CrawlerDetail.Group>): seq<string>
  {
    if !CrawlerDetail.Present(g) then []
    else match CrawlerDetail.Container(dom, g.value)
      case None => []
      case Some(c) =>
        match CrawlerDetail.Given(g.value, "content")
        case None => [dom.spacedText(c)]
        case Some(sel) => CrawlerDetail.Texts(dom, dom.select(Some(c), sel))
  }

  /** `extract_text_content(soup, selector_cfg)`: the non-empty chunks joined by newlines. */
  function ExtractTextContent(dom: CrawlerDetail.Dom, g: Option<CrawlerDetail.Group>): (r: string)
    ensures !CrawlerDetail.Present(g) ==> r == ""
    ensures CrawlerDetail.Present(g) && CrawlerDetail.Container(dom, g.value).None? ==> r == ""
    ensures r == "" <==> forall i :: 0 <= i < |TextChunks(dom, g)| ==> TextChunks(dom, g)[i] == ""
    ensures TextChunks(dom, g) != [] && TextChunks(dom, g)[0] != "" ==> StartsWith(r, TextChunks(dom, g)[0])
  {
    JoinNonEmptyBlank("\n", TextChunks(dom, g));
    Join("\n", NonEmpty(TextChunks(dom, g)))
  }

  /**
   * Where the crawler's rule for `<p>` nodes does not apply (no group, no
   * container, no content selector, or a container without `<p>` nodes)
   * both extractors give the same text.
   */
  lemma TextAgreesWithoutParagraphs(dom: CrawlerDetail.Dom, g: Option<CrawlerDetail.Group>)
    requires CrawlerDetail.Present(g) && CrawlerDetail.Container(dom, g.value).Some?
             && CrawlerDetail.Given(g.value, "content").Some?
             ==> dom.select(Some(CrawlerDetail.Container(dom, g.value).value), "p") == []
    ensures ExtractTextContent(dom, g) == CrawlerDetail.ExtractTextContent(dom, g)
  {
    assert TextChunks(dom, g) == CrawlerDetail.TextChunks(dom, g);
  }

  /**
   * Where the container has `<p>` nodes, the crawler's text is what this
   * extractor gives with the content selector replaced by "p".
   */
  lemma ParagraphRuleIsSelector(dom: CrawlerDetail.Dom, g: CrawlerDetail.Group)
    requires g != map[] && CrawlerDetail.Container(dom, g).Some? && CrawlerDetail.Given(g, "content").Some?
    requires dom.select(Some(CrawlerDetail.Container(dom, g).value), "p") != []
    ensures CrawlerDetail.ExtractTextContent(dom, Some(g)) == ExtractTextContent(dom, Some(g["content" := "p"]))
  {
    var g2 := g["content" := "p"];
    assert "content" in g2 && CrawlerDetail.Given(g2, "content") == Some("p");
    assert CrawlerDetail.Container(dom, g2) == CrawlerDetail.Container(dom, g);
    assert TextChunks(dom, Some(g2)) == CrawlerDetail.TextChunks(dom, Some(g));
  }

  // ---------------------------------------------------------------------
  // parse_detail_page
  // ---------------------------------------------------------------------

  /** `DETAIL_SELECTORS.get(name)`. */
  function GroupOf(selectors: map<string, CrawlerDetail.Group>, name: string): (r: Option<CrawlerDetail.Group>)
    ensures r.Some? <==> name in selectors
  {
    if name in selectors then Some(selectors[name]) else None
  }

  /**
   * The attachments of a page: pdf links, docx links and the viewer PDF,
   * or the exception the first failing extractor raises; there is no
   * script extractor.
   */
  function PageAttachments(dom: CrawlerDetail.Dom, selectors: map<string, CrawlerDetail.Group>, base: string,
                           headers: map<string, string>, svc: CrawlerDetail.Services)
    : Result<seq<CrawlerDetail.Attachment>, string>
  {
    CrawlerDetail.Then(
      CrawlerDetail.Then(
        CrawlerDetail.FileAttachments(dom, CrawlerDetail.FileLinks(dom, GroupOf(selectors, "pdf_selector")), base, headers, svc, [".pdf"]),
        CrawlerDetail.FileAttachments(dom, CrawlerDetail.FileLinks(dom, GroupOf(selectors, "doc_selector")), base, headers, svc, [".docx"])),
      CrawlerDetail.EmbeddedPdf(dom, GroupOf(selectors, "embedded_pdf_selector"), base, headers, svc))
  }

  /** What `parse_detail_page(html, base_url, headers)` returns for the parsed page `dom`, or the exception it raises. */
  function PageOf(dom: CrawlerDetail.Dom, selectors: map<string, CrawlerDetail.Group>, base: string,
                  headers: map<string, string>, svc: CrawlerDetail.Services, cmd: string): Result<CrawlerDetail.DetailPage, string>
  {
    match PageAttachments(dom, selectors, base, headers, svc)
    case Err(e) => Err(e)
    case Ok(atts) =>
      Ok(CrawlerDetail.DetailPage(
           CrawlerDetail.AggregateContent(ExtractTextContent(dom, GroupOf(selectors, "text_selector")),
                                          CrawlerDetail.ImageTexts(dom, CrawlerDetail.ImageNodes(dom, GroupOf(selectors, "img_selector")),
                                                                   base, headers, svc, cmd),
                                          CrawlerDetail.Snippets(atts)),
           atts))
  }

  /**
   * The crawler's attachments for the same groups are these followed by
   * the PDFs named in scripts: the two variants differ only in that tail.
   */
  lemma CrawlerAddsScriptPdfs(dom: CrawlerDetail.Dom, cfg: CrawlerDetail.DetailConfig, base: string,
                              headers: map<string, string>, svc: CrawlerDetail.Services)
    ensures CrawlerDetail.PageAttachments(dom, cfg, base, headers, svc)
            == CrawlerDetail.Then(
                 PageAttachments(dom, cfg.groups, base, headers, svc),
                 CrawlerDetail.ScriptAttachments(
                   CrawlerDetail.ScriptUrls(dom, CrawlerDetail.ScriptNodes(dom, GroupOf(cfg.groups, "embedded_pdf_selector")),
                                            base, svc.join), headers, svc))
  {
    forall name: string
      ensures CrawlerDetail.GroupOf(cfg, name) == GroupOf(cfg.groups, name)
    {
    }
  }

  /**
   * The attachments of a parsed page start with the PDF links, all PDFs,
   * then the docx links, and end with at most one viewer PDF.
   */
  lemma AttachmentComposition(dom: CrawlerDetail.Dom, selectors: map<string, CrawlerDetail.Group>, base: string,
                              headers: map<string, string>, svc: CrawlerDetail.Services)
    ensures var pdfs := CrawlerDetail.FileAttachments(dom, CrawlerDetail.FileLinks(dom, GroupOf(selectors, "pdf_selector")),
                                                      base, headers, svc, [".pdf"]);
            var docs := CrawlerDetail.FileAttachments(dom, CrawlerDetail.FileLinks(dom, GroupOf(selectors, "doc_selector")),
                                                      base, headers, svc, [".docx"]);
            var atts := PageAttachments(dom, selectors, base, headers, svc);
            atts.Ok? ==>
              pdfs.Ok? && docs.Ok?
              && |pdfs.value| + |docs.value| <= |atts.value| <= |pdfs.value| + |docs.value| + 1
              && atts.value[..|pdfs.value|] == pdfs.value
              && atts.value[|pdfs.value|..|pdfs.value| + |docs.value|] == docs.value
              && forall i :: 0 <= i < |pdfs.value| ==>
                   EndsWith(Lower(atts.value[i].url), ".pdf") && atts.value[i].mimeType == Some(CrawlerDetail.PdfMime)
  {
    var links := CrawlerDetail.FileLinks(dom, GroupOf(selectors, "pdf_selector"));
    var pdfs := CrawlerDetail.FileAttachments(dom, links, base, headers, svc, [".pdf"]);
    var docs := CrawlerDetail.FileAttachments(dom, CrawlerDetail.FileLinks(dom, GroupOf(selectors, "doc_selector")),
                                              base, headers, svc, [".docx"]);
    var viewer := CrawlerDetail.EmbeddedPdf(dom, GroupOf(selectors, "embedded_pdf_selector"), base, headers, svc);
    var atts := PageAttachments(dom, selectors, base, headers, svc);
    if atts.Ok? {
      assert pdfs.Ok? && docs.Ok? && viewer.Ok?;
      assert atts.value == pdfs.value + docs.value + viewer.value;
      CrawlerDetail.PdfLinksArePdfs(dom, links, base, headers, svc);
      ThreeRuns(pdfs.value, docs.value, viewer.value);
      forall i | 0 <= i < |pdfs.value|
        ensures atts.value[i] == pdfs.value[i]
      {
        assert atts.value[..|pdfs.value|][i] == atts.value[i];
      }
    }
  }

  /** The runs `a` and `b` sit in order at the head of `a + b + c`, which is at most `|c|` longer. */
  lemma ThreeRuns(a: seq<CrawlerDetail.Attachment>, b: seq<CrawlerDetail.Attachment>, c: seq<CrawlerDetail.Attachment>)
    ensures |a + b + c| == |a| + |b| + |c|
    ensures (a + b + c)[..|a|] == a && (a + b + c)[|a|..|a| + |b|] == b
  {
    assert (a + b + c)[..|a|] == (a + b)[..|a|];
    assert (a + b + c)[|a|..|a| + |b|] == (a + b)[|a|..];
  }

  /**
   * With OCR off, a parsed page's content is empty exactly when its body
   * text is empty and no attachment carries text.
   */
  lemma PageContentEmpty(dom: CrawlerDetail.Dom, selectors: map<string, CrawlerDetail.Group>, base: string,
                         headers: map<string, string>, svc: CrawlerDetail.Services)
    ensures var p := PageOf(dom, selectors, base, headers, svc, "");
            p.Ok? ==>
              (p.value.content == ""
               <==> (ExtractTextContent(dom, GroupOf(selectors, "text_selector")) == ""
                     && forall i :: 0 <= i < |p.value.attachments| ==>
                          p.value.attachments[i].text.None? || p.value.attachments[i].text.value == ""))
  {
    var p := PageOf(dom, selectors, base, headers, svc, "");
    if p.Ok? {
      CrawlerDetail.OcrOffNoTexts(dom, CrawlerDetail.ImageNodes(dom, GroupOf(selectors, "img_selector")), base, headers, svc);
      CrawlerDetail.SnippetsNonEmpty(p.value.attachments);
      CrawlerDetail.AggregateEmpty(ExtractTextContent(dom, GroupOf(selectors, "text_selector")), [],
                                   CrawlerDetail.Snippets(p.value.attachments));
    }
  }

  /**
   * `parse_detail_page(html, base_url, headers)`: the aggregated content
   * and the attachments, or the exception an extractor raises.
   */
  method ParseDetailPage(html: string, base: string, headers: map<string, string>,
                         selectors: map<string, CrawlerDetail.Group>, soup: string -> CrawlerDetail.Dom,
                         svc: CrawlerDetail.Services, cmd: string) returns (r: Result<CrawlerDetail.DetailPage, string>)
    ensures r == PageOf(soup(html), selectors, base, headers, svc, cmd)
  {
    var dom := soup(html);
    var text := ExtractTextContent(dom, GroupOf(selectors, "text_selector"));
    var images := CrawlerDetail.ExtractImageTexts(dom, GroupOf(selectors, "img_selector"), base, headers, svc, cmd);
    var pdfs := CrawlerDetail.ExtractFileTexts(dom, GroupOf(selectors, "pdf_selector"), base, headers, svc, [".pdf"]);
    if pdfs.Err? {
      return Err(pdfs.error);
    }
    var docs := CrawlerDetail.ExtractFileTexts(dom, GroupOf(selectors, "doc_selector"), base, headers, svc, [".docx"]);
    if docs.Err? {
      return Err(docs.error);
    }
    var viewer := CrawlerDetail.EmbeddedPdf(dom, GroupOf(selectors, "embedded_pdf_selector"), base, headers, svc);
    if viewer.Err? {
      return Err(viewer.error);
    }
    var attachments := pdfs.value + docs.value + viewer.value;
    r := Ok(CrawlerDetail.DetailPage(CrawlerDetail.AggregateContent(text, images, CrawlerDetail.Snippets(attachments)),
                                     attachments));
  }

  // ---------------------------------------------------------------------
  // The pagination loop of crawl_source
  // ---------------------------------------------------------------------

  /** What fetching and parsing one list page gives. */
  function ListPage(url: string, src: Source, env: Env): PageOutcome
  {
    match Outcome(env.getHtml(url, src.headers), env.retries)
    case None => PageSkipped
    case Some(html) =>
      match ParseList(env.soup(html), src.selectors, src.baseUrl, env.svc.join)
      case Ok(es) => PageListed(es)
      case Err(e) => PageRaised(e)
  }

  /** The outcomes of the list pages at `urls`, in order. */
  function ListPagesOf(urls: seq<string>, src: Source, env: Env): (r: seq<PageOutcome>)
    ensures |r| == |urls| && forall i :: 0 <= i < |urls| ==> r[i] == ListPage(urls[i], src, env)
  {
    if urls == [] then [] else ListPagesOf(urls[..|urls| - 1], src, env) + [ListPage(urls[|urls| - 1], src, env)]
  }

  /** The outcomes of every generated list page of a source. */
  function Pages(src: Source, env: Env): seq<PageOutcome>
  {
    ListPagesOf(ListUrls(src.listUrl, MaxPages(src)), src, env)
  }

  /**
   * The entries the loop collects: failed fetches are passed over, every
   * parsed page (empty or not) is added, an exception ends the crawl.
   */
  function Gather(pages: seq<PageOutcome>): (r: Result<seq<Entry>, string>)
  {
    if pages == [] then Ok([])
    else match pages[0]
      case PageSkipped => Gather(pages[1..])
      case PageRaised(e) => Err(e)
      case PageListed(es) => Prepend(es, Gather(pages[1..]))
  }

  /**
   * The loop fails exactly when some page raised, with the first such
   * page's exception, and otherwise yields the entries of all pages.
   */
  lemma {:induction false} GatherListed(pages: seq<PageOutcome>)
    ensures Gather(pages).Ok? <==> forall i :: 0 <= i < |pages| ==> !pages[i].PageRaised?
    ensures Gather(pages).Ok? ==> Gather(pages).value == Listed(pages)
    ensures Gather(pages).Err? ==> exists i :: 0 <= i < |pages| && pages[i] == PageRaised(Gather(pages).error)
                                               && forall j :: 0 <= j < i ==> !pages[j].PageRaised?
  {
    if pages != [] {
      GatherListed(pages[1..]);
      ListedFirst(pages);
      assert forall i :: 1 <= i < |pages| ==> pages[i] == pages[1..][i - 1];
      match pages[0]
      case PageSkipped =>
        if Gather(pages).Err? {
          var i :| 0 <= i < |pages[1..]| && pages[1..][i] == PageRaised(Gather(pages).error)
                   && forall j :: 0 <= j < i ==> !pages[1..][j].PageRaised?;
          assert pages[i + 1] == PageRaised(Gather(pages).error);
        }
      case PageRaised(e) =>
        assert pages[0] == PageRaised(Gather(pages).error);
      case PageListed(es) =>
        if Gather(pages).Err? {
          var i :| 0 <= i < |pages[1..]| && pages[1..][i] == PageRaised(Gather(pages).error)
                   && forall j :: 0 <= j < i ==> !pages[1..][j].PageRaised?;
          assert pages[i + 1] == PageRaised(Gather(pages).error);
        }
    }
  }

  /** An empty page does not stop the loop: the pages after it are still collected. */
  lemma {:induction false} EmptyPageContinues(ps: seq<PageOutcome>, qs: seq<PageOutcome>)
    ensures Gather(ps + [PageListed([])] + qs) == Gather(ps + qs)
  {
    if ps == [] {
      assert ps + [PageListed([])] + qs == [PageListed([])] + qs;
      assert ([PageListed([])] + qs)[0] == PageListed([]) && ([PageListed([])] + qs)[1..] == qs;
      assert ps + qs == qs;
      PrependNothing(Gather(qs));
    } else {
      EmptyPageContinues(ps[1..], qs);
      assert (ps + [PageListed([])] + qs)[1..] == ps[1..] + [PageListed([])] + qs;
      assert (ps + qs)[1..] == ps[1..] + qs;
      assert (ps + [PageListed([])] + qs)[0] == ps[0] && (ps + qs)[0] == ps[0];
    }
  }

  /** Where no page is empty or raises, this loop collects what the crawler's stopping loop collects. */
  lemma GatherAgreesWithCollect(pages: seq<PageOutcome>)
    requires forall i :: 0 <= i < |pages| ==> Continues(pages[i])
    ensures Gather(pages) == Collect(pages)
  {
    GatherListed(pages);
    CollectPrefix(pages, []);
    assert pages + [] == pages;
    assert Listed(pages) + [] == Listed(pages);
  }

  /** One step of `Gather` over the pages from `i` on. */
  lemma GatherStep(pages: seq<PageOutcome>, i: nat)
    requires i < |pages|
    ensures Gather(pages[i..]) == match pages[i]
                                  case PageSkipped => Gather(pages[i + 1..])
                                  case PageRaised(e) => Err(e)
                                  case PageListed(es) => Prepend(es, Gather(pages[i + 1..]))
  {
    assert pages[i..][0] == pages[i] && pages[i..][1..] == pages[i + 1..];
  }

  /** Fetch and parse one list page with the source's headers. */
  method FetchListPage(url: string, src: Source, env: Env) returns (p: PageOutcome)
    ensures p == ListPage(url, src, env)
  {
    var html := FetchHtml(url, env.getHtml(url, src.headers), env.retries);
    if html.Err? {
      return PageSkipped;
    }
    var parsed := ParseList(env.soup(html.value), src.selectors, src.baseUrl, env.svc.join);
    p := if parsed.Ok? then PageListed(parsed.value) else PageRaised(parsed.error);
  }

  /** The list loop of `crawl_source`: every generated page, in order. */
  method CollectEntries(src: Source, env: Env) returns (r: Result<seq<Entry>, string>)
    ensures r == Gather(Pages(src, env))
  {
    var urls := BuildPaginatedUrls(src.listUrl, MaxPages(src));
    assert urls == ListUrls(src.listUrl, MaxPages(src));
    r := CollectPages(urls, src, env);
  }

  /** The loop over the list page URLs: fetch each in turn, passing over failed fetches and stopping at an exception. */
  method CollectPages(urls: seq<string>, src: Source, env: Env) returns (r: Result<seq<Entry>, string>)
    ensures r == Gather(ListPagesOf(urls, src, env))
  {
    var entries: seq<Entry> := [];
    ghost var pages := ListPagesOf(urls, src, env);
    var i := 0;
    assert pages[0..] == pages;
    PrependNothing(Gather(pages));
    while i < |urls|
      invariant 0 <= i <= |urls|
      invariant Gather(pages) == Prepend(entries, Gather(pages[i..]))
    {
      var p := FetchListPage(urls[i], src, env);
      assert p == pages[i];
      GatherStep(pages, i);
      if p.PageRaised? {
        return Err(p.error);
      }
      if p.PageListed? {
        PrependTwice(entries, p.entries, Gather(pages[i + 1..]));
        entries := entries + p.entries;
      }
      i := i + 1;
    }
    assert pages[i..] == [] && entries + [] == entries;
    r := Ok(entries);
  }
}

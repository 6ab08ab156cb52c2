/**
 * Detail-page parsing of the crawler: the body text, OCR of images, file
 * attachments (direct links, a PDF viewer iframe, a PDF named in a script),
 * the attachment snippets and the aggregated content. BeautifulSoup is
 * opaque: a `Dom` answers the selector queries; downloads, PDF/DOCX text,
 * OCR, `urljoin` and percent-decoding are the functions of `Services`.
 */
module CrawlerDetail {
  import opened Wrappers
  import opened Text
  import opened CrawlerUrls
  import CrawlerConfig
  import Base64

  type Bytes = seq<Base64.Byte>

  /** A handle on one element of a parsed page. */
  type Node = nat

  /**
   * What a parsed page answers. A scope of None is the whole document.
   * `spacedText` is `get_text(" ", strip=True)`, `strippedText` is
   * `get_text(strip=True)`, `attr` is `tag.get(name)` and `scriptText` is
   * `s.string or s.get_text() or ""`.
   */
  datatype Dom = Dom(
    selectOne: (Option<Node>, string) -> Option<Node>,
    select: (Option<Node>, string) -> seq<Node>,
    spacedText: Node -> string,
    strippedText: Node -> string,
    attr: (Node, string) -> Option<string>,
    scriptText: Node -> string)

  /**
   * The foreign functions: `urljoin`, the result of `download_binary(url,
   * headers)`, the text PyPDF2 and python-docx extract or the exception
   * they raise, the OCR engine, `urllib.parse.unquote`, and whether
   * pydantic's `HttpUrl` accepts a URL.
   */
  datatype Services = Services(
    join: (string, string) -> string,
    download: (string, map<string, string>) -> Option<Bytes>,
    pdfText: Bytes -> Result<string, string>,
    docxText: Bytes -> Result<string, string>,
    ocr: Bytes -> string,
    unquote: string -> string,
    validUrl: string -> bool)

  /** One selector group of the detail configuration, such as `text_selector`. */
  type Group = map<string, string>

  /** `Attachments(url, filename, mime_type, text)`. */
  datatype Attachment = Attachment(url: string, filename: Option<string>, mimeType: Option<string>, text: Option<string>)

  const PdfMime: string := "application/pdf"
  const DocxMime: string := "application/vnd.openxmlformats-officedocument.wordprocessingml.document"

  /** `if not selector_cfg`: a missing or empty group. */
  predicate Present(g: Option<Group>)
  {
    g.Some? && g.value != map[]
  }

  /** `selector_cfg.get(key)` when it is truthy. */
  function Given(g: Group, key: string): (r: Option<string>)
    ensures r.Some? <==> key in g && g[key] != ""
    ensures r.Some? ==> r.value == g[key]
  {
    if key in g && g[key] != "" then Some(g[key]) else None
  }

  /** `soup.select_one(selector_cfg.get("item_container", ""))`. */
  function Container(dom: Dom, g: Group): Option<Node>
  {
    dom.selectOne(None, if "item_container" in g then g["item_container"] else "")
  }

  /** `tag.get(name)` passed to `normalize_url`. */
  function AttrValue(v: Option<string>): UrlValue
  {
    if v.Some? then Str(v.value) else NoValue
  }

  // ---------------------------------------------------------------------
  // extract_text_content
  // ---------------------------------------------------------------------

  /** The spaced texts of `nodes` (every tag is truthy). */
  function Texts(dom: Dom, nodes: seq<Node>): (r: seq<string>)
    ensures |r| == |nodes| && forall i :: 0 <= i < |nodes| ==> r[i] == dom.spacedText(nodes[i])
  {
    if nodes == [] then [] else [dom.spacedText(nodes[0])] + Texts(dom, nodes[1..])
  }

  /**
   * The text chunks: none without a group or container; with a content
   * selector the `<p>` nodes if there are any, else the selected nodes;
   * without one the whole container.
   */
  function TextChunks(dom: Dom, g: Option<Group>): seq<string>
  {
    if !Present(g) then []
    else match Container(dom, g.value)
      case None => []
      case Some(c) =>
        match Given(g.value, "content")
        case None => [dom.spacedText(c)]
        case Some(sel) =>
          var ps := dom.select(Some(c), "p");
          if ps != [] then Texts(dom, ps) else Texts(dom, dom.select(Some(c), sel))
  }

  /** `extract_text_content(soup, selector_cfg)`: the non-empty chunks joined by newlines. */
  function ExtractTextContent(dom: Dom, g: Option<Group>): (r: string)
    ensures !Present(g) ==> r == ""
    ensures r == "" <==> forall i :: 0 <= i < |TextChunks(dom, g)| ==> TextChunks(dom, g)[i] == ""
    ensures TextChunks(dom, g) != [] && TextChunks(dom, g)[0] != "" ==> StartsWith(r, TextChunks(dom, g)[0])
  {
    JoinNonEmptyBlank("\n", TextChunks(dom, g));
    Join("\n", NonEmpty(TextChunks(dom, g)))
  }

  /** When the container has `<p>` nodes the content selector is not consulted. */
  lemma ParagraphsPreferred(dom: Dom, g: Group, other: string)
    requires g != map[] && Container(dom, g).Some? && Given(g, "content").Some? && other != ""
    requires dom.select(Some(Container(dom, g).value), "p") != []
    ensures ExtractTextContent(dom, Some(g)) == ExtractTextContent(dom, Some(g["content" := other]))
  {
    var g2 := g["content" := other];
    assert "content" in g2;
    assert Container(dom, g2) == Container(dom, g);
  }

  /** Without a content selector the text is the whole container's text. */
  lemma WholeContainerText(dom: Dom, g: Group)
    requires g != map[] && Container(dom, g).Some? && Given(g, "content").None?
    ensures ExtractTextContent(dom, Some(g)) == dom.spacedText(Container(dom, g).value)
  {
  }

  // ---------------------------------------------------------------------
  // perform_ocr_from_url and extract_image_texts
  // ---------------------------------------------------------------------

  /** `perform_ocr_from_url(url, headers)` with tesseract command `cmd`. */
  function PerformOcr(cmd: string, url: string, headers: map<string, string>, svc: Services): (r: string)
    ensures cmd == "" ==> r == ""
  {
    if cmd == "" then ""
    else match svc.download(url, headers)
      case None => ""
      case Some(b) => if b == [] then "" else Strip(svc.ocr(b))
  }

  /** The image nodes `extract_image_texts` visits. */
  function ImageNodes(dom: Dom, g: Option<Group>): seq<Node>
  {
    if !Present(g) then []
    else match Container(dom, g.value)
      case None => []
      case Some(c) =>
        match Given(g.value, "images")
        case None => []
        case Some(sel) => dom.select(Some(c), sel)
  }

  /** The OCR text of one image, None when its `src` is blank or the text is empty. */
  function ImageText(dom: Dom, img: Node, base: string, headers: map<string, string>, svc: Services, cmd: string): Option<string>
  {
    match NormalizeUrl(base, AttrValue(dom.attr(img, "src")), svc.join)
    case None => None
    case Some(src) =>
      var t := PerformOcr(cmd, src, headers, svc);
      if t == "" then None else Some(t)
  }

  /** The OCR texts of `imgs`, in order. */
  function ImageTexts(dom: Dom, imgs: seq<Node>, base: string, headers: map<string, string>, svc: Services, cmd: string): (r: seq<string>)
    ensures |r| <= |imgs|
  {
    if imgs == [] then []
    else
      var last := ImageText(dom, imgs[|imgs| - 1], base, headers, svc, cmd);
      ImageTexts(dom, imgs[..|imgs| - 1], base, headers, svc, cmd) + (if last.Some? then [last.value] else [])
  }

  /** Only non-empty OCR texts are kept. */
  lemma {:induction false} ImageTextsNonEmpty(dom: Dom, imgs: seq<Node>, base: string, headers: map<string, string>, svc: Services, cmd: string)
    ensures forall i :: 0 <= i < |ImageTexts(dom, imgs, base, headers, svc, cmd)| ==> ImageTexts(dom, imgs, base, headers, svc, cmd)[i] != ""
  {
    if imgs != [] {
      ImageTextsNonEmpty(dom, imgs[..|imgs| - 1], base, headers, svc, cmd);
    }
  }

  /** With OCR switched off (an empty command) no image gives text. */
  lemma {:induction false} OcrOffNoTexts(dom: Dom, imgs: seq<Node>, base: string, headers: map<string, string>, svc: Services)
    ensures ImageTexts(dom, imgs, base, headers, svc, "") == []
  {
    if imgs != [] {
      OcrOffNoTexts(dom, imgs[..|imgs| - 1], base, headers, svc);
    }
  }

  /** Visiting one more image appends its text, if any. */
  lemma ImageTextsSnoc(dom: Dom, imgs: seq<Node>, base: string, headers: map<string, string>, svc: Services, cmd: string)
    requires imgs != []
    ensures var last := ImageText(dom, imgs[|imgs| - 1], base, headers, svc, cmd);
            ImageTexts(dom, imgs, base, headers, svc, cmd)
            == ImageTexts(dom, imgs[..|imgs| - 1], base, headers, svc, cmd) + (if last.Some? then [last.value] else [])
  {
  }

  /** Visiting the image at `i` appends its text, if any, to those of the images before it. */
  lemma ImageTextsStep(dom: Dom, imgs: seq<Node>, i: nat, base: string, headers: map<string, string>, svc: Services, cmd: string)
    requires i < |imgs|
    ensures var t := ImageText(dom, imgs[i], base, headers, svc, cmd);
            ImageTexts(dom, imgs[..i + 1], base, headers, svc, cmd)
            == ImageTexts(dom, imgs[..i], base, headers, svc, cmd) + (if t.Some? then [t.value] else [])
  {
    assert imgs[..i + 1][..i] == imgs[..i];
    assert imgs[..i + 1][i] == imgs[i];
    ImageTextsSnoc(dom, imgs[..i + 1], base, headers, svc, cmd);
  }

  /** `extract_image_texts(soup, selector_cfg, base_url, headers)`. */
  method ExtractImageTexts(dom: Dom, g: Option<Group>, base: string, headers: map<string, string>, svc: Services, cmd: string)
    returns (texts: seq<string>)
    ensures texts == ImageTexts(dom, ImageNodes(dom, g), base, headers, svc, cmd)
  {
    texts := OcrImages(dom, ImageNodes(dom, g), base, headers, svc, cmd);
  }

  /** The loop of `extract_image_texts` over the selected images, in document order. */
  method OcrImages(dom: Dom, imgs: seq<Node>, base: string, headers: map<string, string>, svc: Services, cmd: string)
    returns (texts: seq<string>)
    ensures texts == ImageTexts(dom, imgs, base, headers, svc, cmd)
  {
    texts := [];
    var i := 0;
    while i < |imgs|
      invariant 0 <= i <= |imgs|
      invariant texts == ImageTexts(dom, imgs[..i], base, headers, svc, cmd)
    {
      texts := NextImageText(dom, imgs, i, base, headers, svc, cmd, texts);
      i := i + 1;
    }
    assert imgs[..i] == imgs;
  }

  /** One turn of the loop of `extract_image_texts`: OCR the image at `i` and keep its text, if any. */
  method NextImageText(dom: Dom, imgs: seq<Node>, i: nat, base: string, headers: map<string, string>, svc: Services,
                       cmd: string, texts: seq<string>)
    returns (texts': seq<string>)
    requires i < |imgs| && texts == ImageTexts(dom, imgs[..i], base, headers, svc, cmd)
    ensures texts' == ImageTexts(dom, imgs[..i + 1], base, headers, svc, cmd)
  {
    ImageTextsStep(dom, imgs, i, base, headers, svc, cmd);
    var t := ImageText(dom, imgs[i], base, headers, svc, cmd);
    texts' := texts;
    if t.Some? {
      texts' := texts + [t.value];
    }
  }

  // ---------------------------------------------------------------------
  // extract_file_texts
  // ---------------------------------------------------------------------

  /** `s.endswith(exts)` for a tuple of suffixes. */
  predicate EndsWithAny(s: string, exts: seq<string>)
  {
    exists k :: 0 <= k < |exts| && EndsWith(s, exts[k])
  }

  /**
   * What every file attachment satisfies: an allowed extension, a non-empty
   * name, a text, and the MIME type of its extension (`.pdf`, else `.docx`).
   */
  predicate FileShaped(a: Attachment, exts: seq<string>)
  {
    EndsWithAny(Lower(a.url), exts) && a.filename.Some? && a.filename.value != "" && a.text.Some?
    && (EndsWith(Lower(a.url), ".pdf") ==> a.mimeType == Some(PdfMime))
    && (!EndsWith(Lower(a.url), ".pdf") ==> EndsWith(Lower(a.url), ".docx") && a.mimeType == Some(DocxMime))
  }

  /** The links `extract_file_texts` visits. */
  function FileLinks(dom: Dom, g: Option<Group>): seq<Node>
  {
    if !Present(g) then []
    else match Container(dom, g.value)
      case None => []
      case Some(c) =>
        match Given(g.value, "files")
        case None => []
        case Some(sel) => dom.select(Some(c), sel)
  }

  const InvalidUrl: string := "ValidationError: url is not a valid HTTP URL"

  /**
   * `Attachments(url=url, filename=..., mime_type=..., text=text)` once the
   * text is extracted: the parser's exception propagates first, then
   * pydantic rejects a URL that is not an HTTP URL.
   */
  function Built(url: string, filename: string, mime: string, text: Result<string, string>, svc: Services)
    : (r: Result<Attachment, string>)
    ensures r.Ok? <==> text.Ok? && svc.validUrl(url)
    ensures text.Err? ==> r == Err(text.error)
    ensures r.Ok? ==> r.value == Attachment(url, Some(filename), Some(mime), Some(text.value))
  {
    match text
    case Err(e) => Err(e)
    case Ok(t) => if svc.validUrl(url) then Ok(Attachment(url, Some(filename), Some(mime), Some(t))) else Err(InvalidUrl)
  }

  /**
   * What one link gives: nothing for a blank link or a URL without an
   * allowed extension, otherwise what its file gives.
   */
  function FileAttachment(dom: Dom, link: Node, base: string, headers: map<string, string>, svc: Services,
                          exts: seq<string>): (r: Result<Option<Attachment>, string>)
    ensures r.Ok? && r.value.Some? ==> FileShaped(r.value.value, exts) && svc.validUrl(r.value.value.url)
    ensures r.Ok? && r.value.Some? ==> LinkUrl(dom, link, base, svc) == Some(r.value.value.url)
                                       && r.value.value.filename == Some(OrElse(Some(dom.strippedText(link)), "attachment"))
  {
    match LinkUrl(dom, link, base, svc)
    case None => Ok(None)
    case Some(u) =>
      if !EndsWithAny(Lower(u), exts) then Ok(None)
      else LinkedFile(u, OrElse(Some(dom.strippedText(link)), "attachment"), headers, svc, exts)
  }

  /** `normalize_url(base_url, link)` for a file link. */
  function LinkUrl(dom: Dom, link: Node, base: string, svc: Services): Option<string>
  {
    NormalizeUrl(base, Element(dom.attr(link, "href"), dom.attr(link, "src")), svc.join)
  }

  /**
   * What the file at `u`, with an allowed extension, gives: nothing for a
   * failed or empty download or an extension that is neither `.pdf` nor
   * `.docx`; otherwise the attachment named `name`, or the exception
   * parsing or validating it raises.
   */
  function LinkedFile(u: string, name: string, headers: map<string, string>, svc: Services, exts: seq<string>)
    : (r: Result<Option<Attachment>, string>)
    requires EndsWithAny(Lower(u), exts) && name != ""
    ensures r.Ok? && r.value.Some? ==> FileShaped(r.value.value, exts) && svc.validUrl(r.value.value.url)
                                       && r.value.value.url == u && r.value.value.filename == Some(name)
  {
    match svc.download(u, headers)
    case None => Ok(None)
    case Some(b) =>
      if b == [] then Ok(None)
      else if EndsWith(Lower(u), ".pdf") then Lift(Built(u, name, PdfMime, svc.pdfText(b), svc))
      else if EndsWith(Lower(u), ".docx") then Lift(Built(u, name, DocxMime, svc.docxText(b), svc))
      else Ok(None)
  }

  /** A built attachment as a link's outcome. */
  function Lift(r: Result<Attachment, string>): Result<Option<Attachment>, string>
  {
    match r
    case Err(e) => Err(e)
    case Ok(a) => Ok(Some(a))
  }

  /** What each of `links` gives, in link order. */
  function FileOutcomes(dom: Dom, links: seq<Node>, base: string, headers: map<string, string>, svc: Services,
                        exts: seq<string>): (r: seq<Result<Option<Attachment>, string>>)
    ensures |r| == |links|
    ensures forall i :: 0 <= i < |links| ==> r[i] == FileAttachment(dom, links[i], base, headers, svc, exts)
  {
    seq(|links|, i requires 0 <= i < |links| => FileAttachment(dom, links[i], base, headers, svc, exts))
  }

  /**
   * The loop of `extract_file_texts` over per-link outcomes: the
   * attachments in order, or the first exception raised.
   */
  function Collected(outcomes: seq<Result<Option<Attachment>, string>>): (r: Result<seq<Attachment>, string>)
    ensures r.Ok? ==> |r.value| <= |outcomes|
  {
    if outcomes == [] then Ok([])
    else
      match Collected(outcomes[..|outcomes| - 1])
      case Err(e) => Err(e)
      case Ok(prev) =>
        match outcomes[|outcomes| - 1]
        case Err(e) => Err(e)
        case Ok(None) => Ok(prev)
        case Ok(Some(a)) => Ok(prev + [a])
  }

  /** The attachments of `links`, in link order, or the first exception one of them raises. */
  function FileAttachments(dom: Dom, links: seq<Node>, base: string, headers: map<string, string>, svc: Services,
                           exts: seq<string>): (r: Result<seq<Attachment>, string>)
    ensures r.Ok? ==> |r.value| <= |links|
  {
    Collected(FileOutcomes(dom, links, base, headers, svc, exts))
  }

  /** The outcomes succeed together: the list is collected exactly when no outcome is an exception. */
  lemma {:induction false} CollectedOk(outcomes: seq<Result<Option<Attachment>, string>>)
    ensures Collected(outcomes).Ok? <==> forall k :: 0 <= k < |outcomes| ==> outcomes[k].Ok?
  {
    if outcomes != [] {
      var init := outcomes[..|outcomes| - 1];
      CollectedOk(init);
      assert forall k :: 0 <= k < |init| ==> init[k] == outcomes[k];
    }
  }

  /** Every collected attachment is one an outcome gave, so whatever holds of those holds of the list. */
  lemma {:induction false} CollectedAll(outcomes: seq<Result<Option<Attachment>, string>>, p: Attachment -> bool)
    requires forall k :: 0 <= k < |outcomes| && outcomes[k].Ok? && outcomes[k].value.Some? ==> p(outcomes[k].value.value)
    ensures Collected(outcomes).Ok? ==> forall i :: 0 <= i < |Collected(outcomes).value| ==> p(Collected(outcomes).value[i])
  {
    if outcomes != [] {
      var init := outcomes[..|outcomes| - 1];
      assert forall k :: 0 <= k < |init| ==> init[k] == outcomes[k];
      CollectedAll(init, p);
    }
  }

  /** Once a prefix of the outcomes holds an exception, the later outcomes change nothing. */
  lemma {:induction false} CollectedErrorSticks(outcomes: seq<Result<Option<Attachment>, string>>, n: nat)
    requires n <= |outcomes| && Collected(outcomes[..n]).Err?
    ensures Collected(outcomes) == Collected(outcomes[..n])
    decreases |outcomes|
  {
    if n == |outcomes| {
      assert outcomes[..n] == outcomes;
    } else {
      var init := outcomes[..|outcomes| - 1];
      assert init[..n] == outcomes[..n];
      CollectedErrorSticks(init, n);
    }
  }

  /** The exception collected is that of the first outcome that is one. */
  lemma FirstErrorCollected(outcomes: seq<Result<Option<Attachment>, string>>, k: nat)
    requires k < |outcomes| && outcomes[k].Err?
    requires forall j :: 0 <= j < k ==> outcomes[j].Ok?
    ensures Collected(outcomes) == Err(outcomes[k].error)
  {
    var prefix := outcomes[..k + 1];
    assert prefix[..k] == outcomes[..k];
    CollectedOk(outcomes[..k]);
    CollectedErrorSticks(outcomes, k + 1);
  }

  /** Every attachment `extract_file_texts` returns has the shape of its extension and a valid URL. */
  lemma FileAttachmentsShaped(dom: Dom, links: seq<Node>, base: string, headers: map<string, string>,
                              svc: Services, exts: seq<string>)
    ensures var r := FileAttachments(dom, links, base, headers, svc, exts);
            r.Ok? ==> forall i :: 0 <= i < |r.value| ==> FileShaped(r.value[i], exts) && svc.validUrl(r.value[i].url)
  {
    var outcomes := FileOutcomes(dom, links, base, headers, svc, exts);
    CollectedAll(outcomes, a => FileShaped(a, exts) && svc.validUrl(a.url));
  }

  /** The links succeed together: the list is returned exactly when no link raises. */
  lemma FileAttachmentsOk(dom: Dom, links: seq<Node>, base: string, headers: map<string, string>,
                          svc: Services, exts: seq<string>)
    ensures FileAttachments(dom, links, base, headers, svc, exts).Ok?
            <==> forall k :: 0 <= k < |links| ==> FileAttachment(dom, links[k], base, headers, svc, exts).Ok?
  {
    CollectedOk(FileOutcomes(dom, links, base, headers, svc, exts));
  }

  /** The exception `extract_file_texts` raises is that of the first link that raises. */
  lemma FirstFileErrorRaised(dom: Dom, links: seq<Node>, k: nat, base: string, headers: map<string, string>,
                             svc: Services, exts: seq<string>)
    requires k < |links| && FileAttachment(dom, links[k], base, headers, svc, exts).Err?
    requires forall j :: 0 <= j < k ==> FileAttachment(dom, links[j], base, headers, svc, exts).Ok?
    ensures FileAttachments(dom, links, base, headers, svc, exts) == Err(FileAttachment(dom, links[k], base, headers, svc, exts).error)
  {
    FirstErrorCollected(FileOutcomes(dom, links, base, headers, svc, exts), k);
  }

  /**
   * A PDF link that downloads: a parser exception is raised, and a parsed
   * file becomes an attachment exactly when its URL validates.
   */
  lemma PdfLinkOutcome(dom: Dom, link: Node, u: string, b: Bytes, base: string, headers: map<string, string>,
                       svc: Services, exts: seq<string>)
    requires LinkUrl(dom, link, base, svc) == Some(u)
    requires EndsWithAny(Lower(u), exts) && EndsWith(Lower(u), ".pdf")
    requires svc.download(u, headers) == Some(b) && b != []
    ensures var r := FileAttachment(dom, link, base, headers, svc, exts);
            (svc.pdfText(b).Err? ==> r == Err(svc.pdfText(b).error))
            && (svc.pdfText(b).Ok? ==> (r.Ok? <==> svc.validUrl(u)))
            && (r.Ok? ==> r.value.Some? && r.value.value.text == Some(svc.pdfText(b).value))
  {
  }

  /** A link whose download fails contributes nothing. */
  lemma FailedDownloadSkipped(dom: Dom, link: Node, base: string, headers: map<string, string>, svc: Services, exts: seq<string>)
    requires LinkUrl(dom, link, base, svc).Some?
    requires svc.download(LinkUrl(dom, link, base, svc).value, headers).None?
    ensures FileAttachment(dom, link, base, headers, svc, exts) == Ok(None)
  {
  }

  /** One more outcome either extends the collected list or, as an exception, replaces it. */
  lemma CollectedStep(outcomes: seq<Result<Option<Attachment>, string>>, i: nat)
    requires i < |outcomes| && Collected(outcomes[..i]).Ok?
    ensures outcomes[i].Err? ==> Collected(outcomes[..i + 1]) == Err(outcomes[i].error)
    ensures outcomes[i] == Ok(None) ==> Collected(outcomes[..i + 1]) == Collected(outcomes[..i])
    ensures outcomes[i].Ok? && outcomes[i].value.Some? ==>
              Collected(outcomes[..i + 1]) == Ok(Collected(outcomes[..i]).value + [outcomes[i].value.value])
  {
    assert outcomes[..i + 1][..i] == outcomes[..i];
  }

  /** `extract_file_texts(soup, selector_cfg, base_url, headers, allowed_ext)`. */
  method ExtractFileTexts(dom: Dom, g: Option<Group>, base: string, headers: map<string, string>, svc: Services,
                          exts: seq<string>) returns (r: Result<seq<Attachment>, string>)
    ensures r == FileAttachments(dom, FileLinks(dom, g), base, headers, svc, exts)
  {
    var links := FileLinks(dom, g);
    r := CollectFiles(FileOutcomes(dom, links, base, headers, svc, exts));
  }

  /** The loop of `extract_file_texts` over the selected links: it stops at the first exception. */
  method CollectFiles(outcomes: seq<Result<Option<Attachment>, string>>) returns (r: Result<seq<Attachment>, string>)
    ensures r == Collected(outcomes)
  {
    var attachments := [];
    var i := 0;
    while i < |outcomes|
      invariant 0 <= i <= |outcomes|
      invariant Collected(outcomes[..i]) == Ok(attachments)
    {
      var a := outcomes[i];
      CollectedStep(outcomes, i);
      if a.Err? {
        CollectedErrorSticks(outcomes, i + 1);
        return Err(a.error);
      }
      if a.value.Some? {
        attachments := attachments + [a.value.value];
      }
      i := i + 1;
    }
    assert outcomes[..i] == outcomes;
    r := Ok(attachments);
  }

  // ---------------------------------------------------------------------
  // extract_embedded_pdf_attachment
  // ---------------------------------------------------------------------

  /** `urlparse(url).query`: between the first `?` and the fragment. */
  function QueryOf(url: string): (r: string)
    ensures '#' !in r
  {
    var u := RemoveUnsafe(LStripC0(url));
    var beforeFragment := match Find(u, '#') case Some(i) => u[..i] case None => u;
    match Find(beforeFragment, '?')
    case Some(j) => beforeFragment[j + 1..]
    case None => ""
  }

  /** `s.replace("+", " ")`. */
  function PlusToSpace(s: string): (r: string)
    ensures |r| == |s| && '+' !in r
  {
    if s == [] then [] else [if s[0] == '+' then ' ' else s[0]] + PlusToSpace(s[1..])
  }

  /**
   * `parse_qs(query).get("file")[0]`: the value of the first `name=value`
   * piece with a non-empty value whose decoded name is "file".
   */
  function FileParam(pieces: seq<string>, unquote: string -> string): (r: Option<string>)
  {
    if pieces == [] then None
    else match Find(pieces[0], '=')
      case Some(k) =>
        var name := unquote(PlusToSpace(pieces[0][..k]));
        var value := pieces[0][k + 1..];
        if value != "" && name == "file" then Some(unquote(PlusToSpace(value)))
        else FileParam(pieces[1..], unquote)
      case None => FileParam(pieces[1..], unquote)
  }

  /** A viewer query holding only `file=v` yields the decoded `v`. */
  lemma ViewerFileParam(v: string, unquote: string -> string)
    requires v != "" && '&' !in v && unquote("file") == "file"
    ensures FileParam(Split("file=" + v, '&'), unquote) == Some(unquote(PlusToSpace(v)))
  {
    var q := "file=" + v;
    SplitWithout(q, '&');
    FileNameEnds(v);
    assert q[..4] == "file" && q[5..] == v;
    FileParamSingle(q, 4, unquote);
  }

  /** In "file=" + v the first '=' is at 4, and "file" has no '+' to decode. */
  lemma FileNameEnds(v: string)
    ensures Find("file=" + v, '=') == Some(4) && PlusToSpace("file") == "file"
  {
    var q := "file=" + v;
    assert q[4] == '=' && q[..4] == "file";
  }

  /** A lone piece whose decoded name is "file" and whose value is not empty gives that value. */
  lemma FileParamSingle(piece: string, k: nat, unquote: string -> string)
    requires Find(piece, '=') == Some(k) && k < |piece| && piece[k + 1..] != ""
    requires unquote(PlusToSpace(piece[..k])) == "file"
    ensures FileParam([piece], unquote) == Some(unquote(PlusToSpace(piece[k + 1..])))
  {
  }

  /** A text without the separator splits into itself. */
  lemma {:induction false} SplitWithout(s: string, c: char)
    requires c !in s
    ensures Split(s, c) == [s]
  {
    if s != [] {
      SplitWithout(s[1..], c);
      assert s == [s[0]] + s[1..];
    }
  }

  /** The PDF URL the viewer iframe names in its `file` query parameter, resolved against the base. */
  function ViewerPdfUrl(dom: Dom, g: Option<Group>, base: string, svc: Services): (r: Option<string>)
  {
    if !Present(g) then None
    else match Given(g.value, "viewer")
      case None => None
      case Some(viewer) =>
        match dom.selectOne(None, viewer)
        case None => None
        case Some(iframe) =>
          match dom.attr(iframe, "src")
          case None => None
          case Some(src) =>
            if src == "" then None
            else match NormalizeUrl(base, Str(src), svc.join)
              case None => None
              case Some(full) =>
                match FileParam(Split(QueryOf(full), '&'), svc.unquote)
                case None => None
                case Some(file) => NormalizeUrl(base, Str(file), svc.join)
  }

  /**
   * `extract_embedded_pdf_attachment(...)`: at most one PDF, named by the
   * last path segment of its URL; parsing or validating it may raise, and
   * only once its download has given bytes.
   */
  function EmbeddedPdf(dom: Dom, g: Option<Group>, base: string, headers: map<string, string>, svc: Services)
    : (r: Result<seq<Attachment>, string>)
    ensures r.Ok? ==> |r.value| <= 1
    ensures r.Ok? && r.value != [] ==> ViewerPdfUrl(dom, g, base, svc) == Some(r.value[0].url)
                                       && r.value[0].mimeType == Some(PdfMime) && svc.validUrl(r.value[0].url)
                                       && r.value[0].filename == Some(AfterLast(r.value[0].url, '/')) && r.value[0].text.Some?
    ensures r.Err? ==> ViewerPdfUrl(dom, g, base, svc).Some?
                       && svc.download(ViewerPdfUrl(dom, g, base, svc).value, headers).Some?
  {
    match ViewerPdfUrl(dom, g, base, svc)
    case None => Ok([])
    case Some(pdfUrl) =>
      match svc.download(pdfUrl, headers)
      case None => Ok([])
      case Some(b) =>
        if b == [] then Ok([])
        else match Built(pdfUrl, AfterLast(pdfUrl, '/'), PdfMime, svc.pdfText(b), svc)
          case Err(e) => Err(e)
          case Ok(a) => Ok([a])
  }

  // ---------------------------------------------------------------------
  // extract_script_embedded_pdf_attachments
  // ---------------------------------------------------------------------

  const PdfCall: string := "showVsbpdfIframe("

  predicate IsQuote(c: char)
  {
    c == '"' || c == '\''
  }

  /** The index of the first quote in `s`. */
  function FirstQuote(s: string): (r: Option<nat>)
    ensures r.Some? ==> r.value < |s| && IsQuote(s[r.value]) && forall k :: 0 <= k < r.value ==> !IsQuote(s[k])
    ensures r.None? ==> forall k :: 0 <= k < |s| ==> !IsQuote(s[k])
  {
    if s == [] then None
    else if IsQuote(s[0]) then Some(0)
    else match FirstQuote(s[1..])
      case None => None
      case Some(i) => Some(i + 1)
  }

  /**
   * `showVsbpdfIframe\(["']([^"']+?\.pdf)["']` matched at `i`: the group is
   * the quote-free run after the opening quote, which must end in `.pdf`
   * after at least one character of its own (`+?` needs one).
   */
  function PdfCallAt(s: string, i: nat): (r: Option<string>)
    requires i <= |s|
    ensures r.Some? ==> |r.value| > |".pdf"| && EndsWith(r.value, ".pdf")
                        && forall k :: 0 <= k < |r.value| ==> !IsQuote(r.value[k])
  {
    if i + |PdfCall| + 1 <= |s| && s[i..i + |PdfCall|] == PdfCall && IsQuote(s[i + |PdfCall|]) then
      var rest := s[i + |PdfCall| + 1..];
      match FirstQuote(rest)
      case None => None
      case Some(e) => if e > |".pdf"| && EndsWith(rest[..e], ".pdf") then Some(rest[..e]) else None
    else None
  }

  /** `re.search(...)` from position `i`: the leftmost match's group. */
  function SearchPdfCall(s: string, i: nat): (r: Option<string>)
    requires i <= |s|
    decreases |s| - i
    ensures r.Some? ==> |r.value| > |".pdf"| && EndsWith(r.value, ".pdf")
                        && forall k :: 0 <= k < |r.value| ==> !IsQuote(r.value[k])
    ensures r.Some? ==> exists j :: i <= j <= |s| && PdfCallAt(s, j) == r
  {
    if PdfCallAt(s, i).Some? then PdfCallAt(s, i)
    else if i == |s| then None
    else SearchPdfCall(s, i + 1)
  }

  /** The search finds the call in a script holding just it. */
  lemma ScriptCallFound()
    ensures SearchPdfCall("showVsbpdfIframe('/a.pdf')", 0) == Some("/a.pdf")
  {
    var s := "showVsbpdfIframe('/a.pdf')";
    assert s[0..17] == PdfCall;
    var rest := s[18..];
    assert rest == "/a.pdf')";
    assert FirstQuote(rest) == Some(6) by {
      assert FirstQuote(rest[6..]) == Some(0);
      assert rest[1..][5..] == rest[6..];
    }
    assert rest[..6] == "/a.pdf";
  }

  /** A bare `.pdf` between the quotes is no match: the search moves on to the next call. */
  lemma BarePdfSkipped()
    ensures SearchPdfCall(BareThenPath, 0) == Some("/a.pdf")
  {
    BareCallRejected();
    assert forall k :: 5 <= k < 28 ==> BareThenPath[k] != 'V';
    NoCallBetween(BareThenPath, 1, 24);
    PathCallAccepted();
  }

  const BareThenPath: string := "showVsbpdfIframe('.pdf')" + "showVsbpdfIframe('/a.pdf')"

  lemma BareCallRejected()
    ensures PdfCallAt(BareThenPath, 0).None?
  {
    var s := BareThenPath;
    assert s[0..17] == PdfCall;
    var rest := s[18..];
    assert FirstQuote(rest) == Some(4) by {
      assert FirstQuote(rest[4..]) == Some(0);
      assert rest[1..][3..] == rest[4..];
    }
  }

  lemma PathCallAccepted()
    ensures PdfCallAt(BareThenPath, 24) == Some("/a.pdf")
  {
    var s := BareThenPath;
    assert s[24..41] == PdfCall;
    var rest := s[42..];
    assert rest == "/a.pdf')";
    assert FirstQuote(rest) == Some(6) by {
      assert FirstQuote(rest[6..]) == Some(0);
      assert rest[1..][5..] == rest[6..];
    }
    assert rest[..6] == "/a.pdf";
  }

  /**
   * No position in `[i, j)` starts the call when the text four places on
   * is not the call's 'V': the search passes them by.
   */
  lemma {:induction false} NoCallBetween(s: string, i: nat, j: nat)
    requires i <= j && j + 4 <= |s|
    requires forall k :: i + 4 <= k < j + 4 ==> s[k] != 'V'
    ensures SearchPdfCall(s, i) == SearchPdfCall(s, j)
    decreases j - i
  {
    if i < j {
      assert PdfCall[4] == 'V';
      assert PdfCallAt(s, i).None? by {
        if i + |PdfCall| <= |s| {
          assert s[i..i + |PdfCall|][4] == s[i + 4];
        }
      }
      NoCallBetween(s, i + 1, j);
    }
  }

  /** The script nodes visited. */
  function ScriptNodes(dom: Dom, g: Option<Group>): seq<Node>
  {
    if !Present(g) then []
    else match Given(g.value, "download_link")
      case None => []
      case Some(sel) => dom.select(None, sel)
  }

  /** The PDF URLs the scripts name, in order. */
  function ScriptUrls(dom: Dom, scripts: seq<Node>, base: string, join: (string, string) -> string): (r: seq<string>)
    ensures |r| <= |scripts|
  {
    if scripts == [] then []
    else
      var last := ScriptUrl(dom, scripts[|scripts| - 1], base, join);
      ScriptUrls(dom, scripts[..|scripts| - 1], base, join) + (if last.Some? then [last.value] else [])
  }

  /** The normalised URL of the first PDF call in one script, if there is one. */
  function ScriptUrl(dom: Dom, script: Node, base: string, join: (string, string) -> string): Option<string>
  {
    match SearchPdfCall(dom.scriptText(script), 0)
    case None => None
    case Some(m) => NormalizeUrl(base, Str(m), join)
  }

  lemma ScriptUrlsStep(dom: Dom, scripts: seq<Node>, i: nat, base: string, join: (string, string) -> string)
    requires i < |scripts|
    ensures var last := ScriptUrl(dom, scripts[i], base, join);
            ScriptUrls(dom, scripts[..i + 1], base, join)
            == ScriptUrls(dom, scripts[..i], base, join) + (if last.Some? then [last.value] else [])
  {
    assert scripts[..i + 1][..i] == scripts[..i];
  }

  /**
   * The attachment for one script URL, or the exception building it
   * raises: a failed or empty download gives the empty text, and the URL
   * is validated either way.
   */
  function ScriptAttachment(url: string, headers: map<string, string>, svc: Services): (r: Result<Attachment, string>)
    ensures r.Ok? ==> r.value.url == url && r.value.filename == Some(AfterLast(url, '/')) && r.value.mimeType == Some(PdfMime)
                      && svc.validUrl(url)
    ensures svc.download(url, headers).None? || svc.download(url, headers).value == [] ==>
              (r.Ok? <==> svc.validUrl(url)) && (r.Ok? ==> r.value.text == Some(""))
    ensures svc.download(url, headers).Some? && svc.download(url, headers).value != [] ==>
              (svc.pdfText(svc.download(url, headers).value).Err? ==> r == Err(svc.pdfText(svc.download(url, headers).value).error))
              && (r.Ok? ==> r.value.text == Some(svc.pdfText(svc.download(url, headers).value).value))
  {
    var text := match svc.download(url, headers)
      case None => Ok("")
      case Some(b) => if b == [] then Ok("") else svc.pdfText(b);
    Built(url, AfterLast(url, '/'), PdfMime, text, svc)
  }

  /** One attachment per URL, failed downloads included, or the first exception raised. */
  function ScriptAttachments(urls: seq<string>, headers: map<string, string>, svc: Services): (r: Result<seq<Attachment>, string>)
    ensures r.Ok? <==> forall i :: 0 <= i < |urls| ==> ScriptAttachment(urls[i], headers, svc).Ok?
    ensures r.Ok? ==> |r.value| == |urls|
                      && forall i :: 0 <= i < |urls| ==> r.value[i] == ScriptAttachment(urls[i], headers, svc).value
  {
    if urls == [] then Ok([])
    else
      match ScriptAttachments(urls[..|urls| - 1], headers, svc)
      case Err(e) => Err(e)
      case Ok(prev) =>
        match ScriptAttachment(urls[|urls| - 1], headers, svc)
        case Err(e) => Err(e)
        case Ok(a) => Ok(prev + [a])
  }

  /** Once a prefix of the URLs has raised, the later URLs change nothing. */
  lemma {:induction false} ScriptErrorSticks(urls: seq<string>, n: nat, headers: map<string, string>, svc: Services)
    requires n <= |urls| && ScriptAttachments(urls[..n], headers, svc).Err?
    ensures ScriptAttachments(urls, headers, svc) == ScriptAttachments(urls[..n], headers, svc)
    decreases |urls|
  {
    if n == |urls| {
      assert urls[..n] == urls;
    } else {
      var init := urls[..|urls| - 1];
      assert init[..n] == urls[..n];
      ScriptErrorSticks(init, n, headers, svc);
    }
  }

  /** `extract_script_embedded_pdf_attachments(soup, selector_cfg, base_url, headers)`. */
  method ExtractScriptPdfs(dom: Dom, g: Option<Group>, base: string, headers: map<string, string>, svc: Services)
    returns (r: Result<seq<Attachment>, string>)
    ensures r == ScriptAttachments(ScriptUrls(dom, ScriptNodes(dom, g), base, svc.join), headers, svc)
  {
    var scripts := ScriptNodes(dom, g);
    var urls: seq<string> := [];
    var i := 0;
    while i < |scripts|
      invariant 0 <= i <= |scripts|
      invariant urls == ScriptUrls(dom, scripts[..i], base, svc.join)
    {
      ScriptUrlsStep(dom, scripts, i, base, svc.join);
      var m := SearchPdfCall(dom.scriptText(scripts[i]), 0);
      if m.Some? {
        var url := NormalizeUrl(base, Str(m.value), svc.join);
        if url.Some? {
          urls := urls + [url.value];
        }
      }
      i := i + 1;
    }
    assert scripts[..i] == scripts;
    r := DownloadScriptPdfs(urls, headers, svc);
  }

  /** The download loop over the script URLs: it stops at the first exception. */
  method DownloadScriptPdfs(urls: seq<string>, headers: map<string, string>, svc: Services)
    returns (r: Result<seq<Attachment>, string>)
    ensures r == ScriptAttachments(urls, headers, svc)
  {
    var attachments := [];
    var j := 0;
    while j < |urls|
      invariant 0 <= j <= |urls|
      invariant ScriptAttachments(urls[..j], headers, svc) == Ok(attachments)
    {
      assert urls[..j + 1][..j] == urls[..j];
      var a := ScriptAttachment(urls[j], headers, svc);
      if a.Err? {
        ScriptErrorSticks(urls, j + 1, headers, svc);
        return Err(a.error);
      }
      attachments := attachments + [a.value];
      j := j + 1;
    }
    assert urls[..j] == urls;
    r := Ok(attachments);
  }

  // ---------------------------------------------------------------------
  // aggregate_content and build_attachment_text_snippet
  // ---------------------------------------------------------------------

  const SnippetOpen: string := "【附件："
  const SnippetClose: string := "】\n"

  /** `build_attachment_text_snippet(attachment)`: a marker naming the file, then its text. */
  function Snippet(a: Attachment): (r: string)
    ensures StartsWith(r, SnippetOpen + OrElse(a.filename, a.url) + SnippetClose)
    ensures EndsWith(r, OrElse(a.text, ""))
    ensures r != ""
  {
    var title := OrElse(a.filename, a.url);
    SnippetOpen + title + SnippetClose + OrElse(a.text, "")
  }

  /** `[build_attachment_text_snippet(att) for att in attachments if att.text]`. */
  function Snippets(atts: seq<Attachment>): (r: seq<string>)
    ensures |r| <= |atts|
    ensures r == [] <==> forall i :: 0 <= i < |atts| ==> atts[i].text.None? || atts[i].text.value == ""
  {
    if atts == [] then []
    else (if atts[0].text.Some? && atts[0].text.value != "" then [Snippet(atts[0])] else []) + Snippets(atts[1..])
  }

  /**
   * `aggregate_content(text, image_texts, attachment_texts)`: the body if
   * non-empty, the OCR texts and the snippets, each block joined by "\n",
   * the blocks joined by "\n\n".
   */
  function AggregateContent(text: string, imageTexts: seq<string>, attachmentTexts: seq<string>): (r: string)
    ensures text != "" ==> StartsWith(r, text)
    ensures imageTexts == [] && attachmentTexts == [] ==> r == text
    ensures text == "" && imageTexts == [] ==> r == Join("\n", attachmentTexts)
    ensures text == "" && attachmentTexts == [] ==> r == Join("\n", imageTexts)
  {
    var chunks := (if text != "" then [text] else [])
                  + (if imageTexts != [] then [Join("\n", imageTexts)] else [])
                  + (if attachmentTexts != [] then [Join("\n", attachmentTexts)] else []);
    Join("\n\n", chunks)
  }

  /** With all three parts present the blocks appear in order, separated by blank lines. */
  lemma AggregateAll(text: string, imageTexts: seq<string>, attachmentTexts: seq<string>)
    requires text != "" && imageTexts != [] && attachmentTexts != []
    ensures AggregateContent(text, imageTexts, attachmentTexts)
         == text + "\n\n" + Join("\n", imageTexts) + "\n\n" + Join("\n", attachmentTexts)
  {
    var b := Join("\n", imageTexts);
    var c := Join("\n", attachmentTexts);
    var chunks := [text] + [b] + [c];
    assert chunks == [text, b, c];
    assert chunks[1..] == [b, c] && chunks[1..][1..] == [c];
    assert Join("\n\n", [b, c]) == b + "\n\n" + c;
  }

  /** The aggregate is empty exactly when the body is empty and there is nothing else. */
  lemma AggregateEmpty(text: string, imageTexts: seq<string>, attachmentTexts: seq<string>)
    requires forall i :: 0 <= i < |imageTexts| ==> imageTexts[i] != ""
    requires forall i :: 0 <= i < |attachmentTexts| ==> attachmentTexts[i] != ""
    ensures AggregateContent(text, imageTexts, attachmentTexts) == ""
            <==> text == "" && imageTexts == [] && attachmentTexts == []
  {
    var r := AggregateContent(text, imageTexts, attachmentTexts);
    if text == "" && imageTexts != [] {
      assert StartsWith(Join("\n", imageTexts), imageTexts[0]);
      var chunks := [Join("\n", imageTexts)] + (if attachmentTexts != [] then [Join("\n", attachmentTexts)] else []);
      assert StartsWith(r, chunks[0]);
    } else if text == "" && attachmentTexts != [] {
      assert StartsWith(Join("\n", attachmentTexts), attachmentTexts[0]);
    }
  }

  // ---------------------------------------------------------------------
  // Selector-configuration resolution and parse_detail_page
  // ---------------------------------------------------------------------

  /** One per-site detail configuration: its `base_url` and its selector groups. */
  datatype DetailConfig = DetailConfig(baseUrl: string, groups: map<string, Group>)

  /** `selector_cfg.get(name)`. */
  function GroupOf(cfg: DetailConfig, name: string): Option<Group>
  {
    if name in cfg.groups then Some(cfg.groups[name]) else None
  }

  /** The first configuration for `base`. */
  function FirstFor(cfgs: seq<DetailConfig>, base: string): (r: Option<nat>)
    ensures r.Some? ==> r.value < |cfgs| && cfgs[r.value].baseUrl == base
                        && forall k :: 0 <= k < r.value ==> cfgs[k].baseUrl != base
    ensures r.None? <==> forall k :: 0 <= k < |cfgs| ==> cfgs[k].baseUrl != base
  {
    if cfgs == [] then None
    else if cfgs[0].baseUrl == base then Some(0)
    else match FirstFor(cfgs[1..], base)
      case None => None
      case Some(i) => Some(i + 1)
  }

  /**
   * The resolution over a list of per-site configurations: the first whose
   * `base_url` equals the page's, else the first one; an empty list raises
   * IndexError.
   */
  function ResolveSelectors(cfgs: seq<DetailConfig>, base: string): (r: Result<DetailConfig, string>)
    ensures r.Err? <==> cfgs == []
    ensures r.Ok? ==> r.value in cfgs
    ensures r.Ok? && r.value.baseUrl != base ==> r.value == cfgs[0] && forall k :: 0 <= k < |cfgs| ==> cfgs[k].baseUrl != base
    ensures (exists k :: 0 <= k < |cfgs| && cfgs[k].baseUrl == base) ==> r.Ok? && r.value.baseUrl == base
  {
    match FirstFor(cfgs, base)
    case Some(i) => Ok(cfgs[i])
    case None => if cfgs == [] then Err("IndexError: list index out of range") else Ok(cfgs[0])
  }

  /**
   * The resolution as written, applied to the configured selector dict:
   * iterating a dict yields its string keys and `cfg["base_url"]` on a
   * string raises TypeError; an empty dict reaches `DETAIL_SELECTORS[0]`,
   * a KeyError.
   */
  function ResolveAsWritten(selectors: map<string, Group>, base: string): (r: Result<DetailConfig, string>)
    ensures r.Err?
  {
    if selectors == map[] then Err("KeyError: 0") else Err("TypeError: string indices must be integers")
  }

  /** The configured selectors wrapped as the one per-site configuration the resolution expects. */
  const CorrectedSelectors: seq<DetailConfig> :=
    [DetailConfig(CrawlerConfig.SampleSource.baseUrl, CrawlerConfig.DetailSelectors)]

  /** As written every detail page fails; corrected, every site gets the configured groups. */
  lemma ResolutionContrast(base: string)
    ensures ResolveAsWritten(CrawlerConfig.DetailSelectors, base).Err?
    ensures ResolveSelectors(CorrectedSelectors, base) == Ok(CorrectedSelectors[0])
    ensures CorrectedSelectors[0].groups == CrawlerConfig.DetailSelectors
  {
  }

  /** The parsed page: aggregated content and all attachments. */
  datatype DetailPage = DetailPage(content: string, attachments: seq<Attachment>)

  /** Two extraction steps in turn: the first exception raised wins. */
  function Then(a: Result<seq<Attachment>, string>, b: Result<seq<Attachment>, string>): Result<seq<Attachment>, string>
  {
    match a
    case Err(e) => Err(e)
    case Ok(x) =>
      match b
      case Err(e) => Err(e)
      case Ok(y) => Ok(x + y)
  }

  /**
   * The attachments of a page, in the order pdf links, docx links, viewer,
   * script, or the exception the first failing extractor raises.
   */
  function PageAttachments(dom: Dom, cfg: DetailConfig, base: string, headers: map<string, string>, svc: Services)
    : (r: Result<seq<Attachment>, string>)
  {
    Then(Then(Then(FileAttachments(dom, FileLinks(dom, GroupOf(cfg, "pdf_selector")), base, headers, svc, [".pdf"]),
                   FileAttachments(dom, FileLinks(dom, GroupOf(cfg, "doc_selector")), base, headers, svc, [".docx"])),
              EmbeddedPdf(dom, GroupOf(cfg, "embedded_pdf_selector"), base, headers, svc)),
         ScriptAttachments(ScriptUrls(dom, ScriptNodes(dom, GroupOf(cfg, "embedded_pdf_selector")), base, svc.join), headers, svc))
  }

  /** What `parse_detail_page` computes once the configuration is resolved, or the exception an extractor raises. */
  function PageOf(dom: Dom, cfg: DetailConfig, base: string, headers: map<string, string>, svc: Services, cmd: string)
    : (p: Result<DetailPage, string>)
  {
    match PageAttachments(dom, cfg, base, headers, svc)
    case Err(e) => Err(e)
    case Ok(atts) =>
      Ok(DetailPage(AggregateContent(ExtractTextContent(dom, GroupOf(cfg, "text_selector")),
                                     ImageTexts(dom, ImageNodes(dom, GroupOf(cfg, "img_selector")), base, headers, svc, cmd),
                                     Snippets(atts)),
                    atts))
  }

  /**
   * With OCR off, a parsed page's content is empty exactly when its body
   * text is empty and no attachment carries text.
   */
  lemma PageContentEmpty(dom: Dom, cfg: DetailConfig, base: string, headers: map<string, string>, svc: Services)
    ensures var p := PageOf(dom, cfg, base, headers, svc, "");
            p.Ok? ==>
              (p.value.content == ""
               <==> (ExtractTextContent(dom, GroupOf(cfg, "text_selector")) == ""
                     && forall i :: 0 <= i < |p.value.attachments| ==>
                          p.value.attachments[i].text.None? || p.value.attachments[i].text.value == ""))
  {
    var p := PageOf(dom, cfg, base, headers, svc, "");
    if p.Ok? {
      OcrOffNoTexts(dom, ImageNodes(dom, GroupOf(cfg, "img_selector")), base, headers, svc);
      var snips := Snippets(p.value.attachments);
      SnippetsNonEmpty(p.value.attachments);
      AggregateEmpty(ExtractTextContent(dom, GroupOf(cfg, "text_selector")), [], snips);
    }
  }

  /** A PDF link that raises fails the whole page with its exception. */
  lemma PdfFailureFailsPage(dom: Dom, cfg: DetailConfig, base: string, headers: map<string, string>, svc: Services, cmd: string)
    requires FileAttachments(dom, FileLinks(dom, GroupOf(cfg, "pdf_selector")), base, headers, svc, [".pdf"]).Err?
    ensures PageOf(dom, cfg, base, headers, svc, cmd)
            == Err(FileAttachments(dom, FileLinks(dom, GroupOf(cfg, "pdf_selector")), base, headers, svc, [".pdf"]).error)
  {
  }

  /** No snippet is empty. */
  lemma {:induction false} SnippetsNonEmpty(atts: seq<Attachment>)
    ensures forall i :: 0 <= i < |Snippets(atts)| ==> Snippets(atts)[i] != ""
  {
    if atts != [] {
      SnippetsNonEmpty(atts[1..]);
    }
  }

  /** With only `.pdf` allowed, every file attachment is a PDF. */
  lemma PdfLinksArePdfs(dom: Dom, links: seq<Node>, base: string, headers: map<string, string>, svc: Services)
    ensures var pdfs := FileAttachments(dom, links, base, headers, svc, [".pdf"]);
            pdfs.Ok? ==> forall i :: 0 <= i < |pdfs.value| ==>
                           EndsWith(Lower(pdfs.value[i].url), ".pdf") && pdfs.value[i].mimeType == Some(PdfMime)
  {
    var pdfs := FileAttachments(dom, links, base, headers, svc, [".pdf"]);
    FileAttachmentsShaped(dom, links, base, headers, svc, [".pdf"]);
    if pdfs.Ok? {
      forall i | 0 <= i < |pdfs.value|
        ensures EndsWith(Lower(pdfs.value[i].url), ".pdf") && pdfs.value[i].mimeType == Some(PdfMime)
      {
        assert FileShaped(pdfs.value[i], [".pdf"]);
        var k :| 0 <= k < 1 && EndsWith(Lower(pdfs.value[i].url), [".pdf"][k]);
      }
    }
  }

  /**
   * Attachments keep the order pdf, docx, viewer, script: a parsed page
   * starts with its PDF links.
   */
  lemma PageAttachmentOrder(dom: Dom, cfg: DetailConfig, base: string, headers: map<string, string>, svc: Services)
    ensures var pdfs := FileAttachments(dom, FileLinks(dom, GroupOf(cfg, "pdf_selector")), base, headers, svc, [".pdf"]);
            var atts := PageAttachments(dom, cfg, base, headers, svc);
            atts.Ok? ==> pdfs.Ok? && |pdfs.value| <= |atts.value| && atts.value[..|pdfs.value|] == pdfs.value
                         && forall i :: 0 <= i < |pdfs.value| ==>
                              EndsWith(Lower(atts.value[i].url), ".pdf") && atts.value[i].mimeType == Some(PdfMime)
  {
    var links := FileLinks(dom, GroupOf(cfg, "pdf_selector"));
    var pdfs := FileAttachments(dom, links, base, headers, svc, [".pdf"]);
    var docs := FileAttachments(dom, FileLinks(dom, GroupOf(cfg, "doc_selector")), base, headers, svc, [".docx"]);
    var viewer := EmbeddedPdf(dom, GroupOf(cfg, "embedded_pdf_selector"), base, headers, svc);
    var scripted := ScriptAttachments(ScriptUrls(dom, ScriptNodes(dom, GroupOf(cfg, "embedded_pdf_selector")), base, svc.join), headers, svc);
    var atts := PageAttachments(dom, cfg, base, headers, svc);
    if atts.Ok? {
      assert pdfs.Ok? && docs.Ok? && viewer.Ok? && scripted.Ok?;
      assert atts.value == pdfs.value + docs.value + viewer.value + scripted.value;
      PdfLinksArePdfs(dom, links, base, headers, svc);
      FirstOfFour(pdfs.value, docs.value, viewer.value, scripted.value);
      forall i | 0 <= i < |pdfs.value|
        ensures atts.value[i] == pdfs.value[i]
      {
        assert atts.value[..|pdfs.value|][i] == atts.value[i];
      }
    }
  }

  /** The first of four concatenated runs is a prefix of the whole. */
  lemma FirstOfFour(a: seq<Attachment>, b: seq<Attachment>, c: seq<Attachment>, d: seq<Attachment>)
    ensures |a| <= |a + b + c + d| && (a + b + c + d)[..|a|] == a
  {
    assert (a + b + c + d)[..|a|] == (a + b + c)[..|a|] == (a + b)[..|a|];
  }

  /**
   * The selector table `parse_detail_page` resolves against: the configured
   * dict as the source iterates it, or a list of per-site configurations.
   */
  datatype SelectorTable = ConfiguredDict(selectors: map<string, Group>) | PerSite(cfgs: seq<DetailConfig>)

  /** The configuration a table yields for `base`, or the exception its resolution raises. */
  function Resolve(table: SelectorTable, base: string): (r: Result<DetailConfig, string>)
    ensures table.ConfiguredDict? ==> r.Err?
    ensures table.PerSite? ==> (r.Err? <==> table.cfgs == [])
  {
    match table
    case ConfiguredDict(selectors) => ResolveAsWritten(selectors, base)
    case PerSite(cfgs) => ResolveSelectors(cfgs, base)
  }

  /**
   * `parse_detail_page(html, base_url, headers)`: resolve the selector
   * configuration, then extract; `soup` parses the HTML and `cmd` is the
   * tesseract command.
   */
  method ParseDetailPage(html: string, base: string, headers: map<string, string>, table: SelectorTable,
                         soup: string -> Dom, svc: Services, cmd: string) returns (r: Result<DetailPage, string>)
    ensures Resolve(table, base).Err? ==> r == Err(Resolve(table, base).error)
    ensures Resolve(table, base).Ok? ==> r == PageOf(soup(html), Resolve(table, base).value, base, headers, svc, cmd)
  {
    var resolved := Resolve(table, base);
    if resolved.Err? {
      return Err(resolved.error);
    }
    var cfg := resolved.value;
    var dom := soup(html);
    var text := ExtractTextContent(dom, GroupOf(cfg, "text_selector"));
    var images := ExtractImageTexts(dom, GroupOf(cfg, "img_selector"), base, headers, svc, cmd);
    var pdfs := ExtractFileTexts(dom, GroupOf(cfg, "pdf_selector"), base, headers, svc, [".pdf"]);
    if pdfs.Err? {
      return Err(pdfs.error);
    }
    var docs := ExtractFileTexts(dom, GroupOf(cfg, "doc_selector"), base, headers, svc, [".docx"]);
    if docs.Err? {
      return Err(docs.error);
    }
    var viewer := EmbeddedPdf(dom, GroupOf(cfg, "embedded_pdf_selector"), base, headers, svc);
    if viewer.Err? {
      return Err(viewer.error);
    }
    var scripted := ExtractScriptPdfs(dom, GroupOf(cfg, "embedded_pdf_selector"), base, headers, svc);
    if scripted.Err? {
      return Err(scripted.error);
    }
    var atts := pdfs.value + docs.value + viewer.value + scripted.value;
    r := Ok(DetailPage(AggregateContent(text, images, Snippets(atts)), atts));
  }
}

# Campus notice and WeChat crawler, modelled in Dafny

This project models the decision logic of a crawler that collects campus
notices and WeChat official-account articles into a local SQLite table.
It covers:

- the notice crawler (`crawler/services.py`): URL normalisation, list-page
  pagination, the best-effort publish-time parser, detail-page parsing
  (body text, OCR texts, PDF/DOCX attachments, viewer and script embedded
  PDFs), content aggregation, record ids, the retrying fetches, the
  base64-encoded API payload, and `crawl_source` with its per-entry
  `process_entry` decision;
- its configuration (`crawler/config.py`): boolean environment switches,
  retry and timeout constants, the sample source and `DETAIL_SELECTORS`;
- the record store the crawler imports (`storage/database.py`): an
  in-memory `crawled_records` table keyed by id, with the repair-by-overwrite
  existence rule, the failed-record queries and `query_records`;
- the legacy store (`crawler/storage/database.py`): insert-or-ignore and
  the column migration;
- the older WeChat twin of the crawler (`wechat/services.py`), which keeps
  paginating past an empty page, drops an entry whose detail fetch fails and
  derives the id from the content;
- the WeChat configuration (`wechat/config.py`): the source list and
  session loaded from JSON files, session validity, the once-only login hint
  and `ensure_session`;
- the setup script (`scripts/wechat_setup.py`): the keyed merge of sources,
  source entries, `--names` parsing and the session file round trip;
- the login helpers of `wechat/auth.py`: token extraction, cookie expiry,
  the cookie string and the `expiry_human` rule.

Foreign work is a parameter, never a body-less declaration:

- HTTP attempts are functions from the attempt number to an optional result.
- The HTML document is a `Dom` record of selection functions.
- urljoin, percent-unquoting, PDF/DOCX/OCR text extraction, SHA-256 and
  `json.dumps` of attachments are function-typed fields. The PDF and DOCX
  parsers return a `Result`, whose error is the exception they raise.
- Whether pydantic's `HttpUrl` accepts a URL is a predicate field.
- The current time is a `DateTime` value.
- A JSON file is a `FileState`: missing, blank, malformed or parsed.

`wechat/config.py:12-20` is the same `_get_bool_env` text as
`crawler/config.py:11-19`, so `CrawlerConfig.GetBoolEnv` models both. The
two crawlers share the URL helpers, pagination and attachment extractors,
which the WeChat copy repeats word for word.

Modules, one per file:

| file | module | models |
|---|---|---|
| text.dfy | Wrappers, Text | Option/Result, Python `strip`, `lower`, `split`, `join`, digits |
| json.dfy | Json | decoded JSON values, truthiness, `dict.get`, file states |
| dicts.dfy | Dicts | insertion-ordered Python dicts |
| base64.dfy | Base64 | UTF-8 encoding and the base64 alphabet of RFC 4648 section 4 |
| dates.dfy | Dates | `datetime`, `strptime` for `%Y %m %d`, `isoformat` |
| crawler_config.dfy | CrawlerConfig | crawler/config.py |
| crawler_urls.dfy | CrawlerUrls | `normalize_url`, `build_paginated_urls` |
| crawler_dates.dfy | CrawlerDates | `parse_publish_time` |
| crawler_fetch.dfy | CrawlerFetch | retry loops, `base64_encode`, `fetch_api` |
| crawler_detail.dfy | CrawlerDetail | detail-page extractors, `aggregate_content`, `parse_detail_page` |
| crawler_crawl.dfy | CrawlerCrawl | list parsing, API parsing, pagination |
| crawler_process.dfy | CrawlerProcess | `process_entry`, `crawl_source` |
| record_store.dfy | RecordStore | storage/database.py |
| legacy_store.dfy | LegacyStore | crawler/storage/database.py |
| wechat_services.dfy | WechatServices | wechat/services.py helpers and pagination |
| wechat_process.dfy | WechatProcess | wechat/services.py `process_entry`, `crawl_source` |
| wechat_config.dfy | WechatConfig | wechat/config.py |
| wechat_setup.dfy | WechatSetup | scripts/wechat_setup.py |
| wechat_auth.dfy | WechatAuth | wechat/auth.py |

## Model

| member | source | states |
|---|---|---|
| CrawlerConfig.GetBoolEnv | crawler/config.py:11-19 | an unset variable yields the caller's default |
| CrawlerConfig.GetBoolEnvIgnoresDefault | crawler/config.py:16-19 | once the variable is set, the default has no influence on the result |
| CrawlerConfig.GetBoolEnvSet | crawler/config.py:19 | a set variable is true exactly when its value without surrounding whitespace, lower-cased, is one of 1, true, yes, on |
| CrawlerConfig.StripPadded | crawler/config.py:19 | stripping removes exactly the whitespace around a word, nothing inside it |
| CrawlerConfig.PaddedYesIsTrue | crawler/config.py:19 | " YES " switches a variable on even with default false |
| CrawlerConfig.FalseWordsAreFalse | crawler/config.py:19 | "0", "false" and "" switch a variable off even with default true |
| CrawlerConfig.MaxPages | crawler/services.py:545 | a source without max_pages is crawled for one page |
| CrawlerConfig.FindSource | crawler/services.py:541-543 | the first configured source with the id, and none exactly when no source has it |
| CrawlerUrls.SchemeOf | crawler/services.py:166-167 | a found scheme starts with a letter and holds only lower-case scheme characters |
| CrawlerUrls.Href | crawler/services.py:157-161 | a non-empty href wins over src; the result never begins or ends with whitespace |
| CrawlerUrls.BaseScheme | crawler/services.py:170 | never empty: a letter followed by lower-case scheme characters (https when the base has no scheme) |
| CrawlerUrls.NormalizeUrl | crawler/services.py:152-172 | None exactly for a blank value; a value with a scheme is kept; "//" gets the base scheme and a colon; anything else is joined onto the base |
| CrawlerUrls.SchemeOfPrefixed | crawler/services.py:166-171 | writing a scheme and a colon before any text makes urlparse read back that scheme |
| CrawlerUrls.NormalizeUrlIdempotent | crawler/services.py:166-171 | normalising an absolute or protocol-relative result again returns it unchanged |
| CrawlerUrls.AbsoluteFixed | crawler/services.py:166-168 | a stripped URL with a scheme is a fixed point of normalisation |
| CrawlerUrls.PaginationMatch | crawler/services.py:91 | a match starts at "list" in any case, leaves room for the page digits, and carries the ".htm" suffix in any case |
| CrawlerUrls.BuildPaginatedUrls | crawler/services.py:211-228 | one URL when max_pages is at most 1, otherwise exactly max_pages; the first is the list URL, the k-th is page k+1 |
| CrawlerUrls.PageUrlInjective | crawler/services.py:220-227 | different page numbers give different page URLs |
| CrawlerUrls.SampleSourceMatch | crawler/config.py:38 | the sample list URL matches at "list1.htm" |
| CrawlerUrls.SampleSourcePages | crawler/config.py:38-39 | pages 2 to 5 of the sample source are list2.htm to list5.htm |
| Dates.DaysInMonth | crawler/services.py:262 | Gregorian month lengths, 29 exactly for February of a leap year |
| Dates.WithUtc | crawler/services.py:270 | attaching UTC changes nothing but the awareness flag |
| Dates.Strptime | crawler/services.py:268 | a parsed value is a valid midnight date whose year is the first four digits |
| Dates.IsoFormat | crawler/services.py:619 | isoformat length (19, plus 7 for microseconds, plus 6 for an offset) and its separators |
| Dates.StrptimeIsoDate | crawler/services.py:262 | a zero-padded valid date with any one separator parses back to that date |
| Dates.StrptimeOfIsoFormat | crawler/services.py:619 | the date part of isoformat parses back under %Y-%m-%d |
| Dates.StrptimeShortYear | crawler/services.py:260-264 | a year below 1000 written without padding never parses under %Y |
| CrawlerDates.RewriteDayYearMonth | crawler/services.py:244-247 | "DDYYYY-MM" becomes "YYYY-MM-DD" with the day padded to two digits |
| CrawlerDates.DayYearMonthRewrite | crawler/services.py:244-247 | a DDYYYY-MM or DYYYY-MM text reaches the parser as its year, month and day joined by dashes, the day padded to two digits |
| CrawlerDates.YearFor | crawler/services.py:256-259 | this year exactly when (month, day) is not after today, otherwise last year |
| CrawlerDates.FirstFormat | crawler/services.py:266-272 | no result exactly when every format fails; a result is a valid naive date |
| CrawlerDates.ParsePublishTime | crawler/services.py:232-273 | always a valid UTC time; empty input gives now; other input is stripped and rewritten first |
| CrawlerDates.NoFormatWithoutYear | crawler/services.py:266-272 | text not starting with four digits matches no format |
| CrawlerDates.MonthDayShape | crawler/services.py:244-250 | a month/day text is neither DDYYYY-MM nor year-led, and has one separator position |
| CrawlerDates.MonthDayRule | crawler/services.py:250-262 | a real month/day resolves to midnight UTC in the year chosen against now |
| CrawlerDates.ImpossibleMonthDayIsNow | crawler/services.py:250-273 | a month/day that is no calendar date falls through every format and gives now |
| CrawlerDates.TextKept | crawler/services.py:240-247 | stripped text that is not DDYYYY-MM reaches the parser unchanged |
| CrawlerDates.ParseTextByFormat | crawler/services.py:266-270 | without a month/day match, the first matching format decides, with UTC attached |
| CrawlerDates.FormatsRoundTrip | crawler/services.py:266-270 | any valid date written in any of the four formats parses back to that date at midnight UTC |
| CrawlerDates.FormattedFirst | crawler/services.py:266-272 | the first format that matches such a text yields that date |
| CrawlerDates.EarlierFormatsFail | crawler/services.py:266-272 | formats before the one the text is written in all fail on it |
| CrawlerDates.CompactFormatBacktracks | crawler/services.py:266-270 | "2024110" parses under %Y%m%d as 10 January 2024 |
| CrawlerFetch.FirstSuccess | crawler/services.py:111-121 | the first succeeding attempt within the limit, and none exactly when all fail |
| CrawlerFetch.Outcome | crawler/services.py:111-122 | a result exactly when some attempt succeeds, and then the first success's value |
| CrawlerFetch.Retry | crawler/services.py:111-121 | result as Outcome; attempts stop at the first success or the limit; waits are 1, 2, … seconds between attempts |
| CrawlerFetch.FailureMessage | crawler/services.py:118 | the RuntimeError text starts with "Failed to fetch " and the URL |
| CrawlerFetch.FetchHtml | crawler/services.py:100-122 | the page of the first successful attempt, or the RuntimeError after all attempts fail |
| CrawlerFetch.DownloadBinary | crawler/services.py:126-148 | the bytes of the first successful attempt, or None |
| CrawlerFetch.EncodePayload | crawler/services.py:663-666 | keys and order kept; every value decodes back to the UTF-8 bytes of its `str()` |
| CrawlerFetch.ScalarPayloadText | crawler/services.py:663-666 | None, True, False and -12 are sent as the texts "None", "True", "False" and "-12" |
| CrawlerFetch.Headers.constructor | crawler/services.py:672 | the header map is the caller's dict |
| CrawlerFetch.Headers.EnsureContentType | crawler/services.py:683-684 | the caller's header map gains Content-Type in place, only when absent |
| CrawlerFetch.WithContentType | crawler/services.py:683-684 | Content-Type present afterwards, an existing one kept, every other header unchanged |
| CrawlerFetch.WithContentTypeIdempotent | crawler/services.py:683-684 | adding the default Content-Type twice equals adding it once |
| CrawlerFetch.FetchApi | crawler/services.py:669-697 | headers mutated as above; result is the retried POST of the encoded payload |
| CrawlerFetch.ApiOutcome | crawler/services.py:686-697 | decoded JSON of the first successful POST, or the "Failed to fetch API" error |
| Base64.Utf8CharShape | crawler/services.py:666 | each character's UTF-8 bytes carry a lead byte of the right length, continuation bytes and the code point |
| Base64.Utf8RoundTrip | crawler/services.py:666 | UTF-8 decoding of the encoding of a text gives the text back |
| Base64.Encode | crawler/services.py:666 | four characters per started group of three bytes, all from the alphabet or padding |
| Base64.DecodeEncode | crawler/services.py:666 | decoding the encoding of any byte string gives the bytes back |
| Base64.EncodeText | crawler/services.py:662-666 | the result decodes to the UTF-8 bytes of the text |
| Base64.EncodeTextRoundTrip | crawler/services.py:662-666 | decoding and then UTF-8 decoding the payload value gives the original string |
| CrawlerDetail.Given | crawler/services.py:287-288 | a selector key counts only when present and non-empty |
| CrawlerDetail.ExtractTextContent | crawler/services.py:277-298 | "" without config; "" exactly when every chunk is empty; starts with the first chunk when it is non-empty |
| CrawlerDetail.ParagraphsPreferred | crawler/services.py:288-292 | when the container has paragraphs, the content selector's value does not matter |
| CrawlerDetail.WholeContainerText | crawler/services.py:296-297 | without a content selector, the text is the container's whole text |
| CrawlerDetail.PerformOcr | crawler/services.py:302-308 | with no OCR command configured, the text is empty |
| CrawlerDetail.ImageTexts | crawler/services.py:343-351 | at most one text per image |
| CrawlerDetail.ImageTextsNonEmpty | crawler/services.py:349-350 | only non-empty OCR texts are kept |
| CrawlerDetail.OcrOffNoTexts | crawler/services.py:307-308 | with OCR switched off no image yields text |
| CrawlerDetail.ExtractImageTexts | crawler/services.py:331-351 | returns the OCR texts of exactly the images the selector config picks inside its container, in order; none without a config, container or image selector |
| CrawlerDetail.OcrImages | crawler/services.py:343-351 | the loop keeps the non-empty OCR text of each image with a usable `src`, in document order |
| CrawlerDetail.Built | crawler/services.py:396-405 | the parser's exception propagates; a parsed file becomes an attachment exactly when its URL is an HTTP URL (pydantic's check on `Attachments.url`), with that URL, name, MIME type and text |
| CrawlerDetail.LinkedFile | crawler/services.py:392-405 | a kept file has the allowed extension, the matching MIME type, a valid URL, and the link's URL and name |
| CrawlerDetail.FileAttachment | crawler/services.py:385-405 | a kept attachment ends in an allowed extension with the matching MIME type, has an HTTP URL, is at the link's normalized URL, and is named by the link text or "attachment" |
| CrawlerDetail.FileOutcomes | crawler/services.py:385-405 | one outcome per selected link, in order |
| CrawlerDetail.Collected | crawler/services.py:384-406 | at most one attachment per outcome |
| CrawlerDetail.CollectedOk | crawler/services.py:384-406 | the collection succeeds exactly when no link raises |
| CrawlerDetail.CollectedErrorSticks | crawler/services.py:384-406 | once a prefix of the links has raised, the later links do not change the result |
| CrawlerDetail.FirstErrorCollected | crawler/services.py:384-406 | the exception raised is the one of the first link that raises |
| CrawlerDetail.CollectedStep | crawler/services.py:385-405 | one loop step: an exception replaces the list, a skipped link keeps it, a kept file is appended |
| CrawlerDetail.FileAttachments | crawler/services.py:384-406 | at most one attachment per link |
| CrawlerDetail.FileAttachmentsOk | crawler/services.py:384-406 | the extractor succeeds exactly when no link raises |
| CrawlerDetail.FirstFileErrorRaised | crawler/services.py:384-406 | the extractor raises the exception of the first link that raises |
| CrawlerDetail.PdfLinkOutcome | crawler/services.py:392-405 | for a downloaded PDF link, a parser exception propagates; otherwise an attachment with the parsed text exactly when the URL is an HTTP URL |
| CrawlerDetail.FileAttachmentsShaped | crawler/services.py:389-405 | every attachment found is of an allowed extension with the matching MIME type and an HTTP URL |
| CrawlerDetail.FailedDownloadSkipped | crawler/services.py:392-394 | a link whose download fails is skipped without error |
| CrawlerDetail.ExtractFileTexts | crawler/services.py:367-406 | returns the attachments of the selected links, in order, or the first exception |
| CrawlerDetail.CollectFiles | crawler/services.py:384-406 | the loop appends kept files in order and stops at the first exception |
| CrawlerDetail.ViewerFileParam | crawler/services.py:427-431 | the viewer's "file" query value is unquoted with "+" read as a space |
| CrawlerDetail.EmbeddedPdf | crawler/services.py:409-445 | at most one PDF, at the viewer's file URL, named after its last path segment, with an HTTP URL; an exception only after a successful download |
| CrawlerDetail.PdfCallAt | crawler/services.py:463 | a call matched at a position has an argument longer than ".pdf", ending in ".pdf", without quotes |
| CrawlerDetail.SearchPdfCall | crawler/services.py:463 | a found argument is longer than ".pdf", ends in ".pdf", has no quote, and is a showVsbpdfIframe call match from the position |
| CrawlerDetail.BareCallRejected | crawler/services.py:463 | a call whose argument is only ".pdf" does not match |
| CrawlerDetail.PathCallAccepted | crawler/services.py:463 | the later call with a path does match |
| CrawlerDetail.BarePdfSkipped | crawler/services.py:463 | the search passes a bare ".pdf" call and finds the next real one |
| CrawlerDetail.NoCallBetween | crawler/services.py:463 | a stretch without a call start can be skipped: the search from either end finds the same |
| CrawlerDetail.ScriptCallFound | crawler/services.py:463 | showVsbpdfIframe('/a.pdf') yields "/a.pdf" |
| CrawlerDetail.ScriptAttachment | crawler/services.py:471-481 | a PDF named after its last segment with an HTTP URL; a failed or empty download yields it with empty text exactly when the URL is valid; otherwise a parser exception propagates, else the text is the parsed text |
| CrawlerDetail.ScriptAttachments | crawler/services.py:470-482 | succeeds exactly when no URL raises, then one attachment per found URL, in order |
| CrawlerDetail.ScriptErrorSticks | crawler/services.py:471-481 | once a prefix of the URLs has raised, the later URLs do not change the result |
| CrawlerDetail.ExtractScriptPdfs | crawler/services.py:448-482 | the loops return the script PDFs of the selected scripts, or the first exception |
| CrawlerDetail.DownloadScriptPdfs | crawler/services.py:470-482 | the download loop appends one attachment per URL and stops at the first exception |
| CrawlerDetail.Snippet | crawler/services.py:495-498 | the marker 【附件：name】 (filename, else URL) followed by the text; never empty |
| CrawlerDetail.Snippets | crawler/services.py:531 | no snippets exactly when no attachment has text |
| CrawlerDetail.SnippetsNonEmpty | crawler/services.py:495-498 | every snippet is non-empty |
| CrawlerDetail.AggregateContent | crawler/services.py:485-492 | starts with a non-empty body; is the body when there are no extras; with an empty body and one kind of extra, that kind's texts one per line |
| CrawlerDetail.AggregateAll | crawler/services.py:485-492 | with all three parts: body, blank line, OCR texts, blank line, snippets |
| CrawlerDetail.AggregateEmpty | crawler/services.py:485-492 | the content is "" exactly when the body, OCR texts and snippets are all empty |
| CrawlerDetail.FirstFor | crawler/services.py:511 | the first per-site config whose base URL matches, and none exactly when none does |
| CrawlerDetail.ResolveSelectors | crawler/services.py:511-513 | error exactly for an empty list; the matching config when one matches, else the first |
| CrawlerDetail.ResolveAsWritten | crawler/services.py:511 | iterating the configured selector dict always raises |
| CrawlerDetail.ResolutionContrast | crawler/config.py:58-88 | the configured dict always fails to resolve, while the same groups as a one-element list resolve |
| CrawlerDetail.PageContentEmpty | crawler/services.py:530-533 | with OCR off, a parsed page's content is empty exactly when the body and every attachment text are empty |
| CrawlerDetail.PdfFailureFailsPage | crawler/services.py:517-519 | an exception from the PDF extractor is the page parse's exception |
| CrawlerDetail.PdfLinksArePdfs | crawler/services.py:517-519 | the PDF extractor, when it succeeds, only returns .pdf URLs with the PDF MIME type |
| CrawlerDetail.PageAttachmentOrder | crawler/services.py:530 | a parsed page's attachments begin with the linked PDFs, in order |
| CrawlerDetail.Resolve | crawler/services.py:511-513 | the dict as configured always raises; a per-site list fails only when empty |
| CrawlerDetail.ParseDetailPage | crawler/services.py:507-533 | raises the selector resolution's exception, else the first extractor's exception, else the aggregated content and all attachments |
| CrawlerCrawl.OrEmpty | crawler/services.py:503 | each missing segment reads as "" |
| CrawlerCrawl.IdPayloadSplits | crawler/services.py:501-504 | splitting the hashed payload at newlines recovers the segments |
| CrawlerCrawl.EntryIdPayload | crawler/services.py:588 | the id hashes title+URL, a newline, and the URL |
| CrawlerCrawl.TextOf | crawler/services.py:201-204 | a missing element gives null, a present one its text |
| CrawlerCrawl.ListEntry | crawler/services.py:184-206 | title and date are text or null; no type selector gives null; the URL is None exactly when the link is blank |
| CrawlerCrawl.ParseList | crawler/services.py:176-207 | KeyError without item_container; fails exactly when items exist and date or title is unconfigured; one entry per item with its normalised URL |
| CrawlerCrawl.SelectorOr | crawler/services.py:716-718 | the configured key name, else the default |
| CrawlerCrawl.LinkPick | crawler/services.py:163 | a dict's link is its truthy "href", else its truthy "src", else the empty string |
| CrawlerCrawl.ApiUrlValueCases | crawler/services.py:159-163 | null gives no value, a string itself, a dict its picked link when that is a string; a dict whose pick is not a string, and any other value, raise |
| CrawlerCrawl.ApiDictUrl | crawler/services.py:163 | a dict with a null "href" and a string "src" gives that string; a numeric "href" raises |
| CrawlerCrawl.ApiEntryReads | crawler/services.py:715-728 | an item gives an entry exactly when it is a dict whose URL value can be read; the entry holds title and date under their keys, the resolved URL and no type |
| CrawlerCrawl.FirstError | crawler/services.py:714-729 | all values in order when every item succeeds; otherwise the error of the first failing item, every earlier one having succeeded |
| CrawlerCrawl.ApiResults | crawler/services.py:714-729 | one outcome per item, the i-th being the i-th item's |
| CrawlerCrawl.ApiEntriesOk | crawler/services.py:714-729 | entries exactly when every item gives one, one entry per item in order; otherwise the exception of the first failing item |
| CrawlerCrawl.ApiResponseCases | crawler/services.py:709-729 | fails for a non-dict response; a falsy list gives no entries; a list gives its items' entries; any other truthy value raises |
| CrawlerCrawl.ApiListParsed | crawler/services.py:710-729 | a list under the key, empty or not, gives exactly its items' entries |
| CrawlerCrawl.NoApiItems | crawler/services.py:713-729 | an empty list gives no entries |
| CrawlerCrawl.ApiDefaultList | crawler/services.py:709-710 | without selectors the list is read under "infolist" |
| CrawlerCrawl.ApiDefaultFields | crawler/services.py:716-727 | without selectors title, releasetime and url are read |
| CrawlerCrawl.CollectPrefix | crawler/services.py:553-581 | pages that neither stop nor raise contribute all their entries, in order |
| CrawlerCrawl.CollectStopsAtEmpty | crawler/services.py:562-564 | the first empty page ends pagination: later pages are never looked at |
| CrawlerCrawl.CollectSkips | crawler/services.py:566-568 | a page whose fetch raised is skipped as if absent |
| CrawlerCrawl.CollectStep | crawler/services.py:559-581 | one page step: skip, raise, stop on empty, or prepend its entries |
| CrawlerCrawl.ListUrls | crawler/services.py:570 | one list URL when max_pages is at most 1, else max_pages of them |
| CrawlerCrawl.HtmlPagesOf | crawler/services.py:571-581 | one page outcome per list URL, in order |
| CrawlerCrawl.PagePayloadLookup | crawler/services.py:555-557 | each page payload has pageno = the page number as text, hasPage = "true", and otherwise the base payload's values, whatever their type |
| CrawlerCrawl.ApiPages | crawler/services.py:553 | one API page per page number from 1 to max_pages |
| CrawlerCrawl.PageRunAt | crawler/services.py:553 | the i-th API outcome is page number i+1 |
| CrawlerCrawl.CrawlHeaders | crawler/services.py:560 | an API crawl with at least one page leaves Content-Type in the source's headers |
| CrawlerCrawl.HeadersPersistHarmless | crawler/services.py:683-684 | a second crawl with the mutated headers leaves them as they are |
| CrawlerCrawl.FetchListPage | crawler/services.py:572-577 | a list page is skipped on fetch failure, else parsed |
| CrawlerCrawl.FetchApiPage | crawler/services.py:555-561 | the page's payload is posted and its response parsed |
| CrawlerCrawl.CollectHtmlEntries | crawler/services.py:570-581 | the HTML loop's entries are the pagination rule applied to its pages |
| CrawlerCrawl.CollectHtmlPages | crawler/services.py:571-581 | the loop over the list URLs yields the pagination rule applied to their page outcomes |
| CrawlerCrawl.CollectApiEntries | crawler/services.py:549-568 | the API loop's entries are the pagination rule applied to its pages |
| CrawlerCrawl.CollectApiPages | crawler/services.py:553-568 | the loop over pages 1 to n yields the pagination rule applied to those pages, leaving Content-Type in the headers once it fetched |
| CrawlerCrawl.FetchApiPageAt | crawler/services.py:553-561 | the i-th fetch of the loop gives page outcome i of the run, with the content type in the headers |
| CrawlerCrawl.CollectEntries | crawler/services.py:549-581 | the entries of the source's mode, with the headers it leaves behind |
| CrawlerProcess.TitlePrefix | crawler/services.py:588 | "title or ''" concatenates only for a falsy or text title |
| CrawlerProcess.TitleColumn | crawler/services.py:618 | the stored title: text kept; none exactly for null or a container, which the NOT NULL title column refuses |
| CrawlerProcess.DateText | crawler/services.py:236-240 | a falsy date gives no text; text kept; a number written in decimal |
| CrawlerProcess.PublishTime | crawler/services.py:603 | every entry gets a valid UTC publish time |
| CrawlerProcess.DetailOf | crawler/services.py:592-601 | the detail is unreachable exactly when every fetch attempt fails; a fetched page under a failing selector resolution carries that exception |
| CrawlerProcess.EntryMetadata | crawler/services.py:614-621 | the six metadata keys; attachments present exactly when some were found |
| CrawlerProcess.EntryStepKeepsIds | crawler/services.py:584-637 | processing an entry keeps record ids unique |
| CrawlerProcess.ProcessEntry | crawler/services.py:584-637 | the store and the returned task follow the per-entry rule |
| CrawlerProcess.FetchDetail | crawler/services.py:592-601 | the fetched and parsed detail, or unreachable |
| CrawlerProcess.StoreEntry | crawler/services.py:603-637 | stores the record, then returns the item or raises when `CrawlItem.url` rejects the URL |
| CrawlerProcess.Run | crawler/services.py:639-640 | one task per entry |
| CrawlerProcess.Items | crawler/services.py:642-648 | at most one item per task |
| CrawlerProcess.ItemsExactly | crawler/services.py:642-648 | an item is returned exactly when some task returned it; raised and empty tasks are dropped |
| CrawlerProcess.ItemsAppend | crawler/services.py:642-648 | the filter distributes over concatenation of task lists |
| CrawlerProcess.RunKeepsIds | crawler/services.py:639-640 | processing any entry list keeps record ids unique |
| CrawlerProcess.Crawl | crawler/services.py:539-656 | an unknown id raises "Unknown source id" and touches no row; a failing crawl stores nothing |
| CrawlerProcess.CrawlSource | crawler/services.py:539-656 | the crawl's items and the table afterwards follow the crawl rule |
| CrawlerProcess.ProcessEntries | crawler/services.py:639-640 | the entries processed one after the other against the table |
| CrawlerProcess.CrawlKeepsIds | crawler/services.py:539-656 | a crawl keeps record ids unique |
| CrawlerProcess.SecondVisitSkips | crawler/services.py:588-591 | an entry stored with a title and content is skipped on a later crawl |
| CrawlerProcess.UnreachableStored | crawler/services.py:597-637 | a new entry whose detail fetch fails is stored with the placeholder content, and returned when its URL is an HTTP URL, else raises |
| CrawlerProcess.AsWrittenDropsFetchedEntries | crawler/services.py:595 | as written, a new entry whose detail page was fetched raises and nothing is stored |
| CrawlerProcess.CorrectedStoresPages | crawler/services.py:595-637 | with per-site selectors, a page parse exception fails the task with nothing stored; a parsed page at an HTTP URL returns its content and attachments |
| CrawlerProcess.FinishReturnsPage | crawler/services.py:603-637 | a parsed page is returned with its content and attachments when the URL is an HTTP URL, else the task raises |
| CrawlerProcess.AsWrittenStepPlaceholder | crawler/services.py:584-601 | as written, every returned item carries the placeholder and no attachments |
| CrawlerProcess.AsWrittenRunPlaceholders | crawler/services.py:639-648 | as written, a run returns only placeholder items |
| CrawlerProcess.AsWrittenOnlyPlaceholders | crawler/services.py:539-656 | as written, a whole crawl returns only placeholder items |
| RecordStore.WithoutId | storage/database.py:176-183 | the rows kept are exactly those with another id |
| RecordStore.WithoutAbsentId | storage/database.py:182 | deleting an absent id changes nothing |
| RecordStore.WithoutIdUnique | storage/database.py:182 | after deletion no row has the id and ids stay unique |
| RecordStore.UpsertReplaces | storage/database.py:195 | afterwards exactly one row has the id, holding the new values; other rows are unchanged |
| RecordStore.MetaGet | storage/database.py:201-206 | a metadata value, or the column default when the key is missing |
| RecordStore.NewRow | storage/database.py:185-210 | fails exactly when title or url is None (NOT NULL); otherwise the row with the id and content |
| RecordStore.NewRowDefaults | storage/database.py:201-206 | missing keys give "" for title, url, source id and name, NULL for the rest |
| RecordStore.NewRowKeepsValues | storage/database.py:199-208 | given values are stored in their columns |
| RecordStore.FailedIsIncomplete | storage/database.py:99 | a row is failed exactly when it does not count as existing |
| RecordStore.LikeWechatPrefix | storage/database.py:123 | LIKE 'wechat_%' holds for any text of 7 or more characters starting with "wechat" in any case |
| RecordStore.WechatPrefixIsLike | storage/database.py:123 | every "wechat_" id matches the pattern |
| RecordStore.LikeWiderThanPrefix | storage/database.py:123 | "WECHAT1" matches without the "wechat_" prefix |
| RecordStore.FailedRecordsExactly | storage/database.py:89-111 | the summaries are exactly those of rows with an empty title or an empty content |
| RecordStore.FailedWechatRecordsExactly | storage/database.py:113-137 | the same, limited to source ids matching LIKE 'wechat_%' |
| RecordStore.Repair | storage/database.py:149-195 | a failed row reads as absent, and storing its id again leaves one row that then counts as existing |
| RecordStore.FileIds | storage/database.py:57-66 | only truthy ids, of whatever JSON type, are read from a config file |
| RecordStore.ItemIds | storage/database.py:61-64 | every id read is truthy and is the `id` of a source object before the first non-object |
| RecordStore.ItemIdsKeepTypes | storage/database.py:61-64 | a numeric and a string id are both read, an empty one is not, and nothing after a non-object is |
| RecordStore.BoundText | storage/database.py:74-83 | a string id compares as itself, an integer as its decimal text, a bool as 1 or 0, null as NULL; a list, a dict or an integer beyond 64 bits raises |
| RecordStore.BoundIds | storage/database.py:74-83 | the query binds exactly when every id binds; the compared texts are those of the bound ids |
| RecordStore.BoundIdsFailure | storage/database.py:74-83 | names an id that cannot be bound when there is one |
| RecordStore.NumericIdBindsAsText | storage/database.py:61-83 | a config file listing the id 7 queries the source id "7" |
| RecordStore.SevenBinds | storage/database.py:74-83 | the integer 7 binds as the text "7" |
| RecordStore.ListIdRaises | storage/database.py:61-83 | a config file listing a list as an id makes the query raise |
| RecordStore.Texts | storage/database.py:48 | the requested ids enter the id list as the strings they are |
| RecordStore.Selected | storage/database.py:74-83 | exactly the rows of the id set within the time range |
| RecordStore.InsertDesc | storage/database.py:80 | inserting adds exactly that row |
| RecordStore.SortDesc | storage/database.py:80 | sorting permutes the rows |
| RecordStore.InsertDescSorted | storage/database.py:80 | inserting into a descending list keeps it descending |
| RecordStore.SortDescSorted | storage/database.py:80 | the sorted rows are in descending publish time |
| RecordStore.QueryIds | storage/database.py:42-66 | every requested "wechat_" id is queried |
| RecordStore.DirectIds | storage/database.py:45 | exactly the requested ids with the "wechat_" prefix |
| RecordStore.ConfigFileIds | storage/database.py:52-66 | ids read from config files are truthy |
| RecordStore.ConfigFileIdsAppend | storage/database.py:54-64 | each further requested id adds its file's ids, or none for a "wechat_" id |
| RecordStore.CollectIds | storage/database.py:42-66 | the loop over the requested ids builds exactly the id list `QueryIds` specifies: the "wechat_" ids as given, then the ids of each other id's config file in request order |
| RecordStore.UnreadableFileAddsNothing | storage/database.py:57-66 | an unreadable or non-object file adds no id |
| RecordStore.SortedSelection | storage/database.py:74-83 | the sorted selection is descending and holds only selected rows |
| RecordStore.Database.constructor | storage/database.py:139-147 | a new table is empty |
| RecordStore.Database.RecordExists | storage/database.py:149-174 | true exactly when a row matching the id, or the url when given, has a title and content |
| RecordStore.Database.StoreDocument | storage/database.py:185-210 | a None title or url raises and leaves the table; otherwise the row is upserted |
| RecordStore.Database.DeleteRecord | storage/database.py:176-183 | removes exactly the rows with the id |
| RecordStore.Database.GetFailedRecords | storage/database.py:89-111 | the failed-record summaries of the table |
| RecordStore.Database.GetFailedWechatRecords | storage/database.py:113-137 | the failed WeChat record summaries of the table |
| RecordStore.Database.QueryRecords | storage/database.py:35-87 | [] without ids; the binding error when an id cannot be bound; otherwise a permutation of the rows whose source id is one of the bound texts within the time range, sorted by publish time descending |
| LegacyStore.Migrated | crawler/storage/database.py:47-64 | attachments and content present, synced gone, every other column unchanged |
| LegacyStore.MigratedIdempotent | crawler/storage/database.py:47-64 | a migrated table needs no second migration |
| LegacyStore.Initialized | crawler/storage/database.py:34-43 | a new table has the schema's columns; an existing one is migrated |
| LegacyStore.InitializeIdempotent | crawler/storage/database.py:17-43 | initialising twice equals initialising once |
| LegacyStore.InsertOrIgnore | crawler/storage/database.py:107-125 | an existing id or a refused row leaves the table; otherwise the row is appended |
| LegacyStore.InsertOrIgnoreKeeps | crawler/storage/database.py:107-125 | ids stay unique, old rows are kept, at most one row is added |
| LegacyStore.Candidate | crawler/storage/database.py:93-125 | a row is formed exactly when title and url are given |
| LegacyStore.DocumentCandidate | crawler/storage/database.py:129-145 | store_document's row has the same defaults as the main store's |
| LegacyStore.FirstWriteWins | crawler/storage/database.py:129-145 | once an id is stored, a later store of it changes nothing |
| LegacyStore.StoreTwiceIsOnce | crawler/storage/database.py:129-145 | storing the same document twice equals storing it once |
| LegacyStore.EmptyRowBlocksRetry | crawler/storage/database.py:82-89 | a row with empty content still exists here, though the main store treats it as absent |
| LegacyStore.LegacyDatabase.constructor | crawler/storage/database.py:17-30 | before initialisation there is no table |
| LegacyStore.LegacyDatabase.EnsureAttachmentColumn | crawler/storage/database.py:47-64 | migrates the columns, commits exactly when something changed, rows untouched |
| LegacyStore.LegacyDatabase.Initialize | crawler/storage/database.py:34-43 | creates the table if missing, then migrates it |
| LegacyStore.LegacyDatabase.InsertRecord | crawler/storage/database.py:93-125 | insert-or-ignore of the row |
| LegacyStore.LegacyDatabase.StoreDocument | crawler/storage/database.py:129-145 | insert-or-ignore of the document's row |
| WechatServices.LinkOf | wechat/services.py:187-190 | no value exactly when there is no link element |
| WechatServices.ListEntry | wechat/services.py:184-199 | title, date and type are each text or null; the URL is None exactly when the link is blank |
| WechatServices.ListEntries | wechat/services.py:184-200 | one entry per item, in order |
| WechatServices.ParseList | wechat/services.py:176-200 | KeyError without item_container; with items, fails exactly when a key is missing, naming the first missing of date, title, url, type; one entry per item |
| WechatServices.ParseListAgrees | wechat/services.py:176-200 | with all keys set and non-empty it parses like the crawler's copy |
| WechatServices.MissingUrlKeyRaises | wechat/services.py:187 | a missing url selector raises here, where the crawler falls back to the item itself |
| WechatServices.ParsePublishTime | wechat/services.py:225-236 | now (UTC) exactly when empty or unmatched; a parsed date has no timezone |
| WechatServices.WrittenDateNaive | wechat/services.py:231-233 | a written date parses to naive midnight, and its isoformat is 6 characters shorter than the crawler's |
| WechatServices.PaddedDateIsNow | wechat/services.py:229-236 | text with leading whitespace is not stripped and gives now |
| WechatServices.CompactDateIsNow | wechat/services.py:231-236 | "YYYYMMDD" is not accepted and gives now |
| WechatServices.ExtractTextContent | wechat/services.py:240-256 | "" without config or container; "" exactly when every chunk is empty |
| WechatServices.TextAgreesWithoutParagraphs | wechat/services.py:250-256 | without paragraphs it agrees with the crawler's extractor |
| WechatServices.ParagraphRuleIsSelector | wechat/services.py:251-253 | the crawler's paragraph preference equals this extractor with "p" as content selector |
| WechatServices.GroupOf | wechat/services.py:431-441 | a selector group is found exactly when configured |
| WechatServices.CrawlerAddsScriptPdfs | wechat/services.py:443 | the crawler's attachments are these followed by the script PDFs, the first exception winning |
| WechatServices.AttachmentComposition | wechat/services.py:433-443 | successful attachments are the PDFs, then the DOCX files, then at most one viewer PDF |
| WechatServices.PageContentEmpty | wechat/services.py:443-446 | with OCR off, a parsed page's content is empty exactly when the body and every attachment text are empty |
| WechatServices.ParseDetailPage | wechat/services.py:428-446 | the content and attachments of the page, or the first extractor's exception |
| WechatServices.ListPagesOf | wechat/services.py:462-471 | one page outcome per list URL, in order |
| WechatServices.GatherListed | wechat/services.py:462-471 | succeeds exactly when no page raises, then with every listed entry in page order |
| WechatServices.EmptyPageContinues | wechat/services.py:469-471 | an empty page does not stop pagination |
| WechatServices.GatherAgreesWithCollect | wechat/services.py:462-471 | without empty or raising pages, both crawlers gather the same entries |
| WechatServices.GatherStep | wechat/services.py:462-471 | one page step: skip, raise, or prepend its entries |
| WechatServices.FetchListPage | wechat/services.py:463-468 | a list page is skipped on fetch failure, else parsed |
| WechatServices.CollectEntries | wechat/services.py:458-471 | the loop's entries are the gathering rule applied to the pages |
| WechatServices.CollectPages | wechat/services.py:462-471 | the loop over the list URLs yields the gathering rule applied to their page outcomes |
| WechatProcess.ContentKey | wechat/services.py:488 | the stripped content, or the URL when it is blank |
| WechatProcess.ItemIdPayload | wechat/services.py:488 | the id hashes the content key, a newline and the URL |
| WechatProcess.DistinctUrlsDistinctPayloads | wechat/services.py:488 | different single-line URLs give different id payloads |
| WechatProcess.TitleText | wechat/services.py:520 | the item title is the text title or "" |
| WechatProcess.DateOf | wechat/services.py:489 | only a text date is parsed |
| WechatProcess.Metadata | wechat/services.py:495-511 | the six keys, publish time in isoformat, attachments present exactly when found |
| WechatProcess.DetailPageOf | wechat/services.py:478-486 | no page exactly when every fetch attempt fails |
| WechatProcess.StepOutcomes | wechat/services.py:474-527 | raises exactly when the page parse raises, or a new page's URL is not an HTTP URL; no item exactly for no URL, failed fetch or an existing id, and then nothing is stored |
| WechatProcess.ParseErrorDropsEntry | wechat/services.py:485 | a page parse exception fails the task and stores nothing |
| WechatProcess.InvalidUrlStoredNotReturned | wechat/services.py:513-527 | a new page at a non-HTTP URL is stored and then raises, and the same entry is skipped on the next visit |
| WechatProcess.FetchFailureDropsEntry | wechat/services.py:481-483 | a failed detail fetch returns nothing and stores nothing |
| WechatProcess.EntryStepKeepsIds | wechat/services.py:474-527 | processing an entry keeps record ids unique |
| WechatProcess.SamePageSkipped | wechat/services.py:488-493 | a stored page with a title and content is skipped when its URL comes again |
| WechatProcess.ProcessEntry | wechat/services.py:474-527 | the store and the returned task follow the per-entry rule |
| WechatProcess.FetchDetail | wechat/services.py:478-486 | the parsed detail page, or none |
| WechatProcess.StoreEntry | wechat/services.py:495-527 | stores the record, then returns the item or raises when `CrawlItem.url` rejects the URL |
| WechatProcess.Crawl | wechat/services.py:452-539 | an unknown id raises and touches no row; a failing crawl stores nothing |
| WechatProcess.CrawlSource | wechat/services.py:452-539 | the crawl's items and the table afterwards follow the crawl rule |
| WechatProcess.ProcessEntries | wechat/services.py:529-530 | the entries processed one after the other against the table |
| WechatProcess.CrawlKeepsIds | wechat/services.py:452-539 | a crawl keeps record ids unique |
| WechatProcess.CleanStepReturns | wechat/services.py:474-527 | an entry whose page parses and whose URL is an HTTP URL (or has no URL or page) does not raise |
| WechatProcess.CleanRunNeverRaises | wechat/services.py:474-530 | over such entries no task of a run raises |
| WechatProcess.OfflineCrawlIsEmpty | wechat/services.py:462-539 | when every fetch fails, the crawl returns no items and stores nothing |
| WechatProcess.SkippedListNothing | wechat/services.py:462-467 | skipped list pages contribute no entries |
| WechatConfig.RecordJson | wechat/config.py:72-81 | a kept entry has exactly the six keys |
| WechatConfig.RecordDefaults | wechat/config.py:74-79 | a missing id reads null, a missing count 5 and a given one kept, a missing created_at 0; article_urls is truthy or [] |
| WechatConfig.RecordRoundTrip | wechat/config.py:72-81 | normalising a normalised entry changes nothing |
| WechatConfig.Objects | wechat/config.py:69-71 | exactly the dict elements, in order |
| WechatConfig.ObjectsAppend | wechat/config.py:69-71 | dict filtering distributes over concatenation |
| WechatConfig.SourceItems | wechat/config.py:58-67 | a list itself, a dict's "sources" list, nothing otherwise |
| WechatConfig.Normalized | wechat/config.py:69-81 | one normalised entry per dict element |
| WechatConfig.LoadedSources | wechat/config.py:54-83 | a missing, blank or malformed file leaves the list empty; otherwise one entry per dict element |
| WechatConfig.SessionOf | wechat/config.py:86-97 | the file's dict, or an empty session |
| WechatConfig.HasValidSession | wechat/config.py:100-102 | true exactly when token and cookies_str are truthy; None or an empty dict falls back to the module session |
| WechatConfig.EmptyArgFallsBack | wechat/config.py:101 | an empty dict argument equals no argument |
| WechatConfig.TokenAloneInvalid | wechat/config.py:102 | a token without cookies_str is not valid |
| WechatConfig.NonObjectSessionInvalid | wechat/config.py:94-95 | a session file that is not an object gives no valid session |
| WechatConfig.Settings.constructor | wechat/config.py:142-144 | importing loads the source list and the session, with the hint not yet shown |
| WechatConfig.Settings.LoadConfigurations | wechat/config.py:54-83 | the source list is replaced by the file's entries; nothing else changes |
| WechatConfig.Settings.LoadSession | wechat/config.py:86-97 | the session is replaced by the file's dict; nothing else changes |
| WechatConfig.Settings.PrintSessionHint | wechat/config.py:105-117 | the banner is printed only when the latch was clear, and the latch is set |
| WechatConfig.Settings.EnsureSession | wechat/config.py:120-139 | a valid session returns at once; else reload, then log in or print the hint once |
| WechatConfig.EnsureTwice | wechat/config.py:105-139 | two non-interactive calls in a row print the hint at most once in total |
| WechatSetup.LoadSourcesFile | scripts/wechat_setup.py:43-55 | dict elements of a list or of a dict's sources; a non-iterable "sources" raises TypeError |
| WechatSetup.LastWithId | scripts/wechat_setup.py:141-143 | a source carrying the id, and none exactly when no source has it |
| WechatSetup.LastValueKeyed | scripts/wechat_setup.py:141-143 | a dict built from the sources holds the last source of each id |
| WechatSetup.NewError | scripts/wechat_setup.py:142-143 | a new source without a hashable id raises |
| WechatSetup.MergeSources | scripts/wechat_setup.py:140-145 | succeeds exactly when every id is hashable and every new source has one; then the keyed merge |
| WechatSetup.MergedByIds | scripts/wechat_setup.py:141-145 | one source per distinct id, in first-seen order, each the last with that id |
| WechatSetup.MergedEntry | scripts/wechat_setup.py:141-145 | each merged entry is the last source with its id |
| WechatSetup.MergeByIds | scripts/wechat_setup.py:140-145 | the merge keeps one source per id, the last given, in first-seen id order |
| WechatSetup.MergeKeepsPositions | scripts/wechat_setup.py:140-145 | existing ids keep their positions; new ids come after them |
| WechatSetup.DedupPrefix | scripts/wechat_setup.py:142-145 | adding sources never reorders the ids already seen |
| WechatSetup.MergeWechatConfig | scripts/wechat_setup.py:137-149 | the written list is the file's sources merged with the new ones, or the load error |
| WechatSetup.KeyExisting | scripts/wechat_setup.py:141 | raises exactly for an unhashable id; else the dict of existing sources |
| WechatSetup.AssignNew | scripts/wechat_setup.py:142-143 | the first bad new source raises; else the dict of all sources |
| WechatSetup.BuildSourceEntry | scripts/wechat_setup.py:152-160 | five keys, with id "wechat_" + biz |
| WechatSetup.EntryLoadsBack | scripts/wechat_setup.py:152-160 | a new entry normalises to its name, biz, count and time, with no article URLs |
| WechatSetup.EntryIdsDistinct | scripts/wechat_setup.py:153 | different biz values give different ids |
| WechatSetup.KeptNames | scripts/wechat_setup.py:196 | kept names are non-empty and stripped |
| WechatSetup.ParseNames | scripts/wechat_setup.py:195-198 | no argument gives no names; every name is non-empty and stripped |
| WechatSetup.KeptClean | scripts/wechat_setup.py:196 | clean names are all kept unchanged |
| WechatSetup.NamesRoundTrip | scripts/wechat_setup.py:195-198 | comma-joined clean names parse back to the same list |
| WechatSetup.BlankNamesEmpty | scripts/wechat_setup.py:195-198 | " , ," parses to no names |
| WechatSetup.BizOf | scripts/wechat_setup.py:208-211 | a found biz is non-empty |
| WechatSetup.NewSources | scripts/wechat_setup.py:204-214 | one entry per name whose biz is found, none exactly when none is found |
| WechatSetup.NewSourcesMergeable | scripts/wechat_setup.py:212-217 | the built sources always merge without error |
| WechatSetup.CollectNewSources | scripts/wechat_setup.py:204-214 | the loop builds those entries, with the ids in step |
| WechatSetup.AddSources | scripts/wechat_setup.py:195-217 | writes only when some source was built, and then the merged list |
| WechatSetup.ResolveSourceName | scripts/wechat_setup.py:163-167 | the id itself when no source matches; otherwise a truthy name or the id |
| WechatSetup.ResolveFirstMatch | scripts/wechat_setup.py:163-167 | the first matching source's name decides |
| WechatSetup.LoadJson | scripts/wechat_setup.py:58-65 | a value exactly when the file parses |
| WechatSetup.LoadLocalSession | scripts/wechat_setup.py:68-74 | the session file when truthy, else the legacy file when truthy, else None |
| WechatSetup.PersistedPayload | scripts/wechat_setup.py:77-86 | nothing for an empty session; the session plus saved_at, added only when absent |
| WechatSetup.PersistThenLoad | scripts/wechat_setup.py:77-90 | a persisted session is what the next load returns |
| WechatSetup.PersistKeepsValidity | scripts/wechat_setup.py:82-84 | persisting does not change whether the session is valid |
| WechatSetup.PersistSession | scripts/wechat_setup.py:77-92 | writes the payload and reloads it as the module session |
| Dicts.PutLookup | scripts/wechat_setup.py:143 | assigning a key keeps keys unique, stores the value, leaves other keys and an existing key's position |
| Dicts.UniqueLookup | scripts/wechat_setup.py:141 | in a dict, each stored pair is what lookup returns |
| Dicts.PutAllFresh | scripts/wechat_setup.py:141-145 | a dict built from pairs has the distinct keys in first-seen order, each with its last value |
| WechatAuth.TokenRun | wechat/auth.py:67 | the longest prefix of token characters: it stops at the first "&" or "#" |
| WechatAuth.SearchFrom | wechat/auth.py:67 | the leftmost match at or after a position, and none exactly when there is none |
| WechatAuth.ExtractToken | wechat/auth.py:64-71 | None exactly when no "?token=" or "&token=" is followed by a token character; the token has no "&" or "#" |
| WechatAuth.TokenRoundTrip | wechat/auth.py:64-71 | a token written after "?token=" in a URL is extracted back |
| WechatAuth.EmptyTokenIgnored | wechat/auth.py:67 | an empty token value gives None |
| WechatAuth.IntOf | wechat/auth.py:81 | int() of a number is the number; null and containers are not convertible |
| WechatAuth.IntOfText | wechat/auth.py:81 | int() of ASCII digits is their value |
| WechatAuth.Expiries | wechat/auth.py:78-83 | exactly the convertible expiry values |
| WechatAuth.Min | wechat/auth.py:85 | the least element |
| WechatAuth.EarliestExpiry | wechat/auth.py:84-85 | None exactly when no expiry converts; else the least converted one |
| WechatAuth.UnconvertibleSkipped | wechat/auth.py:80-83 | an unconvertible expiry does not change the result |
| WechatAuth.CookiesAndExpiry | wechat/auth.py:74-86 | the cookies unchanged and the earliest convertible expiry |
| WechatAuth.Pairs | wechat/auth.py:90 | one "name=value" per cookie, in order |
| WechatAuth.FormatCookiesStr | wechat/auth.py:89-90 | "" exactly for no cookies |
| WechatAuth.CookieStrRoundTrip | wechat/auth.py:89-90 | splitting the cookie string at ";" and "=" gives back the names and values |
| WechatAuth.ExpiryHuman | wechat/auth.py:134-137 | None exactly when the expiry is missing or 0; otherwise its formatted time |
| WechatAuth.LoginSession | wechat/auth.py:128-139 | the session record has exactly the seven saved keys |
| WechatAuth.LoginSessionValid | wechat/auth.py:128-139 | the saved session is valid exactly when a token was found and there are cookies |
| WechatAuth.ZeroExpiryNotRendered | wechat/auth.py:133-137 | an expiry of 0 is saved but not rendered |

## Left out

- HTTP transport, timeouts and the waits themselves: a fetch is a function
  from the attempt number to an optional result. `Retry` records the waits
  it would sleep.
- Concurrency: the semaphore and `asyncio.gather` in both `crawl_source`
  copies. Entries are processed one after another, which is one possible
  interleaving. Under real concurrency a duplicated entry may be fetched and
  stored twice.
- HTML parsing and CSS selection: a `Dom` of selection and text functions.
  The model only covers the logic applied to what they return.
- PDF, DOCX and OCR extraction, urljoin, percent-unquoting, SHA-256 and
  `json.dumps` of attachments are function parameters. The model states what
  is passed to them, not what they compute.
- CrawlerFetch.PyStr: the Python repr of a list or dict payload value is a
  parameter; scalars are rendered as `str()` does.
- An exception raised by `parse_pdf_bytes` or `parse_docx_bytes` is the
  `Err` result of the parser parameter, and it propagates out of the
  extractor and the page parse as in the source. Every such exception is
  treated as escaping `process_entry`'s `except RuntimeError`. A parser
  exception that subclasses RuntimeError (RecursionError,
  NotImplementedError) would instead be caught there as an unreachable
  detail page. That case is not modelled.
- Pydantic's `HttpUrl` validation of `Attachments.url` and `CrawlItem.url`
  is the `validUrl` parameter, and its rejection is one fixed error text.
  Pydantic's normalisation of an accepted URL (a trailing slash, for example)
  is not modelled: the item keeps the URL string it was given.
- The file extractor computes every link's outcome and then collects them,
  stopping at the first exception. Because downloads and parsers are pure
  parameters, this gives the same result as the source's loop, which stops
  at that link. The downloads the source never makes are not visible.
- `datetime.now`, `time.time` and the `strftime`/`utcfromtimestamp`
  renderings of a timestamp are parameters.
- File I/O and the `glob` in `query_records`: each file is a `FileState`
  value. Writing `wechat.json` and `session.json` is modelled as the value
  written.
- SQLite is an in-memory sequence of rows. Exceptions raised by
  `store_document` inside `process_entry` are caught by the source. The model
  keeps the table unchanged in that case.
- `wechat/services.py` imports `DETAIL_SELECTORS` and `TARGET_SOURCES`, but
  `wechat/config.py` defines neither. The WeChat crawler therefore takes
  its selector groups and sources as parameters.
- `wechat/services.py:77` imports `Attachments` and `CrawlItem` from
  `wechat/models.py`, which defines neither, so the module as written fails
  at import. The model gives the WeChat crawler the crawler's `Attachments`
  and `CrawlItem` (crawler/models.py), which is what the code evidently means.
- The Selenium login (`get_cookies`, `find_qr_element`, `save_qr_image`,
  `verify_logged_in`) and the interactive y/N prompt are UI. `ensure_session`
  models the login's only effect on the session: it writes
  `cfg/cookies.json`, not the session file that is re-read.
- `ensure_session_interactive` and `maybe_crawl_sources` of the setup script
  call functions that are not part of this model (`crawl_wechat_source`,
  `get_fakeid_by_name`). The biz lookup is a function parameter.
- `CRAWL_INTERVAL` parsing and the remaining environment-derived paths.
- Python's `1 == True` collision of dict keys, float JSON numbers,
  Unicode digits and underscores accepted by `int()`, and non-string cookie
  names or values.
- `strptime` is modelled exactly for ASCII digits, including backtracking
  between one- and two-digit months and days. Unicode digits are left out.
- `lower()` is ASCII lower-casing. It is used only for membership tests
  against ASCII words, where the answer is the same.
- A list or API date that is a non-empty list or dict is read as having no
  date. Its `str()` starts with a bracket, which no rule accepts, so the
  outcome is the same: the current time. (A true boolean is read as the
  text "True", which no rule accepts either; false is falsy: no date.)
- `load_configurations` and `load_session` check existence before parsing;
  the model folds both into the file state.
- CrawlerDetail.PerformOcr: states only the switched-off case, which is the
  configured one (`TESSERACT_CMD` is empty). Otherwise the text is the OCR
  function's result.
- CrawlerProcess.Crawl: the ensures states the unknown-id and failure cases
  only. The successful crawl is characterised by `CrawlSource`,
  `ItemsExactly`, `CrawlKeepsIds` and the per-entry lemmas.
- WechatProcess.Crawl: the same, with `StepOutcomes`, `CleanRunNeverRaises` and
  `OfflineCrawlIsEmpty`.

## Findings

| source | as written | input that shows it | evidently intended | confidence | as-written member | corrected member |
|---|---|---|---|---|---|---|
| crawler/services.py:511-513 | `parse_detail_page` iterates `DETAIL_SELECTORS` as a list of per-site dicts and reads `cfg["base_url"]`. `crawler/config.py:58` defines one dict of selector groups, so the loop indexes a string key and raises TypeError. That is not the RuntimeError `process_entry` catches, so the coroutine fails and `gather` drops it. | any new entry of the sample source whose detail page downloads: nothing is stored and no item is returned; only entries whose detail fetch fails come back, with the placeholder content | pick the first per-site config whose base URL matches the page's, else the first config, and parse the page with it | not executed | CrawlerProcess.AsWrittenOnlyPlaceholders | CrawlerProcess.CorrectedStoresPages |

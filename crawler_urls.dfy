/**
 * URL handling of the crawler: `normalize_url`, the scheme detection of
 * `urllib.parse.urlsplit` it relies on, and `build_paginated_urls` with its
 * `(list)(\d+)(\.htm)$` page pattern. `urljoin` is a parameter.
 */
module CrawlerUrls {
  import opened Wrappers
  import opened Text
  import opened CrawlerConfig

  // ---------------------------------------------------------------------
  // urlsplit scheme
  // ---------------------------------------------------------------------

  /** `_WHATWG_C0_CONTROL_OR_SPACE`: what `urlsplit` strips from the left. */
  predicate IsC0OrSpace(c: char)
  {
    c <= ' '
  }

  /** `_UNSAFE_URL_BYTES_TO_REMOVE`: tab, carriage return and line feed. */
  predicate IsUnsafe(c: char)
  {
    c == '\t' || c == '\r' || c == '\n'
  }

  /** `scheme_chars`: ASCII letters, digits, `+`, `-` and `.`. */
  predicate IsSchemeChar(c: char)
  {
    IsAsciiLetter(c) || IsDigit(c) || c == '+' || c == '-' || c == '.'
  }

  function LStripC0(s: string): (r: string)
    ensures |r| <= |s| && r == s[|s| - |r|..]
    ensures r != [] ==> !IsC0OrSpace(r[0])
  {
    if s != [] && IsC0OrSpace(s[0]) then LStripC0(s[1..]) else s
  }

  function RemoveUnsafe(s: string): (r: string)
    ensures forall k :: 0 <= k < |r| ==> !IsUnsafe(r[k])
  {
    if s == [] then []
    else if IsUnsafe(s[0]) then RemoveUnsafe(s[1..])
    else [s[0]] + RemoveUnsafe(s[1..])
  }

  /** `s.find(c)`, None for -1. */
  function Find(s: string, c: char): (r: Option<nat>)
    ensures r.Some? ==> r.value < |s| && s[r.value] == c && c !in s[..r.value]
    ensures r.None? <==> c !in s
  {
    if s == [] then None
    else if s[0] == c then Some(0)
    else match Find(s[1..], c)
      case None => None
      case Some(i) => assert s[..i + 1] == [s[0]] + s[1..][..i]; Some(i + 1)
  }

  /** The scheme `urlsplit` finds in `url` (lower-cased), or "" when it finds none. */
  function SchemeOf(url: string): (r: string)
    ensures r != "" ==> IsAsciiLetter(r[0]) && forall k :: 0 <= k < |r| ==> IsSchemeChar(r[k]) && !('A' <= r[k] <= 'Z')
  {
    var u := RemoveUnsafe(LStripC0(url));
    match Find(u, ':')
    case None => ""
    case Some(i) => if IsSchemePrefix(u, i) then Lower(u[..i]) else ""
  }

  /** `u[..i]` is a scheme: it starts with an ASCII letter and has only scheme characters. */
  predicate IsSchemePrefix(u: string, i: nat)
    requires i <= |u|
  {
    i > 0 && IsAsciiLetter(u[0]) && forall k :: 0 <= k < i ==> IsSchemeChar(u[k])
  }

  // ---------------------------------------------------------------------
  // normalize_url
  // ---------------------------------------------------------------------

  /** What `normalize_url` receives: nothing, a string, or a tag with `href`/`src` attributes. */
  datatype UrlValue = NoValue | Str(s: string) | Element(href: Option<string>, src: Option<string>)

  /** The first truthy of an optional string and a fallback. */
  function OrElse(a: Option<string>, b: string): (r: string)
    ensures a.Some? && a.value != "" ==> r == a.value
    ensures (a.None? || a.value == "") ==> r == b
  {
    if a.Some? && a.value != "" then a.value else b
  }

  /** The stripped candidate: `href` preferred to `src` for a tag. */
  function Href(v: UrlValue): (r: string)
    ensures v.Element? && v.href.Some? && v.href.value != "" ==> r == Strip(v.href.value)
    ensures r != [] ==> !IsSpace(r[0]) && !IsSpace(r[|r| - 1])
  {
    Strip(Candidate(v))
  }

  /** The value `normalize_url` strips: the string itself, or the tag's first truthy attribute. */
  function Candidate(v: UrlValue): (r: string)
    ensures v.Element? && v.href.Some? && v.href.value != "" ==> r == v.href.value
  {
    match v
    case NoValue => ""
    case Str(s) => s
    case Element(h, s) => OrElse(h, OrElse(s, ""))
  }

  /** `urlparse(base_url).scheme or "https"`. */
  function BaseScheme(base: string): (r: string)
    ensures r != "" && IsAsciiLetter(r[0])
    ensures forall k :: 0 <= k < |r| ==> IsSchemeChar(r[k]) && !('A' <= r[k] <= 'Z')
  {
    var sch := SchemeOf(base);
    if sch != "" then sch else HttpsIsScheme(); "https"
  }

  lemma HttpsIsScheme()
    ensures forall k :: 0 <= k < |"https"| ==> IsSchemeChar("https"[k]) && !('A' <= "https"[k] <= 'Z')
  {
    var h := "https";
    forall k | 0 <= k < |h| ensures IsSchemeChar(h[k]) && !('A' <= h[k] <= 'Z') {
      assert 'a' <= h[k] <= 'z';
    }
  }

  /**
   * `normalize_url(base_url, url_el)`: None for a missing or blank value;
   * a value with a scheme as it is; `//host/...` completed with the base's
   * scheme; anything else resolved against the base by `join`.
   */
  function NormalizeUrl(base: string, v: UrlValue, join: (string, string) -> string): (r: Option<string>)
    ensures r.None? <==> Href(v) == ""
    ensures r.Some? && SchemeOf(Href(v)) != "" ==> r.value == Href(v)
    ensures r.Some? && SchemeOf(Href(v)) == "" && StartsWith(Href(v), "//") ==> r.value == BaseScheme(base) + ":" + Href(v)
    ensures r.Some? && SchemeOf(Href(v)) == "" && !StartsWith(Href(v), "//") ==> r.value == join(base, Href(v))
  {
    var href := Href(v);
    if href == "" then None
    else if SchemeOf(href) != "" then Some(href)
    else if StartsWith(href, "//") then Some(BaseScheme(base) + ":" + href)
    else Some(join(base, href))
  }

  lemma RemoveUnsafeAppend(a: string, b: string)
    ensures RemoveUnsafe(a + b) == RemoveUnsafe(a) + RemoveUnsafe(b)
  {
    if a == [] {
      assert a + b == b;
    } else {
      assert (a + b)[0] == a[0];
      assert (a + b)[1..] == a[1..] + b;
      RemoveUnsafeAppend(a[1..], b);
    }
  }

  lemma RemoveUnsafeSafe(a: string)
    requires forall k :: 0 <= k < |a| ==> !IsUnsafe(a[k])
    ensures RemoveUnsafe(a) == a
  {
  }

  /** A lower-case scheme followed by `:` is found again by `urlsplit`. */
  lemma SchemeOfPrefixed(sch: string, rest: string)
    requires sch != "" && IsAsciiLetter(sch[0])
    requires forall k :: 0 <= k < |sch| ==> IsSchemeChar(sch[k]) && !('A' <= sch[k] <= 'Z')
    ensures SchemeOf(sch + ":" + rest) == sch
  {
    var url := sch + ":" + rest;
    var u := sch + ":" + RemoveUnsafe(rest);
    StrippedPrefixed(sch, rest);
    NoColonInScheme(sch);
    FindAfter(sch, RemoveUnsafe(rest));
    PrefixIsScheme(sch, RemoveUnsafe(rest));
    SchemeFound(url, u, |sch|);
    LowerOfLower(sch);
  }

  /** Nothing is stripped or removed from the scheme part of `sch:rest`. */
  lemma StrippedPrefixed(sch: string, rest: string)
    requires sch != "" && IsAsciiLetter(sch[0])
    requires forall k :: 0 <= k < |sch| ==> IsSchemeChar(sch[k])
    ensures RemoveUnsafe(LStripC0(sch + ":" + rest)) == sch + ":" + RemoveUnsafe(rest)
  {
    var url := sch + ":" + rest;
    assert url[0] == sch[0];
    assert LStripC0(url) == url;
    PrefixedSafe(sch, rest);
  }

  lemma NoColonInScheme(sch: string)
    requires forall k :: 0 <= k < |sch| ==> IsSchemeChar(sch[k])
    ensures ':' !in sch
  {
    forall k | 0 <= k < |sch| ensures sch[k] != ':' {
      assert IsSchemeChar(sch[k]);
    }
  }

  lemma PrefixIsScheme(sch: string, rest: string)
    requires sch != "" && IsAsciiLetter(sch[0])
    requires forall k :: 0 <= k < |sch| ==> IsSchemeChar(sch[k])
    ensures (sch + ":" + rest)[..|sch|] == sch && IsSchemePrefix(sch + ":" + rest, |sch|)
  {
    var u := sch + ":" + rest;
    assert u[..|sch|] == sch;
    forall k | 0 <= k < |sch| ensures IsSchemeChar(u[k]) {
      assert u[k] == sch[k];
    }
  }

  /** Where the first `:` closes a scheme prefix, that prefix lower-cased is the scheme. */
  lemma SchemeFound(url: string, u: string, i: nat)
    requires u == RemoveUnsafe(LStripC0(url)) && Find(u, ':') == Some(i) && IsSchemePrefix(u, i)
    ensures SchemeOf(url) == Lower(u[..i])
  {
  }

  lemma PrefixedSafe(sch: string, rest: string)
    requires forall k :: 0 <= k < |sch| ==> IsSchemeChar(sch[k])
    ensures RemoveUnsafe(sch + ":" + rest) == sch + ":" + RemoveUnsafe(rest)
  {
    var head := sch + ":";
    assert sch + ":" + rest == head + rest;
    RemoveUnsafeAppend(head, rest);
    RemoveUnsafeSafe(head);
  }

  lemma FindAfter(sch: string, rest: string)
    requires ':' !in sch
    ensures Find(sch + ":" + rest, ':') == Some(|sch|)
  {
    if sch != [] {
      assert (sch + ":" + rest)[1..] == sch[1..] + ":" + rest;
      FindAfter(sch[1..], rest);
    }
  }

  /**
   * Normalising is idempotent on every result that did not come from
   * `urljoin`: such a result already carries a scheme and has nothing to strip.
   */
  lemma NormalizeUrlIdempotent(base: string, v: UrlValue, join: (string, string) -> string)
    requires NormalizeUrl(base, v, join).Some? && (SchemeOf(Href(v)) != "" || StartsWith(Href(v), "//"))
    ensures var r := NormalizeUrl(base, v, join).value;
            NormalizeUrl(base, Str(r), join) == Some(r) && SchemeOf(r) != ""
  {
    var href := Href(v);
    var r := NormalizeUrl(base, v, join).value;
    if SchemeOf(href) != "" {
      assert r == href;
      AbsoluteFixed(base, href, join);
    } else {
      var sch := BaseScheme(base);
      assert r == sch + ":" + href;
      PrefixedAbsolute(sch, href);
      AbsoluteFixed(base, r, join);
    }
  }

  lemma LetterNotSpace(c: char)
    requires IsAsciiLetter(c)
    ensures !IsSpace(c)
  {
  }

  /** `scheme:href` for a stripped `href` is stripped and carries `scheme`. */
  lemma PrefixedAbsolute(sch: string, href: string)
    requires sch != "" && IsAsciiLetter(sch[0])
    requires forall k :: 0 <= k < |sch| ==> IsSchemeChar(sch[k]) && !('A' <= sch[k] <= 'Z')
    requires href != [] && !IsSpace(href[|href| - 1])
    ensures var r := sch + ":" + href;
            !IsSpace(r[0]) && !IsSpace(r[|r| - 1]) && SchemeOf(r) != ""
  {
    var r := sch + ":" + href;
    assert r[0] == sch[0];
    LetterNotSpace(sch[0]);
    assert r[|r| - 1] == href[|href| - 1];
    SchemeOfPrefixed(sch, href);
  }

  /** A stripped value that has a scheme is its own normal form. */
  lemma AbsoluteFixed(base: string, r: string, join: (string, string) -> string)
    requires r != [] && !IsSpace(r[0]) && !IsSpace(r[|r| - 1]) && SchemeOf(r) != ""
    ensures NormalizeUrl(base, Str(r), join) == Some(r)
  {
    StripEnds(r);
    assert Href(Str(r)) == r;
  }

  // ---------------------------------------------------------------------
  // build_paginated_urls
  // ---------------------------------------------------------------------

  /** Where `PAGINATION_PATTERN.search` matches: the start of `list` and the original `.htm` group. */
  datatype PageMatch = PageMatch(start: nat, suffix: string)

  /** The number of ASCII digits at the end of `s`. */
  function TrailingDigits(s: string): (k: nat)
    ensures k <= |s|
    ensures forall i :: |s| - k <= i < |s| ==> IsDigit(s[i])
    ensures k < |s| ==> !IsDigit(s[|s| - k - 1])
  {
    if s != [] && IsDigit(s[|s| - 1]) then TrailingDigits(s[..|s| - 1]) + 1 else 0
  }

  /**
   * `re.compile(r"(list)(\d+)(\.htm)$", re.IGNORECASE).search(s)`. `$` matches
   * at the end or before a final newline; `list` must directly precede the
   * whole run of digits before `.htm`, so the match is unique when it exists.
   */
  function PaginationMatch(s: string): (r: Option<PageMatch>)
    ensures r.Some? ==> r.value.start + 9 <= |s| && CaseEq(s[r.value.start..r.value.start + 4], "list")
                        && CaseEq(r.value.suffix, ".htm")
  {
    var body := if s != [] && s[|s| - 1] == '\n' then s[..|s| - 1] else s;
    if |body| < 9 || !CaseEq(body[|body| - 4..], ".htm") then None
    else
      var stem := body[..|body| - 4];
      var k := TrailingDigits(stem);
      if k == 0 || |stem| < k + 4 || !CaseEq(stem[|stem| - k - 4..|stem| - k], "list") then None
      else
        assert s[|stem| - k - 4..|stem| - k] == stem[|stem| - k - 4..|stem| - k];
        Some(PageMatch(|stem| - k - 4, body[|body| - 4..]))
  }

  /** The URL `build_paginated_urls` gives for page `page` (2 and up). */
  function PageUrl(listUrl: string, page: nat): string
  {
    match PaginationMatch(listUrl)
    case Some(m) => listUrl[..m.start] + "list" + NatToString(page) + m.suffix
    case None => listUrl + (if '?' in listUrl then "&" else "?") + "page=" + NatToString(page)
  }

  /** `build_paginated_urls(list_url, max_pages)`. */
  method BuildPaginatedUrls(listUrl: string, maxPages: int) returns (urls: seq<string>)
    ensures |urls| == if maxPages <= 1 then 1 else maxPages
    ensures urls[0] == listUrl
    ensures forall k :: 1 <= k < |urls| ==> urls[k] == PageUrl(listUrl, k + 1)
  {
    if maxPages <= 1 {
      return [listUrl];
    }
    urls := [listUrl];
    var found := PaginationMatch(listUrl);
    var page := 2;
    while page <= maxPages
      invariant 2 <= page <= maxPages + 1
      invariant |urls| == page - 1 && urls[0] == listUrl
      invariant forall k :: 1 <= k < |urls| ==> urls[k] == PageUrl(listUrl, k + 1)
    {
      var next;
      if found.Some? {
        var prefix := listUrl[..found.value.start];
        next := prefix + "list" + NatToString(page) + found.value.suffix;
      } else {
        var separator := if '?' in listUrl then "&" else "?";
        next := listUrl + separator + "page=" + NatToString(page);
      }
      urls := urls + [next];
      page := page + 1;
    }
  }

  /** Different page numbers give different URLs. */
  lemma PageUrlInjective(listUrl: string, i: nat, j: nat)
    requires PageUrl(listUrl, i) == PageUrl(listUrl, j)
    ensures i == j
  {
    var a, b := NatToString(i), NatToString(j);
    match PaginationMatch(listUrl)
    case Some(m) =>
      var p := listUrl[..m.start] + "list";
      assert PageUrl(listUrl, i) == p + a + m.suffix;
      assert PageUrl(listUrl, j) == p + b + m.suffix;
      Cancel(p, a, b, m.suffix);
      NatToStringInjective(i, j);
    case None =>
      var p := listUrl + (if '?' in listUrl then "&" else "?") + "page=";
      assert PageUrl(listUrl, i) == p + a;
      assert PageUrl(listUrl, j) == p + b;
      Cancel(p, a, b, "");
      NatToStringInjective(i, j);
  }

  /** Equal texts with a common prefix and suffix have equal middles. */
  lemma Cancel(p: string, a: string, b: string, q: string)
    requires p + a + q == p + b + q
    ensures a == b
  {
    var x, y := p + a + q, p + b + q;
    assert |a| == |b|;
    assert a == x[|p|..|p| + |a|];
    assert b == y[|p|..|p| + |b|];
  }

  /** The configured source's list URL matches the page pattern right before `1.htm`. */
  lemma SampleSourceMatch()
    ensures PaginationMatch(SampleSource.listUrl) == Some(PageMatch(27, ".htm"))
  {
    assert SampleSource.listUrl == "https://jw.nju.edu.cn/ggtz/list1.htm";
    ListOneMatch(SampleSource.listUrl);
  }

  /** The list URL `https://jw.nju.edu.cn/ggtz/list1.htm` matches right before `1.htm`. */
  lemma ListOneMatch(s: string)
    requires s == "https://jw.nju.edu.cn/ggtz/list1.htm"
    ensures PaginationMatch(s) == Some(PageMatch(27, ".htm"))
  {
    assert |s| == 36;
    assert s[35] != '\n';
    var stem := s[..32];
    assert stem[31] == '1' && stem[30] == 't';
    assert TrailingDigits(stem[..31]) == 0;
    assert TrailingDigits(stem) == 1;
    assert s[32..] == ".htm";
    assert stem[27..31] == "list";
  }

  /** Hence its pages 2 to 5 are `list2.htm` to `list5.htm`, after `list1.htm` itself. */
  lemma SampleSourcePages(page: nat)
    requires 2 <= page <= 5
    ensures PageUrl(SampleSource.listUrl, page) == "https://jw.nju.edu.cn/ggtz/list" + NatToString(page) + ".htm"
  {
    assert SampleSource.listUrl == "https://jw.nju.edu.cn/ggtz/list1.htm";
    ListOnePages(SampleSource.listUrl, page);
  }

  /** Page `page` of `https://jw.nju.edu.cn/ggtz/list1.htm` is `list<page>.htm` in the same directory. */
  lemma ListOnePages(s: string, page: nat)
    requires s == "https://jw.nju.edu.cn/ggtz/list1.htm"
    ensures PageUrl(s, page) == "https://jw.nju.edu.cn/ggtz/list" + NatToString(page) + ".htm"
  {
    ListOneMatch(s);
    PageUrlMatched(s, page, PageMatch(27, ".htm"));
    assert s[..27] == "https://jw.nju.edu.cn/ggtz/";
  }

  /** A matched list URL has its page number replaced. */
  lemma PageUrlMatched(s: string, page: nat, m: PageMatch)
    requires PaginationMatch(s) == Some(m)
    ensures PageUrl(s, page) == s[..m.start] + "list" + NatToString(page) + m.suffix
  {
  }
}

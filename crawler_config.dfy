/**
 * The crawler's configuration: boolean environment switches, the retry and
 * timeout constants, and the configured target sources.
 */
module CrawlerConfig {
  import opened Wrappers
  import opened Json
  import opened Text

  /** The words that switch a boolean environment variable on. */
  const TrueWords: set<string> := {"1", "true", "yes", "on"}

  /**
   * `_get_bool_env(name, default)` over the process environment `env`:
   * the default when the variable is unset, otherwise whether its stripped,
   * lower-cased value is one of `TrueWords`.
   */
  function GetBoolEnv(env: map<string, string>, name: string, default: bool): (r: bool)
    ensures name !in env ==> r == default
  {
    if name !in env then default else Lower(Strip(env[name])) in TrueWords
  }

  /** Once the variable is set, the default no longer matters. */
  lemma GetBoolEnvIgnoresDefault(env: map<string, string>, name: string)
    requires name in env
    ensures GetBoolEnv(env, name, true) == GetBoolEnv(env, name, false)
  {
  }

  /** A set variable is on exactly when its trimmed value spells a true word in any ASCII case. */
  lemma GetBoolEnvSet(env: map<string, string>, name: string, default: bool, w: string, pre: string, post: string)
    requires name in env && env[name] == pre + w + post
    requires forall i :: 0 <= i < |pre| ==> IsSpace(pre[i])
    requires forall i :: 0 <= i < |post| ==> IsSpace(post[i])
    requires w != [] && !IsSpace(w[0]) && !IsSpace(w[|w| - 1])
    ensures GetBoolEnv(env, name, default) <==> Lower(w) in TrueWords
  {
    StripPadded(pre, w, post);
  }

  /** `str.strip` removes exactly the surrounding whitespace. */
  lemma StripPadded(pre: string, w: string, post: string)
    requires forall i :: 0 <= i < |pre| ==> IsSpace(pre[i])
    requires forall i :: 0 <= i < |post| ==> IsSpace(post[i])
    requires w != [] && !IsSpace(w[0]) && !IsSpace(w[|w| - 1])
    ensures Strip(pre + w + post) == w
  {
    assert pre + w + post == pre + (w + post);
    assert (w + post)[0] == w[0];
    LStripPadded(pre, w + post);
    RStripPadded(w, post);
  }

  /** `str.lstrip` drops exactly a leading run of whitespace. */
  lemma {:induction false} LStripPadded(pre: string, x: string)
    requires forall i :: 0 <= i < |pre| ==> IsSpace(pre[i])
    requires x != [] && !IsSpace(x[0])
    ensures LStrip(pre + x) == x
  {
    if pre == [] {
      assert pre + x == x;
    } else {
      assert (pre + x)[0] == pre[0];
      assert (pre + x)[1..] == pre[1..] + x;
      LStripPadded(pre[1..], x);
    }
  }

  /** `str.rstrip` drops exactly a trailing run of whitespace. */
  lemma {:induction false} RStripPadded(x: string, post: string)
    requires forall i :: 0 <= i < |post| ==> IsSpace(post[i])
    requires x != [] && !IsSpace(x[|x| - 1])
    ensures RStrip(x + post) == x
  {
    if post == [] {
      assert x + post == x;
    } else {
      var s, q := x + post, post[..|post| - 1];
      assert s[|s| - 1] == post[|post| - 1];
      assert s[..|s| - 1] == x + q;
      RStripPadded(x, q);
    }
  }

  /** " YES " switches a variable on even when the default is off. */
  lemma PaddedYesIsTrue(env: map<string, string>, name: string)
    requires name in env && env[name] == " YES "
    ensures GetBoolEnv(env, name, false)
  {
    GetBoolEnvSet(env, name, false, "YES", " ", " ");
    assert Lower("YES") == "yes";
  }

  /** "0", "false" and "" switch a variable off even when the default is on. */
  lemma FalseWordsAreFalse(env: map<string, string>, name: string)
    requires name in env && (env[name] == "0" || env[name] == "false" || env[name] == "")
    ensures !GetBoolEnv(env, name, true)
  {
    var v := env[name];
    assert forall i :: 0 <= i < |v| ==> v[i] in "0falsefalse";
    PlainWordKept(v);
    NotTrueWord(v);
  }

  /** A word of lower-case letters and digits is its own stripped, lower-cased form. */
  lemma PlainWordKept(v: string)
    requires forall i :: 0 <= i < |v| ==> 'a' <= v[i] <= 'z' || '0' <= v[i] <= '9'
    ensures Lower(Strip(v)) == v
  {
    if v == [] {
      StripNoSpace(v);
    } else {
      assert !IsSpace(v[0]) && !IsSpace(v[|v| - 1]);
      StripEnds(v);
    }
    LowerOfLower(v);
  }

  /** None of the false words is a true word. */
  lemma NotTrueWord(v: string)
    requires v == "0" || v == "false" || v == ""
    ensures v !in TrueWords
  {
    if v == "0" {
      assert v[0] != "1"[0];
    } else if v == "false" {
      assert v[0] != "true"[0] && |v| != |"yes"| && |v| != |"on"|;
    }
  }

  /** `REQUEST_TIMEOUT`, in seconds. */
  const RequestTimeout: nat := 30

  /** `MAX_RETRIES`: default number of attempts of every fetch. */
  const MaxRetries: nat := 3

  /** `MAX_CONCURRENT_DETAIL_REQUESTS` (the semaphore size; concurrency is not modelled). */
  const MaxConcurrentDetailRequests: nat := 5

  /** `TESSERACT_CMD`: empty, so OCR is switched off. */
  const TesseractCmd: string := ""

  /**
   * `DETAIL_SELECTORS`: one dict of selector groups (group name to a dict
   * of selectors), not a list of per-site dicts.
   */
  const DetailSelectors: map<string, map<string, string>> := map[
    "meta_selector" := map["item_container" := "#d-container", "publisher" := ".arti_publisher",
                           "views" := ".arti_views"],
    "text_selector" := map["item_container" := "#d-container", "content" := ".wp_articlecontent"],
    "img_selector" := map["item_container" := "#d-container", "images" := ".wp_articlecontent img[src]"],
    "pdf_selector" := map["item_container" := "#d-container",
                          "files" := ".wp_articlecontent a[href$=\".pdf\"]",
                          "name" := ".wp_articlecontent a[href$=\".pdf\"] span"],
    "doc_selector" := map["item_container" := "#d-container",
                          "files" := ".wp_articlecontent a[href$=\".doc\"], .wp_articlecontent a[href$=\".docx\"]",
                          "name" := ".wp_articlecontent a[href$=\".doc\"], .wp_articlecontent a[href$=\".docx\"]"],
    "embedded_pdf_selector" := map["item_container" := "#d-container",
                                   "viewer" := ".wp_articlecontent iframe.wp_pdf_player",
                                   "download_link" := ".wp_articlecontent img[src$=\"icon_pdf.gif\"] + a"]]

  /** How a source lists its entries: HTML list pages, or a JSON API taking a form payload. */
  datatype Mode = Html | Api(apiUrl: string, payload: seq<(string, Json)>)

  /** One configured target source. */
  datatype Source = Source(
    id: string,
    name: string,
    baseUrl: string,
    listUrl: string,
    maxPages: Option<int>,
    mode: Mode,
    headers: map<string, string>,
    selectors: map<string, string>)

  /** `int(source_cfg.get("max_pages", 1))`. */
  function MaxPages(src: Source): (n: int)
    ensures src.maxPages.None? ==> n == 1
  {
    if src.maxPages.Some? then src.maxPages.value else 1
  }

  /** The one configured source, "本科生院-公告通知". */
  const SampleSource: Source := Source(
    "bksy_ggtz",
    "本科生院-公告通知",
    "https://jw.nju.edu.cn",
    "https://jw.nju.edu.cn/ggtz/list1.htm",
    Some(5),
    Html,
    map["USER_AGENT" := "Mozilla/5.0 (Windows NT 10.0; Win64; x64) AppleWebKit/537.36 (KHTML, like Gecko) Chrome/142.0.0.0 Safari/537.36 Edg/142.0.0.0",
        "host" := "jw.nju.edu.cn"],
    map["item_container" := "#wp_news_w6 li.news", "date" := ".news_meta",
        "title" := ".news_title a", "url" := ".news_title a", "type" := ".wjj .lj"])

  /** `TARGET_SOURCES`. */
  const TargetSources: seq<Source> := [SampleSource]

  /** `next((src for src in TARGET_SOURCES if src["id"] == source_id), None)`. */
  function FindSource(sources: seq<Source>, id: string): (r: Option<Source>)
    ensures r.Some? ==> r.value in sources && r.value.id == id
    ensures r.None? <==> forall k :: 0 <= k < |sources| ==> sources[k].id != id
    ensures r.Some? ==> exists k :: 0 <= k < |sources| && sources[k] == r.value
                                    && forall j :: 0 <= j < k ==> sources[j].id != id
  {
    if sources == [] then None
    else if sources[0].id == id then Some(sources[0])
    else
      var r := FindSource(sources[1..], id);
      assert forall k :: 1 <= k < |sources| ==> sources[k] == sources[1..][k - 1];
      if r.Some? then
        ghost var k :| 0 <= k < |sources[1..]| && sources[1..][k] == r.value
                       && forall j :: 0 <= j < k ==> sources[1..][j].id != id;
        assert sources[k + 1] == r.value;
        r
      else r
  }
}

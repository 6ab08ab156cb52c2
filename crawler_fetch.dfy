/**
 * The network layer of the crawler: the retry loop shared by `fetch_html`,
 * `download_binary` and `fetch_api`, the base64 form payload of `fetch_api`
 * and the `Content-Type` it adds to the caller's headers. The transport is
 * a parameter: `attempt(k)` is the outcome of the `k`-th request (None when
 * it raises, times out, fails `raise_for_status` or, for the API, returns
 * a body that is not JSON).
 */
module CrawlerFetch {
  import opened Wrappers
  import opened Text
  import opened Json
  import opened Dicts
  import Base64

  // ---------------------------------------------------------------------
  // The retry loop
  // ---------------------------------------------------------------------

  /** The first attempt numbered from `k` up to `retries - 1` that succeeds. */
  function FirstSuccess<T>(attempt: nat -> Option<T>, retries: int, k: nat): (r: Option<nat>)
    decreases retries - k
    ensures r.Some? ==> k <= r.value < retries && attempt(r.value).Some?
                        && forall j :: k <= j < r.value ==> attempt(j).None?
    ensures r.None? <==> forall j :: k <= j < retries ==> attempt(j).None?
  {
    if retries <= k then None
    else if attempt(k).Some? then Some(k)
    else FirstSuccess(attempt, retries, k + 1)
  }

  /** What `retries` attempts give: the first success, or None when every one fails. */
  function Outcome<T>(attempt: nat -> Option<T>, retries: int): (r: Option<T>)
    ensures r.Some? <==> exists k :: 0 <= k < retries && attempt(k).Some?
    ensures r.Some? ==> exists k :: 0 <= k < retries && r == attempt(k)
                                    && forall j :: 0 <= j < k ==> attempt(j).None?
  {
    match FirstSuccess(attempt, retries, 0)
    case Some(k) => attempt(k)
    case None => None
  }

  /**
   * `for attempt in range(retries)`: try, return on success, give up after
   * the last attempt, and otherwise sleep `1 + attempt` seconds. Returns
   * the outcome, the number of attempts made and the sleeps in order.
   */
  method Retry<T>(attempt: nat -> Option<T>, retries: int) returns (result: Option<T>, attempts: nat, waits: seq<nat>)
    ensures result == Outcome(attempt, retries)
    ensures match FirstSuccess(attempt, retries, 0)
            case Some(k) => attempts == k + 1
            case None => attempts == if retries < 0 then 0 else retries
    ensures |waits| == (if attempts == 0 then 0 else attempts - 1)
    ensures forall j :: 0 <= j < |waits| ==> waits[j] == j + 1
  {
    result, attempts, waits := None, 0, [];
    while attempts < retries
      invariant attempts == 0 || attempts < retries
      invariant FirstSuccess(attempt, retries, 0) == FirstSuccess(attempt, retries, attempts)
      invariant |waits| == attempts && forall j :: 0 <= j < |waits| ==> waits[j] == j + 1
      decreases retries - attempts
    {
      var outcome := attempt(attempts);
      attempts := attempts + 1;
      if outcome.Some? {
        result := outcome;
        return;
      }
      if attempts == retries {
        return;
      }
      waits := waits + [attempts];
    }
  }

  /** The message of the RuntimeError raised once every attempt has failed. */
  function FailureMessage(what: string, url: string, retries: int): (msg: string)
    ensures StartsWith(msg, "Failed to fetch " + what + url)
  {
    var head := "Failed to fetch " + what + url;
    if 1 <= retries then head + " after " + NatToString(retries) + " attempts." else head
  }

  /** `fetch_html(url, headers, retries=retries)`: the page text, or the RuntimeError. */
  method FetchHtml(url: string, get: nat -> Option<string>, retries: int) returns (r: Result<string, string>)
    ensures r.Ok? <==> Outcome(get, retries).Some?
    ensures r.Ok? ==> r.value == Outcome(get, retries).value
    ensures r.Err? ==> r.error == FailureMessage("", url, retries)
  {
    var result, _, _ := Retry(get, retries);
    if result.Some? {
      r := Ok(result.value);
    } else {
      r := Err(FailureMessage("", url, retries));
    }
  }

  /** `download_binary(url, headers, retries=retries)`: the body, or None. */
  method DownloadBinary(get: nat -> Option<seq<Base64.Byte>>, retries: int) returns (r: Option<seq<Base64.Byte>>)
    ensures r == Outcome(get, retries)
  {
    var result, _, _ := Retry(get, retries);
    r := result;
  }

  // ---------------------------------------------------------------------
  // fetch_api
  // ---------------------------------------------------------------------

  /**
   * `str(v)` of a payload value: a string is itself, None is "None", a
   * bool "True" or "False", an integer its decimal form; a list or dict is
   * its Python repr, which `repr` gives.
   */
  function PyStr(v: Json, repr: Json -> string): string
  {
    match v
    case JNull => "None"
    case JBool(b) => if b then "True" else "False"
    case JNum(n) => IntToString(n)
    case JStr(s) => s
    case JArr(_) => repr(v)
    case JObj(_) => repr(v)
  }

  /** `{k: base64_encode(v) for k, v in payload.items()}`: each value's `str()`, base64-encoded. */
  function EncodePayload(payload: Dict<string, Json>, repr: Json -> string): (r: Dict<string, string>)
    ensures |r| == |payload|
    ensures forall i :: 0 <= i < |r| ==> r[i].0 == payload[i].0
    ensures forall i :: 0 <= i < |r| ==> Base64.Decode(r[i].1) == Some(Base64.Utf8(PyStr(payload[i].1, repr)))
  {
    if payload == [] then []
    else [(payload[0].0, Base64.EncodeText(PyStr(payload[0].1, repr)))] + EncodePayload(payload[1..], repr)
  }

  /** Non-string scalars are sent as Python prints them: None, True, False and the decimal integer. */
  lemma ScalarPayloadText(repr: Json -> string)
    ensures var r := EncodePayload([("a", JNull), ("b", JBool(true)), ("c", JBool(false)), ("d", JNum(-12))], repr);
            Base64.Decode(r[0].1) == Some(Base64.Utf8("None"))
            && Base64.Decode(r[1].1) == Some(Base64.Utf8("True"))
            && Base64.Decode(r[2].1) == Some(Base64.Utf8("False"))
            && Base64.Decode(r[3].1) == Some(Base64.Utf8("-12"))
  {
    assert IntToString(-12) == "-" + NatToString(12);
    assert NatToString(12) == NatToString(1) + [DigitChar(2)] == "12";
  }

  /** The form content type `fetch_api` sends unless the caller set one. */
  const FormContentType: string := "application/x-www-form-urlencoded; charset=UTF-8"

  /** The caller's request headers: `fetch_api` changes the very dict it is given. */
  class Headers {
    var entries: map<string, string>

    constructor (entries: map<string, string>)
      ensures this.entries == entries
    {
      this.entries := entries;
    }

    /** `if "Content-Type" not in headers: headers["Content-Type"] = ...` (the key is matched exactly). */
    method EnsureContentType()
      modifies this
      ensures entries == WithContentType(old(entries))
    {
      if "Content-Type" !in entries {
        entries := entries["Content-Type" := FormContentType];
      }
    }
  }

  /** The headers after `fetch_api`: a `Content-Type` is present, and the caller's one wins. */
  function WithContentType(h: map<string, string>): (r: map<string, string>)
    ensures "Content-Type" in r
    ensures "Content-Type" in h ==> r["Content-Type"] == h["Content-Type"]
    ensures "Content-Type" !in h ==> r["Content-Type"] == FormContentType
    ensures forall k :: k != "Content-Type" ==> (k in r <==> k in h)
    ensures forall k :: k in h ==> r[k] == h[k]
  {
    if "Content-Type" in h then h else h["Content-Type" := FormContentType]
  }

  /** Adding the content type twice changes nothing more. */
  lemma WithContentTypeIdempotent(h: map<string, string>)
    ensures WithContentType(WithContentType(h)) == WithContentType(h)
  {
  }

  /**
   * `fetch_api(url, payload, headers, retries=retries)`: `post(data, headers)`
   * gives the outcome of each POST of the form `data` with those headers.
   */
  method FetchApi(url: string, payload: Dict<string, Json>, repr: Json -> string, headers: Headers,
                  post: (Dict<string, string>, map<string, string>) -> (nat -> Option<Json>), retries: int)
    returns (r: Result<Json, string>)
    modifies headers
    ensures headers.entries == WithContentType(old(headers.entries))
    ensures r == ApiOutcome(url, payload, repr, headers.entries, post, retries)
  {
    var data := EncodePayload(payload, repr);
    headers.EnsureContentType();
    var result, _, _ := Retry(post(data, headers.entries), retries);
    if result.Some? {
      r := Ok(result.value);
    } else {
      r := Err(FailureMessage("API ", url, retries));
    }
  }

  /** The decoded JSON of the first POST that succeeds, or the RuntimeError. */
  function ApiOutcome(url: string, payload: Dict<string, Json>, repr: Json -> string, headers: map<string, string>,
                      post: (Dict<string, string>, map<string, string>) -> (nat -> Option<Json>), retries: int): (r: Result<Json, string>)
    ensures r.Ok? <==> Outcome(post(EncodePayload(payload, repr), headers), retries).Some?
    ensures r.Ok? ==> r.value == Outcome(post(EncodePayload(payload, repr), headers), retries).value
    ensures r.Err? ==> r.error == FailureMessage("API ", url, retries)
  {
    match Outcome(post(EncodePayload(payload, repr), headers), retries)
    case Some(j) => Ok(j)
    case None => Err(FailureMessage("API ", url, retries))
  }
}

/**
 * The pure pieces of the QR-code login (wechat/auth.py): reading the
 * token from the address the browser lands on, the earliest cookie
 * expiry, the cookie header string, and the session dict saved after the
 * login. The browser itself (its address, cookies, user agent) and the
 * clock are parameters.
 */
module WechatAuth {
  import opened Wrappers
  import opened Text
  import opened Json
  import WechatConfig

  // ---------------------------------------------------------------------
  // extract_token
  // ---------------------------------------------------------------------

  /** Characters `[^&#]` matches. */
  predicate TokenChar(c: char)
  {
    c != '&' && c != '#'
  }

  /** The longest prefix of `s` made of token characters (the greedy `[^&#]+`). */
  function TokenRun(s: string): (r: string)
    ensures |r| <= |s| && r == s[..|r|]
    ensures forall k :: 0 <= k < |r| ==> TokenChar(r[k])
    ensures |r| < |s| ==> !TokenChar(s[|r|])
  {
    if s == [] || !TokenChar(s[0]) then [] else [s[0]] + TokenRun(s[1..])
  }

  /** The text between the separator and the token. */
  const TokenKey: string := "token="

  /** The group of a match of `[?&]token=([^&#]+)` that starts at `i`, if one does. */
  function MatchAt(url: string, i: nat): (r: Option<string>)
    requires i < |url|
    ensures r.Some? ==> r.value != [] && forall k :: 0 <= k < |r.value| ==> TokenChar(r.value[k])
  {
    if (url[i] == '?' || url[i] == '&') && StartsWith(url[i + 1..], TokenKey) then
      var run := TokenRun(url[i + 1 + |TokenKey|..]);
      if run != [] then Some(run) else None
    else None
  }

  /** `re.search` from position `i`: the first position where the pattern matches. */
  function SearchFrom(url: string, i: nat): (r: Option<string>)
    requires i <= |url|
    ensures r.None? <==> forall j :: i <= j < |url| ==> MatchAt(url, j).None?
    ensures r.Some? ==> exists j :: i <= j < |url| && MatchAt(url, j) == r
                                    && forall k :: i <= k < j ==> MatchAt(url, k).None?
    decreases |url| - i
  {
    if i == |url| then None
    else if MatchAt(url, i).Some? then MatchAt(url, i)
    else SearchFrom(url, i + 1)
  }

  /** `extract_token`: the token of the first `?token=` or `&token=` with a non-empty value. */
  function ExtractToken(url: string): (r: Option<string>)
    ensures r.None? <==> forall j :: 0 <= j < |url| ==> MatchAt(url, j).None?
    ensures r.Some? ==> r.value != [] && forall k :: 0 <= k < |r.value| ==> TokenChar(r.value[k])
  {
    SearchFrom(url, 0)
  }

  /** The greedy run over a token followed by a stop character is the token. */
  lemma {:induction false} TokenRunOf(t: string, tail: string)
    requires forall k :: 0 <= k < |t| ==> TokenChar(t[k])
    requires tail == [] || !TokenChar(tail[0])
    ensures TokenRun(t + tail) == t
  {
    if t != [] {
      assert (t + tail)[1..] == t[1..] + tail;
      TokenRunOf(t[1..], tail);
      assert [t[0]] + t[1..] == t;
    } else {
      assert t + tail == tail;
    }
  }

  /**
   * A token placed after a path with no query separators is read back,
   * whatever follows it from an `&` or `#` on.
   */
  lemma TokenRoundTrip(path: string, t: string, tail: string)
    requires '?' !in path && '&' !in path
    requires t != [] && forall k :: 0 <= k < |t| ==> TokenChar(t[k])
    requires tail == [] || !TokenChar(tail[0])
    ensures ExtractToken(path + "?" + TokenKey + t + tail) == Some(t)
  {
    var url := path + "?" + TokenKey + t + tail;
    TokenAfterPath(path, t, tail);
    assert url[..|path|] == path;
    NoMatchInPath(url, path);
    SearchFirst(url, 0, |path|);
  }

  /** The match right after the path reads the token. */
  lemma TokenAfterPath(path: string, t: string, tail: string)
    requires t != [] && forall k :: 0 <= k < |t| ==> TokenChar(t[k])
    requires tail == [] || !TokenChar(tail[0])
    ensures var url := path + "?" + TokenKey + t + tail;
            |path| < |url| && MatchAt(url, |path|) == Some(t)
  {
    var url := path + "?" + TokenKey + t + tail;
    var p := |path|;
    assert url[p] == '?';
    assert url[p + 1..] == TokenKey + t + tail;
    assert url[p + 1 + |TokenKey|..] == t + tail;
    TokenRunOf(t, tail);
  }

  /** No match starts inside a path without `?` and `&`. */
  lemma NoMatchInPath(url: string, path: string)
    requires '?' !in path && '&' !in path
    requires |path| <= |url| && url[..|path|] == path
    ensures forall j :: 0 <= j < |path| ==> MatchAt(url, j).None?
  {
    forall j | 0 <= j < |path|
      ensures MatchAt(url, j).None?
    {
      assert url[j] == path[j];
    }
  }

  /** The search returns the first position that matches. */
  lemma {:induction false} SearchFirst(url: string, i: nat, p: nat)
    requires i <= p < |url| && MatchAt(url, p).Some?
    requires forall j :: i <= j < p ==> MatchAt(url, j).None?
    ensures SearchFrom(url, i) == MatchAt(url, p)
    decreases p - i
  {
    if i < p {
      SearchFirst(url, i + 1, p);
    }
  }

  /** An address whose only token is empty carries no token. */
  lemma EmptyTokenIgnored(path: string)
    requires '?' !in path && '&' !in path && '#' !in path
    ensures ExtractToken(path + "?" + TokenKey + "#") == None
  {
    var url := path + "?" + TokenKey + "#";
    var p := |path|;
    assert url[p + 1 + |TokenKey|..] == "#";
    forall j | 0 <= j < |url|
      ensures MatchAt(url, j).None?
    {
      if j < p {
        assert url[j] == path[j];
      }
    }
  }

  // ---------------------------------------------------------------------
  // cookies_and_expiry
  // ---------------------------------------------------------------------

  /** A cookie as the browser driver reports it; `expiry` is absent for session cookies. */
  datatype Cookie = Cookie(name: string, value: string, expiry: Option<Json>)

  /** `int(x)` for a decoded JSON value, or None where it raises. */
  function IntOf(j: Json): (r: Option<int>)
    ensures j.JNum? ==> r == Some(j.n)
    ensures j.JNull? || j.JArr? || j.JObj? ==> r.None?
  {
    match j
    case JNum(n) => Some(n)
    case JBool(b) => Some(if b then 1 else 0)
    case JStr(s) => IntOfText(s)
    case _ => None
  }

  /** `int(s)` of a string: optional surrounding whitespace, an optional sign, ASCII digits. */
  function IntOfText(s: string): (r: Option<int>)
    ensures AllDigits(s) && s != [] ==> r == Some(DigitsValue(s))
  {
    var t := Strip(s);
    if AllDigits(s) && s != [] then StripNoSpace(s); Some(DigitsValue(s))
    else if t == [] then None
    else if |t| > 1 && (t[0] == '-' || t[0] == '+') && AllDigits(t[1..]) then
      Some(if t[0] == '-' then -(DigitsValue(t[1..]) as int) else DigitsValue(t[1..]))
    else if AllDigits(t) then Some(DigitsValue(t))
    else None
  }

  /** The expiries `cookies_and_expiry` collects: those present and convertible, in order. */
  function Expiries(cookies: seq<Cookie>): (r: seq<int>)
    ensures |r| <= |cookies|
    ensures r == [] <==> forall i :: 0 <= i < |cookies| ==> cookies[i].expiry.None? || IntOf(cookies[i].expiry.value).None?
    ensures forall x :: x in r ==> exists i :: 0 <= i < |cookies| && cookies[i].expiry.Some?
                                              && IntOf(cookies[i].expiry.value) == Some(x)
  {
    if cookies == [] then []
    else
      var c := cookies[|cookies| - 1];
      var init := Expiries(cookies[..|cookies| - 1]);
      if c.expiry.Some? && IntOf(c.expiry.value).Some? then init + [IntOf(c.expiry.value).value] else init
  }

  /** `min(xs)`. */
  function Min(xs: seq<int>): (m: int)
    requires xs != []
    ensures m in xs && forall x :: x in xs ==> m <= x
  {
    if |xs| == 1 then xs[0]
    else
      var rest := Min(xs[1..]);
      assert forall x :: x in xs ==> x == xs[0] || x in xs[1..];
      if xs[0] <= rest then xs[0] else rest
  }

  /** The earliest convertible expiry, or None when no cookie has one. */
  function EarliestExpiry(cookies: seq<Cookie>): (r: Option<int>)
    ensures r.None? <==> Expiries(cookies) == []
    ensures r.Some? ==> r.value in Expiries(cookies) && forall x :: x in Expiries(cookies) ==> r.value <= x
  {
    if Expiries(cookies) == [] then None else Some(Min(Expiries(cookies)))
  }

  /** A cookie whose expiry cannot be converted is skipped, not fatal. */
  lemma UnconvertibleSkipped(cookies: seq<Cookie>, c: Cookie)
    requires c.expiry.Some? && IntOf(c.expiry.value).None?
    ensures EarliestExpiry(cookies + [c]) == EarliestExpiry(cookies)
  {
    assert (cookies + [c])[..|cookies|] == cookies;
  }

  /** `cookies_and_expiry`: the cookies unchanged and the earliest expiry. */
  method CookiesAndExpiry(cookies: seq<Cookie>) returns (cs: seq<Cookie>, expiry: Option<int>)
    ensures cs == cookies
    ensures expiry == EarliestExpiry(cookies)
    ensures expiry.Some? ==> exists i :: 0 <= i < |cookies| && cookies[i].expiry.Some?
                                         && IntOf(cookies[i].expiry.value) == expiry
  {
    var expList: seq<int> := [];
    var i := 0;
    while i < |cookies|
      invariant 0 <= i <= |cookies|
      invariant expList == Expiries(cookies[..i])
    {
      assert cookies[..i + 1][..i] == cookies[..i];
      var c := cookies[i];
      if c.expiry.Some? {
        var n := IntOf(c.expiry.value);
        if n.Some? {
          expList := expList + [n.value];
        }
      }
      i := i + 1;
    }
    assert cookies[..i] == cookies;
    expiry := None;
    if expList != [] {
      expiry := Some(Min(expList));
    }
    cs := cookies;
  }

  // ---------------------------------------------------------------------
  // format_cookies_str
  // ---------------------------------------------------------------------

  /** `f"{c['name']}={c['value']}"` for each cookie, in order. */
  function Pairs(cookies: seq<Cookie>): (r: seq<string>)
    ensures |r| == |cookies| && forall i :: 0 <= i < |r| ==> r[i] == cookies[i].name + "=" + cookies[i].value
  {
    if cookies == [] then [] else [cookies[0].name + "=" + cookies[0].value] + Pairs(cookies[1..])
  }

  /** `format_cookies_str`: the pairs joined with "; ". */
  function FormatCookiesStr(cookies: seq<Cookie>): (r: string)
    ensures r == "" <==> cookies == []
  {
    var ps := Pairs(cookies);
    assert ps != [] ==> StartsWith(Join("; ", ps), ps[0]) && ps[0] != "";
    Join("; ", ps)
  }

  /** `[" " + p for p in ps]`. */
  function Spaced(ps: seq<string>): (r: seq<string>)
    ensures |r| == |ps| && forall i :: 0 <= i < |ps| ==> r[i] == " " + ps[i]
  {
    if ps == [] then [] else [" " + ps[0]] + Spaced(ps[1..])
  }

  /** Joining with "; " is joining with ";" after a space is put before every part but the first. */
  lemma {:induction false} JoinSemicolonSpace(ps: seq<string>)
    requires ps != []
    ensures Join("; ", ps) == Join([';'], [ps[0]] + Spaced(ps[1..]))
  {
    if |ps| > 1 {
      JoinSemicolonSpace(ps[1..]);
      var rest := Spaced(ps[1..]);
      assert rest == [" " + ps[1]] + Spaced(ps[2..]);
      assert ([ps[0]] + rest)[1..] == rest;
      assert ([ps[1]] + Spaced(ps[2..]))[1..] == Spaced(ps[2..]);
      assert ps[1..][1..] == ps[2..];
      assert Join([';'], rest) == " " + Join([';'], [ps[1]] + Spaced(ps[2..])) by {
        JoinSpaced(ps[1], Spaced(ps[2..]));
      }
    } else {
      assert [ps[0]] + Spaced(ps[1..]) == [ps[0]];
    }
  }

  /** A space put before the first part is put before the whole join. */
  lemma JoinSpaced(p: string, rest: seq<string>)
    ensures Join([';'], [" " + p] + rest) == " " + Join([';'], [p] + rest)
  {
    if rest != [] {
      assert ([" " + p] + rest)[1..] == rest;
      assert ([p] + rest)[1..] == rest;
    }
  }

  /** `name, _, value = pair.partition("=")`, for a pair that holds an "=". */
  function Partition(pair: string): (r: (string, string))
  {
    if pair == [] then ("", "")
    else if pair[0] == '=' then ("", pair[1..])
    else
      var rest := Partition(pair[1..]);
      ([pair[0]] + rest.0, rest.1)
  }

  /** A name free of "=" is cut off exactly at the "=" that follows it. */
  lemma {:induction false} PartitionPair(name: string, value: string)
    requires '=' !in name
    ensures Partition(name + "=" + value) == (name, value)
  {
    var s := name + "=" + value;
    if name == [] {
      assert s[0] == '=' && s[1..] == value;
    } else {
      assert s[1..] == name[1..] + "=" + value;
      PartitionPair(name[1..], value);
      assert [name[0]] + name[1..] == name;
    }
  }

  /** Reads a cookie header back into (name, value) pairs: split on ";", drop the space after each ";", partition at "=". */
  function ParseCookieStr(s: string): (r: seq<(string, string)>)
  {
    if s == "" then []
    else
      var parts := Split(s, ';');
      [Partition(parts[0])] + Unspaced(parts[1..])
  }

  /** Each part with its leading space dropped, partitioned at "=". */
  function Unspaced(parts: seq<string>): (r: seq<(string, string)>)
    ensures |r| == |parts|
  {
    if parts == [] then []
    else [Partition(if parts[0] != [] && parts[0][0] == ' ' then parts[0][1..] else parts[0])] + Unspaced(parts[1..])
  }

  /** Unspacing what was spaced gives the partitioned pairs. */
  lemma {:induction false} UnspacedSpaced(cookies: seq<Cookie>)
    requires forall i :: 0 <= i < |cookies| ==> '=' !in cookies[i].name
    ensures Unspaced(Spaced(Pairs(cookies))) == Named(cookies)
  {
    if cookies != [] {
      var c := cookies[0];
      assert Spaced(Pairs(cookies))[1..] == Spaced(Pairs(cookies[1..]));
      assert (" " + (c.name + "=" + c.value))[1..] == c.name + "=" + c.value;
      PartitionPair(c.name, c.value);
      UnspacedSpaced(cookies[1..]);
    }
  }

  /** The (name, value) pairs of the cookies. */
  function Named(cookies: seq<Cookie>): (r: seq<(string, string)>)
    ensures |r| == |cookies| && forall i :: 0 <= i < |r| ==> r[i] == (cookies[i].name, cookies[i].value)
  {
    if cookies == [] then [] else [(cookies[0].name, cookies[0].value)] + Named(cookies[1..])
  }

  /**
   * The cookie header reads back into the cookies' names and values, in
   * order, when no name holds "=" or ";" and no value holds ";".
   */
  lemma CookieStrRoundTrip(cookies: seq<Cookie>)
    requires forall i :: 0 <= i < |cookies| ==> '=' !in cookies[i].name && ';' !in cookies[i].name
    requires forall i :: 0 <= i < |cookies| ==> ';' !in cookies[i].value
    ensures ParseCookieStr(FormatCookiesStr(cookies)) == Named(cookies)
  {
    if cookies != [] {
      var ps := Pairs(cookies);
      var parts := [ps[0]] + Spaced(ps[1..]);
      var s := FormatCookiesStr(cookies);
      JoinSemicolonSpace(ps);
      assert s == Join([';'], parts);
      PartsFree(cookies, parts);
      SplitJoin(parts, ';');
      assert Split(s, ';') == parts;
      assert parts[1..] == Spaced(Pairs(cookies[1..]));
      UnspacedSpaced(cookies[1..]);
      PartitionPair(cookies[0].name, cookies[0].value);
      assert ParseCookieStr(s) == [(cookies[0].name, cookies[0].value)] + Named(cookies[1..]);
    }
  }

  /** No part of a cookie header holds a ";" of its own. */
  lemma PartsFree(cookies: seq<Cookie>, parts: seq<string>)
    requires cookies != [] && parts == [Pairs(cookies)[0]] + Spaced(Pairs(cookies)[1..])
    requires forall i :: 0 <= i < |cookies| ==> ';' !in cookies[i].name && ';' !in cookies[i].value
    ensures forall k :: 0 <= k < |parts| ==> ';' !in parts[k]
  {
    var ps := Pairs(cookies);
    forall k | 0 <= k < |parts|
      ensures ';' !in parts[k]
    {
      PairFree(cookies[k].name, cookies[k].value);
      if k > 0 {
        assert parts[k] == " " + ps[k];
      }
    }
  }

  /** A pair built from ";"-free halves holds no ";", with or without a leading space. */
  lemma PairFree(name: string, value: string)
    requires ';' !in name && ';' !in value
    ensures ';' !in name + "=" + value && ';' !in " " + (name + "=" + value)
  {
    var p := name + "=" + value;
    forall i | 0 <= i < |p|
      ensures p[i] != ';'
    {
      if i < |name| {
        assert p[i] == name[i];
      } else if i > |name| {
        assert p[i] == value[i - |name| - 1];
      }
    }
    var q := " " + p;
    forall i | 0 <= i < |q|
      ensures q[i] != ';'
    {
      if i > 0 {
        assert q[i] == p[i - 1];
      }
    }
  }

  // ---------------------------------------------------------------------
  // The session saved by get_cookies
  // ---------------------------------------------------------------------

  /** `expiry_human`: the formatted expiry, or None when the expiry is falsy (None or 0). */
  function ExpiryHuman(expiry: Option<int>, format: int -> string): (r: Option<string>)
    ensures r.None? <==> expiry.None? || expiry.value == 0
    ensures r.Some? ==> r.value == format(expiry.value)
  {
    if expiry.None? || expiry.value == 0 then None else Some(format(expiry.value))
  }

  /** A cookie as the dict saved in the session file. */
  function CookieJson(c: Cookie): Json
  {
    var base := map["name" := JStr(c.name), "value" := JStr(c.value)];
    JObj(if c.expiry.Some? then base["expiry" := c.expiry.value] else base)
  }

  /** `[CookieJson(c) for c in cookies]`. */
  function CookiesJson(cookies: seq<Cookie>): (r: seq<Json>)
    ensures |r| == |cookies|
  {
    if cookies == [] then [] else [CookieJson(cookies[0])] + CookiesJson(cookies[1..])
  }

  /**
   * The session dict `get_cookies` saves, from the address the login lands
   * on, the browser's cookies and user agent, and the clock readings
   * (`format` renders an expiry, `savedAt` is the save time).
   */
  function LoginSession(url: string, cookies: seq<Cookie>, userAgent: Json,
                        format: int -> string, savedAt: string): (r: WechatConfig.Object)
    ensures r.Keys == {"token", "cookies", "cookies_str", "user_agent", "expiry", "expiry_human", "saved_at"}
  {
    var token := ExtractToken(url);
    var expiry := EarliestExpiry(cookies);
    var human := ExpiryHuman(expiry, format);
    map["token" := if token.Some? then JStr(token.value) else JNull,
        "cookies" := JArr(CookiesJson(cookies)),
        "cookies_str" := JStr(FormatCookiesStr(cookies)),
        "user_agent" := userAgent,
        "expiry" := if expiry.Some? then JNum(expiry.value) else JNull,
        "expiry_human" := if human.Some? then JStr(human.value) else JNull,
        "saved_at" := JStr(savedAt)]
  }

  /**
   * The saved session is valid exactly when the landing address carried a
   * token and the browser held at least one cookie.
   */
  lemma LoginSessionValid(url: string, cookies: seq<Cookie>, userAgent: Json,
                          format: int -> string, savedAt: string, current: WechatConfig.Object)
    ensures WechatConfig.HasValidSession(Some(LoginSession(url, cookies, userAgent, format, savedAt)), current)
            <==> ExtractToken(url).Some? && cookies != []
  {
    LoginSessionFields(url, cookies, userAgent, format, savedAt);
  }

  /** The two fields the validity check reads, as the saved session holds them. */
  lemma LoginSessionFields(url: string, cookies: seq<Cookie>, userAgent: Json,
                           format: int -> string, savedAt: string)
    ensures var m := LoginSession(url, cookies, userAgent, format, savedAt);
            var token := ExtractToken(url);
            m != map[] && "token" in m && "cookies_str" in m
            && m["token"] == (if token.Some? then JStr(token.value) else JNull)
            && m["cookies_str"] == JStr(FormatCookiesStr(cookies))
  {
    var m := LoginSession(url, cookies, userAgent, format, savedAt);
    assert "token" in m && "cookies_str" in m;
  }

  /** A zero expiry is saved with no human-readable form. */
  lemma ZeroExpiryNotRendered(url: string, cookies: seq<Cookie>, userAgent: Json,
                              format: int -> string, savedAt: string)
    requires EarliestExpiry(cookies) == Some(0)
    ensures LoginSession(url, cookies, userAgent, format, savedAt)["expiry_human"] == JNull
    ensures LoginSession(url, cookies, userAgent, format, savedAt)["expiry"] == JNum(0)
  {
  }
}

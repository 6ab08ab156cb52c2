/**
 * The wechat module's configuration (wechat/config.py): the source list
 * and the login session read from their JSON files, the session validity
 * test, and the latch that prints the login hint once per process.
 *
 * The module-level globals `WECHAT_SOURCES`, `WECHAT_SESSION` and
 * `_SESSION_NOTICE_SHOWN` are the fields of one `Settings` object; the
 * files are `FileState` parameters.
 */
module WechatConfig {
  import opened Wrappers
  import opened Json

  /** A decoded JSON object. */
  type Object = map<string, Json>

  /** `REQUEST_TIMEOUT`, in seconds. */
  const RequestTimeout: nat := 30

  /** `MAX_RETRIES`. */
  const MaxRetries: nat := 3

  /** Number of articles a source asks for when its entry gives none. */
  const DefaultCount: int := 5

  /** One entry of `WECHAT_SOURCES`: the six fields kept from the file. */
  datatype SourceRecord = SourceRecord(id: Json, name: Json, biz: Json, count: Json,
                                       createdAt: Json, articleUrls: Json)

  /** The keys every kept entry has, and no others. */
  const RecordKeys: set<string> := {"id", "name", "biz", "count", "created_at", "article_urls"}

  /** The entry kept for one source object of the file. */
  function RecordOf(f: Object): SourceRecord
  {
    var urls := Get(f, "article_urls", JNull);
    SourceRecord(Get(f, "id", JNull), Get(f, "name", JNull), Get(f, "biz", JNull),
                 Get(f, "count", JNum(DefaultCount)), Get(f, "created_at", JNum(0)),
                 if Truthy(urls) then urls else JArr([]))
  }

  /** The entry as the dict it is held as. */
  function RecordJson(r: SourceRecord): (m: Object)
    ensures m.Keys == RecordKeys
  {
    map["id" := r.id, "name" := r.name, "biz" := r.biz, "count" := r.count,
        "created_at" := r.createdAt, "article_urls" := r.articleUrls]
  }

  /**
   * Missing fields read as null, except `count` (5) and `created_at` (0);
   * `article_urls` is never falsy other than as the empty list.
   */
  lemma RecordDefaults(f: Object)
    ensures "id" !in f ==> RecordOf(f).id == JNull
    ensures "count" !in f ==> RecordOf(f).count == JNum(5)
    ensures "created_at" !in f ==> RecordOf(f).createdAt == JNum(0)
    ensures "count" in f ==> RecordOf(f).count == f["count"]
    ensures Truthy(RecordOf(f).articleUrls) || RecordOf(f).articleUrls == JArr([])
    ensures "article_urls" in f && !Truthy(f["article_urls"]) ==> RecordOf(f).articleUrls == JArr([])
  {
  }

  /** Normalising an already normalised entry changes nothing. */
  lemma RecordRoundTrip(f: Object)
    ensures RecordOf(RecordJson(RecordOf(f))) == RecordOf(f)
  {
    var r := RecordOf(f);
    var m := RecordJson(r);
    assert m["article_urls"] == r.articleUrls;
    assert m["count"] == r.count && m["created_at"] == r.createdAt;
  }

  /** The dict elements of a JSON list, in order (`isinstance(s, dict)`). */
  function Objects(xs: seq<Json>): (r: seq<Object>)
    ensures |r| <= |xs|
    ensures forall k :: 0 <= k < |r| ==> JObj(r[k]) in xs
    ensures forall i :: 0 <= i < |xs| && xs[i].JObj? ==> xs[i].fields in r
  {
    if xs == [] then []
    else
      var last := xs[|xs| - 1];
      Objects(xs[..|xs| - 1]) + (if last.JObj? then [last.fields] else [])
  }

  /** Objects of a concatenation are the objects of each part. */
  lemma {:induction false} ObjectsAppend(xs: seq<Json>, ys: seq<Json>)
    ensures Objects(xs + ys) == Objects(xs) + Objects(ys)
    decreases |ys|
  {
    if ys != [] {
      var n := |ys| - 1;
      assert (xs + ys)[..|xs + ys| - 1] == xs + ys[..n];
      ObjectsAppend(xs, ys[..n]);
    } else {
      assert xs + ys == xs;
    }
  }

  /**
   * What `load_configurations` iterates over: the list itself, or a dict's
   * `sources` list. Every other shape yields no dict element, whether the
   * loop walks a string's characters or a dict's keys or the read raises.
   */
  function SourceItems(file: FileState): (r: seq<Json>)
    ensures file.Parsed? && file.value.JArr? ==> r == file.value.items
    ensures (file.Parsed? && file.value.JObj? && "sources" in file.value.fields
             && file.value.fields["sources"].JArr?) ==> r == file.value.fields["sources"].items
    ensures r != [] ==> file.Parsed? && (file.value.JArr? || file.value.JObj?)
    ensures !file.Parsed? ==> r == []
  {
    match file
    case Parsed(JArr(items)) => items
    case Parsed(JObj(f)) =>
      (match Get(f, "sources", JArr([]))
       case JArr(items) => items
       case _ => [])
    case _ => []
  }

  /** The entries `load_configurations` keeps, one per dict element, in order. */
  function Normalized(xs: seq<Json>): (r: seq<SourceRecord>)
    ensures |r| == |Objects(xs)|
    ensures forall k :: 0 <= k < |r| ==> r[k] == RecordOf(Objects(xs)[k])
  {
    if xs == [] then []
    else
      var last := xs[|xs| - 1];
      Normalized(xs[..|xs| - 1]) + (if last.JObj? then [RecordOf(last.fields)] else [])
  }

  /** Normalising one more item appends its entry when it is a dict. */
  lemma NormalizedStep(xs: seq<Json>, i: nat)
    requires i < |xs|
    ensures Normalized(xs[..i + 1]) == Normalized(xs[..i]) + (if xs[i].JObj? then [RecordOf(xs[i].fields)] else [])
  {
    assert xs[..i + 1][..i] == xs[..i];
  }

  /** `WECHAT_SOURCES` after loading a file of this state. */
  function LoadedSources(file: FileState): (r: seq<SourceRecord>)
    ensures file.Missing? || file.Blank? || file.Malformed? ==> r == []
    ensures |r| == |Objects(SourceItems(file))|
  {
    Normalized(SourceItems(file))
  }

  /** `WECHAT_SESSION` after loading a session file of this state: its dict, or nothing. */
  function SessionOf(file: FileState): (r: Object)
    ensures file.Parsed? && file.value.JObj? ==> r == file.value.fields
    ensures !(file.Parsed? && file.value.JObj?) ==> r == map[]
  {
    if file.Parsed? && file.value.JObj? then file.value.fields else map[]
  }

  /** A session dict carries a truthy `token` and a truthy `cookies_str`. */
  predicate Usable(s: Object)
  {
    Truthy(Get(s, "token", JNull)) && Truthy(Get(s, "cookies_str", JNull))
  }

  /**
   * `has_valid_session(session)`: a missing or empty argument falls back
   * to the module session.
   */
  function HasValidSession(arg: Option<Object>, current: Object): (r: bool)
    ensures arg.Some? && arg.value != map[] ==> (r <==> Usable(arg.value))
    ensures arg.None? || arg.value == map[] ==> (r <==> Usable(current))
    ensures r ==> "token" in (if arg.Some? && arg.value != map[] then arg.value else current)
  {
    var s := if arg.Some? && arg.value != map[] then arg.value else current;
    Usable(s)
  }

  /** Passing an empty dict is the same as passing nothing. */
  lemma EmptyArgFallsBack(current: Object)
    ensures HasValidSession(Some(map[]), current) == HasValidSession(None, current)
  {
  }

  /** A session holding a token but no cookies string is not valid. */
  lemma TokenAloneInvalid(s: Object, t: string)
    requires s == map["token" := JStr(t)]
    ensures !HasValidSession(Some(s), map[])
  {
    assert "cookies_str" !in s;
  }

  /** A session file that is not a JSON object loads as no session at all. */
  lemma NonObjectSessionInvalid(file: FileState)
    requires !(file.Parsed? && file.value.JObj?)
    ensures !HasValidSession(Some(SessionOf(file)), map[])
  {
  }

  /** The module's globals. */
  class Settings {
    var sources: seq<SourceRecord>
    var session: Object
    var noticeShown: bool
    /** How many times the login hint banner has been printed. */
    var hintsPrinted: nat

    /** The banner has been printed once exactly when the latch is set. */
    ghost predicate Valid()
      reads this
    {
      hintsPrinted == (if noticeShown then 1 else 0)
    }

    /** Importing the module loads both files. */
    constructor (configFile: FileState, sessionFile: FileState)
      ensures Valid() && !noticeShown
      ensures sources == LoadedSources(configFile)
      ensures session == SessionOf(sessionFile)
    {
      sources := [];
      session := map[];
      noticeShown := false;
      hintsPrinted := 0;
      new;
      LoadConfigurations(configFile);
      LoadSession(sessionFile);
    }

    /** `load_configurations`: clear the list, then keep one entry per dict of the file. */
    method LoadConfigurations(file: FileState)
      modifies this
      ensures sources == LoadedSources(file)
      ensures session == old(session) && noticeShown == old(noticeShown) && hintsPrinted == old(hintsPrinted)
    {
      sources := [];
      if file.Missing? {
        return;
      }
      var items: seq<Json> := [];
      match file {
        case Parsed(JArr(xs)) =>
          items := xs;
        case Parsed(JObj(f)) =>
          var listed := Get(f, "sources", JArr([]));
          if listed.JArr? {
            items := listed.items;
          }
        case _ =>
      }
      assert items == SourceItems(file);
      var i := 0;
      while i < |items|
        invariant 0 <= i <= |items|
        invariant sources == Normalized(items[..i])
        invariant session == old(session) && noticeShown == old(noticeShown) && hintsPrinted == old(hintsPrinted)
      {
        NormalizedStep(items, i);
        if items[i].JObj? {
          sources := sources + [RecordOf(items[i].fields)];
        }
        i := i + 1;
      }
      assert items[..i] == items;
    }

    /** `load_session`: clear the session, then copy the file's dict into it. */
    method LoadSession(file: FileState)
      modifies this
      ensures session == SessionOf(file)
      ensures sources == old(sources) && noticeShown == old(noticeShown) && hintsPrinted == old(hintsPrinted)
    {
      session := map[];
      if file.Parsed? && file.value.JObj? {
        session := session + file.value.fields;
      }
    }

    /** `_print_session_hint`: print the banner unless it was printed before. */
    method PrintSessionHint()
      modifies this
      requires Valid()
      ensures Valid() && noticeShown
      ensures hintsPrinted == old(hintsPrinted) + (if old(noticeShown) then 0 else 1)
      ensures sources == old(sources) && session == old(session)
    {
      if noticeShown {
        return;
      }
      noticeShown := true;
      hintsPrinted := hintsPrinted + 1;
    }

    /**
     * `ensure_session`: a valid session is returned as it is; otherwise the
     * session file is re-read and, if still invalid, either the interactive
     * login runs or the hint is printed. The login writes only
     * `cfg/cookies.json`, so re-reading `cfg/session.json` after it gives
     * the session read just before; `sessionFile` is that file's state.
     */
    method EnsureSession(interactive: bool, promptIfMissing: bool, sessionFile: FileState) returns (r: Object)
      modifies this
      requires Valid()
      ensures Valid()
      ensures r == session && sources == old(sources)
      ensures old(HasValidSession(None, session)) ==>
                session == old(session) && noticeShown == old(noticeShown) && hintsPrinted == old(hintsPrinted)
      ensures !old(HasValidSession(None, session)) ==> session == SessionOf(sessionFile)
      ensures hintsPrinted == old(hintsPrinted) + (
                if !old(HasValidSession(None, session)) && !HasValidSession(None, SessionOf(sessionFile))
                   && !interactive && promptIfMissing && !old(noticeShown)
                then 1 else 0)
    {
      if HasValidSession(None, session) {
        return session;
      }
      LoadSession(sessionFile);
      if HasValidSession(None, session) {
        return session;
      }
      if interactive {
        LoadSession(sessionFile);
      } else if promptIfMissing {
        PrintSessionHint();
      }
      return session;
    }
  }

  /** Ensuring the session twice in a row prints the hint at most once. */
  method EnsureTwice(s: Settings, sessionFile: FileState) returns (r: Object)
    modifies s
    requires s.Valid()
    ensures s.hintsPrinted <= 1
    ensures r == s.session
  {
    r := s.EnsureSession(false, true, sessionFile);
    r := s.EnsureSession(false, true, sessionFile);
  }
}

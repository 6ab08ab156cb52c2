/**
 * The setup script's logic (scripts/wechat_setup.py): reading the source
 * list file, merging new sources into it by id, building a source entry,
 * parsing `--names`, collecting the entries of the names that resolve to a
 * `biz`, resolving a display name, and choosing and saving the local
 * session. File contents are `FileState` values; the fake-id lookup and
 * the clock are parameters.
 */
module WechatSetup {
  import opened Wrappers
  import opened Text
  import opened Json
  import opened Dicts
  import WechatConfig

  type Object = WechatConfig.Object

  /** The exceptions the script lets escape. */
  datatype SetupError = TypeError(what: string) | KeyError(key: string)

  // ---------------------------------------------------------------------
  // _load_sources_file
  // ---------------------------------------------------------------------

  /**
   * `_load_sources_file`: the dict elements of the list, or of a dict's
   * `sources` entry. Reading errors give the empty list; a `sources` entry
   * that cannot be iterated (null, a boolean, a number) raises, since that
   * loop is outside the `try`.
   */
  function LoadSourcesFile(file: FileState): (r: Result<seq<Object>, SetupError>)
    ensures r.Err? <==> file.Parsed? && file.value.JObj? && "sources" in file.value.fields
                        && (file.value.fields["sources"].JNull? || file.value.fields["sources"].JBool?
                            || file.value.fields["sources"].JNum?)
    ensures r.Ok? ==> r.value == WechatConfig.Objects(WechatConfig.SourceItems(file))
  {
    match file
    case Parsed(JArr(xs)) => Ok(WechatConfig.Objects(xs))
    case Parsed(JObj(f)) =>
      (match Get(f, "sources", JArr([]))
       case JArr(xs) => Ok(WechatConfig.Objects(xs))
       case JStr(_) => Ok([])
       case JObj(_) => Ok([])
       case _ => Err(TypeError("object is not iterable")))
    case _ => Ok([])
  }

  // ---------------------------------------------------------------------
  // merge_wechat_config
  // ---------------------------------------------------------------------

  /** Values Python can use as dict keys (lists and dicts cannot). */
  predicate Hashable(j: Json)
  {
    !j.JArr? && !j.JObj?
  }

  /** `s.get("id")`. */
  function IdOf(s: Object): Json
  {
    Get(s, "id", JNull)
  }

  /** Each source paired with its id. */
  function Keyed(xs: seq<Object>): (r: seq<(Json, Object)>)
    ensures |r| == |xs| && forall i :: 0 <= i < |xs| ==> r[i] == (IdOf(xs[i]), xs[i])
  {
    if xs == [] then [] else Keyed(xs[..|xs| - 1]) + [(IdOf(xs[|xs| - 1]), xs[|xs| - 1])]
  }

  /** The ids of the sources, in order. */
  function Ids(xs: seq<Object>): (r: seq<Json>)
    ensures r == Keys(Keyed(xs))
  {
    Keys(Keyed(xs))
  }

  /** The last source carrying `id`, if any. */
  function LastWithId(xs: seq<Object>, id: Json): (r: Option<Object>)
    ensures r.Some? ==> IdOf(r.value) == id && r.value in xs
    ensures r.None? <==> forall i :: 0 <= i < |xs| ==> IdOf(xs[i]) != id
  {
    if xs == [] then None
    else if IdOf(xs[|xs| - 1]) == id then Some(xs[|xs| - 1])
    else LastWithId(xs[..|xs| - 1], id)
  }

  /** Looking up the last assignment of a keyed list is finding the last source with that id. */
  lemma {:induction false} LastValueKeyed(xs: seq<Object>, id: Json)
    ensures LastValue(Keyed(xs), id) == LastWithId(xs, id)
  {
    if xs != [] {
      assert Keyed(xs)[..|xs| - 1] == Keyed(xs[..|xs| - 1]);
      LastValueKeyed(xs[..|xs| - 1], id);
    }
  }

  /** The exception the loop over the new sources raises first, if any: `s["id"]` missing or unhashable. */
  function NewError(xs: seq<Object>): (r: Option<SetupError>)
    ensures r.None? <==> forall i :: 0 <= i < |xs| ==> "id" in xs[i] && Hashable(xs[i]["id"])
  {
    if xs == [] then None
    else if "id" !in xs[0] then Some(KeyError("id"))
    else if !Hashable(xs[0]["id"]) then Some(TypeError("unhashable type"))
    else NewError(xs[1..])
  }

  /** The values of the dict built by assigning each source under its id, in order. */
  function Merged(all: seq<Object>): seq<Object>
  {
    Values(PutAll([], Keyed(all)))
  }

  /**
   * The list `merge_wechat_config` writes: the existing sources keyed by
   * id, then each new source assigned under its id, then the values.
   */
  function MergeSources(existing: seq<Object>, added: seq<Object>): (r: Result<seq<Object>, SetupError>)
    ensures r.Ok? <==> (forall i :: 0 <= i < |existing| ==> Hashable(IdOf(existing[i]))) && NewError(added).None?
    ensures r.Ok? ==> r.value == Merged(existing + added)
  {
    if exists i :: 0 <= i < |existing| && !Hashable(IdOf(existing[i])) then Err(TypeError("unhashable type"))
    else if NewError(added).Some? then Err(NewError(added).value)
    else Ok(Merged(existing + added))
  }

  /**
   * The merged list keeps one source per id, in order of each id's first
   * appearance, and the source kept is the last one with that id.
   */
  lemma MergedByIds(all: seq<Object>)
    ensures |Merged(all)| == |Dedup(Ids(all))|
    ensures forall i :: 0 <= i < |Merged(all)| ==>
              IdOf(Merged(all)[i]) == Dedup(Ids(all))[i] && LastWithId(all, Dedup(Ids(all))[i]) == Some(Merged(all)[i])
  {
    PutAllFresh(Keyed(all), JNull);
    forall i | 0 <= i < |Merged(all)|
      ensures IdOf(Merged(all)[i]) == Dedup(Ids(all))[i] && LastWithId(all, Dedup(Ids(all))[i]) == Some(Merged(all)[i])
    {
      MergedAt(all, i);
    }
  }

  /** The `i`-th merged source, read off the `i`-th pair of the merged dict. */
  lemma MergedAt(all: seq<Object>, i: nat)
    requires i < |Merged(all)|
    ensures i < |Dedup(Ids(all))|
    ensures IdOf(Merged(all)[i]) == Dedup(Ids(all))[i] && LastWithId(all, Dedup(Ids(all))[i]) == Some(Merged(all)[i])
  {
    var d := PutAll([], Keyed(all));
    PutAllFresh(Keyed(all), JNull);
    assert Merged(all)[i] == d[i].1 && Keys(d)[i] == d[i].0;
    MergedEntry(all, i);
  }

  /** One pair of the merged dict: its value carries its key and is the last source with it. */
  lemma MergedEntry(all: seq<Object>, i: nat)
    requires i < |PutAll([], Keyed(all))|
    ensures var d := PutAll([], Keyed(all));
            IdOf(d[i].1) == d[i].0 && LastWithId(all, d[i].0) == Some(d[i].1)
  {
    var d := PutAll([], Keyed(all));
    PutAllFresh(Keyed(all), d[i].0);
    UniqueLookup(d, i);
    LastValueKeyed(all, d[i].0);
  }

  /**
   * The merge keeps one source per id, in order of each id's first
   * appearance (existing first, then new), and the source kept is the last
   * one with that id: a new source replaces an old one in its place, and
   * duplicate ids collapse.
   */
  lemma MergeByIds(existing: seq<Object>, added: seq<Object>)
    requires MergeSources(existing, added).Ok?
    ensures var merged := MergeSources(existing, added).value;
            var ids := Dedup(Ids(existing + added));
            |merged| == |ids|
            && forall i :: 0 <= i < |merged| ==>
                 IdOf(merged[i]) == ids[i] && LastWithId(existing + added, ids[i]) == Some(merged[i])
  {
    MergedByIds(existing + added);
  }

  /** Merging keeps the existing ids first, in their places. */
  lemma MergeKeepsPositions(existing: seq<Object>, added: seq<Object>)
    requires MergeSources(existing, added).Ok?
    ensures var merged := MergeSources(existing, added).value;
            var old_ids := Dedup(Ids(existing));
            |old_ids| <= |merged| && forall i :: 0 <= i < |old_ids| ==> IdOf(merged[i]) == old_ids[i]
  {
    MergeByIds(existing, added);
    assert Ids(existing + added) == Ids(existing) + Ids(added);
    DedupPrefix(Ids(existing), Ids(added));
  }

  /** Deduplicating a longer list extends the deduplicated prefix. */
  lemma {:induction false} DedupPrefix(a: seq<Json>, b: seq<Json>)
    ensures |Dedup(a)| <= |Dedup(a + b)| && Dedup(a + b)[..|Dedup(a)|] == Dedup(a)
    decreases |b|
  {
    if b == [] {
      assert a + b == a;
    } else {
      var n := |b| - 1;
      assert (a + b)[..|a + b| - 1] == a + b[..n];
      DedupPrefix(a, b[..n]);
    }
  }

  /**
   * `merge_wechat_config`: the list written to the file, or the exception
   * raised before the write.
   */
  method MergeWechatConfig(file: FileState, newSources: seq<Object>) returns (r: Result<seq<Object>, SetupError>)
    ensures r == match LoadSourcesFile(file)
                 case Err(e) => Err(e)
                 case Ok(existing) => MergeSources(existing, newSources)
  {
    var loaded := LoadSourcesFile(file);
    if loaded.Err? {
      return Err(loaded.error);
    }
    var existing := KeyExisting(loaded.value);
    if existing.None? {
      return Err(TypeError("unhashable type"));
    }
    var merged := AssignNew(existing.value, loaded.value, newSources);
    if merged.Err? {
      return Err(merged.error);
    }
    return Ok(Values(merged.value));
  }

  /** `{s.get("id"): s for s in existing_sources}`, or None when an id cannot be a key. */
  method KeyExisting(xs: seq<Object>) returns (r: Option<Dict<Json, Object>>)
    ensures r.None? <==> exists i :: 0 <= i < |xs| && !Hashable(IdOf(xs[i]))
    ensures r.Some? ==> r.value == PutAll([], Keyed(xs))
  {
    ghost var ks := Keyed(xs);
    var d: Dict<Json, Object> := [];
    var i := 0;
    while i < |xs|
      invariant 0 <= i <= |xs|
      invariant forall j :: 0 <= j < i ==> Hashable(IdOf(xs[j]))
      invariant d == PutAll([], ks[..i])
    {
      var s := xs[i];
      if !Hashable(IdOf(s)) {
        return None;
      }
      d := KeyNext(xs, ks, i, d);
      i := i + 1;
    }
    assert ks[..i] == ks;
    return Some(d);
  }

  /** `existing[s.get("id")] = s` for the source at `i` extends the run of assignments by its pair. */
  method KeyNext(xs: seq<Object>, ghost ks: seq<(Json, Object)>, i: nat, d: Dict<Json, Object>) returns (d': Dict<Json, Object>)
    requires ks == Keyed(xs) && i < |xs| && d == PutAll([], ks[..i])
    ensures d' == PutAll([], ks[..i + 1])
  {
    assert ks[..i + 1][..i] == ks[..i];
    d' := Put(d, IdOf(xs[i]), xs[i]);
  }

  /** `for s in new_sources: existing[s["id"]] = s`, or the exception the loop raises. */
  method AssignNew(d0: Dict<Json, Object>, existing: seq<Object>, added: seq<Object>)
    returns (r: Result<Dict<Json, Object>, SetupError>)
    requires d0 == PutAll([], Keyed(existing))
    ensures NewError(added).Some? ==> r == Err(NewError(added).value)
    ensures NewError(added).None? ==> r == Ok(PutAll([], Keyed(existing + added)))
  {
    var d := d0;
    var k := 0;
    assert existing + added[..0] == existing;
    while k < |added|
      invariant 0 <= k <= |added|
      invariant NewError(added) == NewError(added[k..])
      invariant d == PutAll([], Keyed(existing + added[..k]))
    {
      var s := added[k];
      assert added[k..][1..] == added[k + 1..];
      if "id" !in s {
        return Err(KeyError("id"));
      }
      if !Hashable(s["id"]) {
        return Err(TypeError("unhashable type"));
      }
      AssignStep(existing, added, k);
      d := Put(d, s["id"], s);
      k := k + 1;
    }
    assert added[..k] == added;
    return Ok(d);
  }

  /** Assigning the next new source extends the run of assignments by its pair. */
  lemma AssignStep(existing: seq<Object>, added: seq<Object>, k: nat)
    requires k < |added| && "id" in added[k]
    ensures PutAll([], Keyed(existing + added[..k + 1]))
            == Put(PutAll([], Keyed(existing + added[..k])), added[k]["id"], added[k])
  {
    var xs := existing + added[..k + 1];
    assert xs[..|xs| - 1] == existing + added[..k];
    assert Keyed(xs)[..|xs| - 1] == Keyed(existing + added[..k]);
    assert Keyed(xs)[|xs| - 1] == (added[k]["id"], added[k]);
  }

  // ---------------------------------------------------------------------
  // build_source_entry and the names loop of main
  // ---------------------------------------------------------------------

  /** `build_source_entry`: the id is `wechat_` followed by the biz; `created_at` is the clock reading `now`. */
  function BuildSourceEntry(name: string, biz: string, count: int, now: int): (r: Object)
    ensures r.Keys == {"id", "name", "biz", "count", "created_at"}
    ensures IdOf(r) == JStr("wechat_" + biz)
  {
    map["id" := JStr("wechat_" + biz), "name" := JStr(name), "biz" := JStr(biz),
        "count" := JNum(count), "created_at" := JNum(now)]
  }

  /** A built entry reads back through the configuration loader unchanged, with no article URLs. */
  lemma EntryLoadsBack(name: string, biz: string, count: int, now: int)
    ensures WechatConfig.RecordOf(BuildSourceEntry(name, biz, count, now))
            == WechatConfig.SourceRecord(JStr("wechat_" + biz), JStr(name), JStr(biz), JNum(count), JNum(now), JArr([]))
  {
    var e := BuildSourceEntry(name, biz, count, now);
    assert "article_urls" !in e;
  }

  /** Different biz values give different source ids. */
  lemma EntryIdsDistinct(b1: string, b2: string)
    requires b1 != b2
    ensures IdOf(BuildSourceEntry("", b1, 0, 0)) != IdOf(BuildSourceEntry("", b2, 0, 0))
  {
    var p := "wechat_";
    assert (p + b1)[|p|..] == b1 && (p + b2)[|p|..] == b2;
  }

  /** `[n.strip() for n in parts if n.strip()]`. */
  function KeptNames(parts: seq<string>): (r: seq<string>)
    ensures |r| <= |parts|
    ensures forall i :: 0 <= i < |r| ==> r[i] != "" && Strip(r[i]) == r[i]
  {
    if parts == [] then []
    else
      var first, rest := KeptName(parts[0]), KeptNames(parts[1..]);
      StrippedNamesJoin(first, rest);
      first + rest
  }

  /** Names that are non-empty and stripped stay so when two lists of them are joined. */
  lemma StrippedNamesJoin(a: seq<string>, b: seq<string>)
    requires forall i :: 0 <= i < |a| ==> a[i] != "" && Strip(a[i]) == a[i]
    requires forall i :: 0 <= i < |b| ==> b[i] != "" && Strip(b[i]) == b[i]
    ensures forall i :: 0 <= i < |a + b| ==> (a + b)[i] != "" && Strip((a + b)[i]) == (a + b)[i]
  {
    forall i | 0 <= i < |a + b|
      ensures (a + b)[i] != "" && Strip((a + b)[i]) == (a + b)[i]
    {
      if i >= |a| {
        assert (a + b)[i] == b[i - |a|];
      }
    }
  }

  /** One part of `KeptNames`: its stripped text, or nothing when that is blank. */
  function KeptName(part: string): (r: seq<string>)
    ensures |r| <= 1
    ensures forall i :: 0 <= i < |r| ==> r[i] != "" && Strip(r[i]) == r[i]
  {
    var n := Strip(part);
    if n != "" then StripEnds(n); [n] else []
  }

  /** The names given by `--names`: comma-separated, stripped, blanks dropped. */
  function ParseNames(arg: Option<string>): (r: seq<string>)
    ensures arg.None? || arg.value == "" ==> r == []
    ensures forall i :: 0 <= i < |r| ==> r[i] != "" && Strip(r[i]) == r[i]
  {
    if arg.None? || arg.value == "" then [] else KeptNames(Split(arg.value, ','))
  }

  /** Names that are already clean survive `KeptNames` unchanged. */
  lemma {:induction false} KeptClean(ns: seq<string>)
    requires forall i :: 0 <= i < |ns| ==> ns[i] != "" && !IsSpace(ns[i][0]) && !IsSpace(ns[i][|ns[i]| - 1])
    ensures KeptNames(ns) == ns
  {
    if ns != [] {
      StripEnds(ns[0]);
      KeptClean(ns[1..]);
      assert [ns[0]] + ns[1..] == ns;
    }
  }

  /** Joining clean, comma-free names with "," and parsing them again gives the names back. */
  lemma NamesRoundTrip(ns: seq<string>)
    requires ns != []
    requires forall i :: 0 <= i < |ns| ==> ns[i] != "" && ',' !in ns[i] && !IsSpace(ns[i][0]) && !IsSpace(ns[i][|ns[i]| - 1])
    ensures ParseNames(Some(Join(",", ns))) == ns
  {
    SplitJoin(ns, ',');
    assert Join(",", ns) != "" by {
      assert StartsWith(Join(",", ns), ns[0]);
    }
    KeptClean(ns);
  }

  /** Separators and blanks alone name nothing. */
  lemma BlankNamesEmpty()
    ensures ParseNames(Some(" , ,")) == []
  {
    assert " , ," == " " + [','] + (" " + [','] + "");
    SplitFirst(" ", ',', " ,");
    SplitFirst(" ", ',', "");
    assert Split(" , ,", ',') == [" ", " ", ""];
    assert Strip(" ") == "";
  }

  /** `biz = get_fakeid_by_name(...)`, with a falsy answer read as none. */
  function BizOf(lookup: string -> Option<string>, name: string): (r: Option<string>)
    ensures r.Some? ==> r.value != ""
  {
    var b := lookup(name);
    if b.Some? && b.value != "" then b else None
  }

  /** The entries `main` collects: one per name whose biz is found, in order. */
  function NewSources(names: seq<string>, count: int, lookup: string -> Option<string>, now: int): (r: seq<Object>)
    ensures |r| <= |names|
    ensures r == [] <==> forall k :: 0 <= k < |names| ==> BizOf(lookup, names[k]).None?
    ensures forall i :: 0 <= i < |r| ==> (exists k :: 0 <= k < |names| && BizOf(lookup, names[k]).Some?
                                                 && r[i] == BuildSourceEntry(names[k], BizOf(lookup, names[k]).value, count, now))
  {
    if names == [] then []
    else
      var n := names[|names| - 1];
      var init := NewSources(names[..|names| - 1], count, lookup, now);
      match BizOf(lookup, n)
      case None => init
      case Some(biz) => init + [BuildSourceEntry(n, biz, count, now)]
  }

  /** Collected entries always have a string id, so merging them can only fail on the existing file. */
  lemma {:induction false} NewSourcesMergeable(names: seq<string>, count: int, lookup: string -> Option<string>, now: int)
    ensures NewError(NewSources(names, count, lookup, now)).None?
  {
    var r := NewSources(names, count, lookup, now);
    forall i | 0 <= i < |r|
      ensures "id" in r[i] && Hashable(r[i]["id"])
    {
      var k :| 0 <= k < |names| && BizOf(lookup, names[k]).Some?
               && r[i] == BuildSourceEntry(names[k], BizOf(lookup, names[k]).value, count, now);
      BuiltIdHashable(names[k], BizOf(lookup, names[k]).value, count, now);
    }
  }

  /** A built entry has a string id. */
  lemma BuiltIdHashable(name: string, biz: string, count: int, now: int)
    ensures "id" in BuildSourceEntry(name, biz, count, now) && Hashable(BuildSourceEntry(name, biz, count, now)["id"])
  {
  }

  /** The loop of `main` over the names, appending to `new_sources` and `new_ids`. */
  method CollectNewSources(names: seq<string>, count: int, lookup: string -> Option<string>, now: int)
    returns (sources: seq<Object>, ids: seq<string>)
    ensures sources == NewSources(names, count, lookup, now)
    ensures |ids| == |sources| && forall i :: 0 <= i < |ids| ==> IdOf(sources[i]) == JStr(ids[i])
  {
    sources, ids := [], [];
    var i := 0;
    while i < |names|
      invariant 0 <= i <= |names|
      invariant sources == NewSources(names[..i], count, lookup, now)
      invariant |ids| == |sources| && forall j :: 0 <= j < |ids| ==> IdOf(sources[j]) == JStr(ids[j])
    {
      assert names[..i + 1][..i] == names[..i];
      var name := names[i];
      var biz := BizOf(lookup, name);
      if biz.Some? {
        var entry := BuildSourceEntry(name, biz.value, count, now);
        sources := sources + [entry];
        ids := ids + ["wechat_" + biz.value];
      }
      i := i + 1;
    }
    assert names[..i] == names;
  }

  /**
   * `main` after the session check: parse the names, collect their
   * entries, and merge them into the file when there are any. The result
   * is the list written (or the exception raised), or None when nothing is
   * written.
   */
  method AddSources(namesArg: Option<string>, count: int, lookup: string -> Option<string>, now: int, file: FileState)
    returns (written: Option<Result<seq<Object>, SetupError>>, ids: seq<string>)
    ensures written.None? <==> NewSources(ParseNames(namesArg), count, lookup, now) == []
    ensures written.Some? ==> written.value == match LoadSourcesFile(file)
                                              case Err(e) => Err(e)
                                              case Ok(existing) => MergeSources(existing, NewSources(ParseNames(namesArg), count, lookup, now))
    ensures |ids| == |NewSources(ParseNames(namesArg), count, lookup, now)|
  {
    var names := ParseNames(namesArg);
    if names == [] {
      return None, [];
    }
    var sources;
    sources, ids := CollectNewSources(names, count, lookup, now);
    if sources == [] {
      return None, ids;
    }
    var r := MergeWechatConfig(file, sources);
    written := Some(r);
  }

  // ---------------------------------------------------------------------
  // _resolve_source_name
  // ---------------------------------------------------------------------

  /** `_resolve_source_name`: the first matching source's name, or the id when it is falsy or nothing matches. */
  function ResolveSourceName(sources: seq<WechatConfig.SourceRecord>, id: string): (r: Json)
    ensures (forall i :: 0 <= i < |sources| ==> sources[i].id != JStr(id)) ==> r == JStr(id)
    ensures Truthy(r) || r == JStr(id)
  {
    if sources == [] then JStr(id)
    else if sources[0].id == JStr(id) then (if Truthy(sources[0].name) then sources[0].name else JStr(id))
    else ResolveSourceName(sources[1..], id)
  }

  /** The first source with the id decides the name; later ones are not consulted. */
  lemma {:induction false} ResolveFirstMatch(sources: seq<WechatConfig.SourceRecord>, id: string, i: nat)
    requires i < |sources| && sources[i].id == JStr(id)
    requires forall j :: 0 <= j < i ==> sources[j].id != JStr(id)
    ensures ResolveSourceName(sources, id) == if Truthy(sources[i].name) then sources[i].name else JStr(id)
  {
    if i > 0 {
      ResolveFirstMatch(sources[1..], id, i - 1);
    }
  }

  // ---------------------------------------------------------------------
  // load_local_session and persist_session
  // ---------------------------------------------------------------------

  /** `_load_json`: the decoded file, or None when it is missing or cannot be decoded. */
  function LoadJson(file: FileState): (r: Option<Json>)
    ensures r.Some? <==> file.Parsed?
  {
    if file.Parsed? then Some(file.value) else None
  }

  /** `load_local_session`: the session file, else the legacy cookies file, whichever first holds something. */
  function LoadLocalSession(sessionFile: FileState, legacyFile: FileState): (r: Option<Json>)
    ensures r.Some? ==> Truthy(r.value) && (r == LoadJson(sessionFile) || r == LoadJson(legacyFile))
    ensures sessionFile.Parsed? && Truthy(sessionFile.value) ==> r == Some(sessionFile.value)
    ensures r.None? <==> !(sessionFile.Parsed? && Truthy(sessionFile.value)) && !(legacyFile.Parsed? && Truthy(legacyFile.value))
  {
    var first := LoadJson(sessionFile);
    if first.Some? && Truthy(first.value) then first
    else
      var second := LoadJson(legacyFile);
      if second.Some? && Truthy(second.value) then second else None
  }

  /** A saved session is what the next `load_local_session` finds first. */
  lemma PersistThenLoad(session: Object, savedAt: string, legacyFile: FileState)
    requires PersistedPayload(session, savedAt).Some?
    ensures LoadLocalSession(Parsed(JObj(PersistedPayload(session, savedAt).value)), legacyFile)
            == Some(JObj(PersistedPayload(session, savedAt).value))
  {
    assert "saved_at" in PersistedPayload(session, savedAt).value;
  }

  /** The payload `persist_session` writes: nothing for an empty session, else the session with `saved_at` added if absent. */
  function PersistedPayload(session: Object, savedAt: string): (r: Option<Object>)
    ensures r.None? <==> session == map[]
    ensures r.Some? ==> r.value.Keys == session.Keys + {"saved_at"}
                        && forall k :: k in session ==> r.value[k] == session[k]
    ensures r.Some? && "saved_at" !in session ==> r.value["saved_at"] == JStr(savedAt)
  {
    if session == map[] then None
    else if "saved_at" in session then Some(session)
    else Some(session["saved_at" := JStr(savedAt)])
  }

  /** Saving a session never changes whether it is valid. */
  lemma PersistKeepsValidity(session: Object, savedAt: string, current: Object)
    requires PersistedPayload(session, savedAt).Some?
    ensures WechatConfig.HasValidSession(PersistedPayload(session, savedAt), current)
            == WechatConfig.HasValidSession(Some(session), current)
  {
    var p := PersistedPayload(session, savedAt).value;
    assert Get(p, "token", JNull) == Get(session, "token", JNull);
    assert Get(p, "cookies_str", JNull) == Get(session, "cookies_str", JNull);
  }

  /** `persist_session`: write the payload, then reload the configuration's session from it. */
  method PersistSession(settings: WechatConfig.Settings, session: Object, savedAt: string)
    returns (written: Option<Object>)
    modifies settings
    ensures written == PersistedPayload(session, savedAt)
    ensures written.Some? ==> settings.session == written.value
    ensures written.None? ==> settings.session == old(settings.session)
    ensures settings.sources == old(settings.sources) && settings.noticeShown == old(settings.noticeShown)
    ensures settings.hintsPrinted == old(settings.hintsPrinted)
  {
    if session == map[] {
      return None;
    }
    var payload := session;
    if "saved_at" !in payload {
      payload := payload["saved_at" := JStr(savedAt)];
    }
    settings.LoadSession(Parsed(JObj(payload)));
    written := Some(payload);
  }
}

/**
 * The `crawled_records` table of the shared SQLite store (storage/database.py)
 * as an in-memory table: rows in insertion order, the primary key `id`,
 * NOT NULL `title` and `url`, nullable other columns and a `created_at`
 * that defaults to the time of insertion.
 */
module RecordStore {
  import opened Wrappers
  import opened Text
  import opened Json

  /** One row of `crawled_records`; `title` and `url` are NOT NULL. */
  datatype Row = Row(
    id: string,
    title: string,
    url: string,
    publishTime: Option<string>,
    sourceId: Option<string>,
    sourceName: Option<string>,
    attachments: Option<string>,
    content: Option<string>,
    createdAt: string)

  /** Python truthiness of a nullable text column. */
  predicate Filled(v: Option<string>)
  {
    v.Some? && v.value != ""
  }

  /** `content and title`: the row holds a successful crawl. */
  predicate Complete(r: Row)
  {
    Filled(r.content) && r.title != ""
  }

  /** `WHERE id=? OR url=?` when `url` is truthy, otherwise `WHERE id=?`. */
  predicate Matches(r: Row, id: string, url: Option<string>)
  {
    r.id == id || (Filled(url) && r.url == url.value)
  }

  /** What `record_exists(id, url)` answers about `rows`. */
  predicate ExistsIn(rows: seq<Row>, id: string, url: Option<string>)
  {
    exists i :: 0 <= i < |rows| && Matches(rows[i], id, url) && Complete(rows[i])
  }

  /** The primary key holds: no id occurs twice. */
  predicate UniqueIds(rows: seq<Row>)
  {
    forall i, j :: 0 <= i < j < |rows| ==> rows[i].id != rows[j].id
  }

  /** How many rows carry `id`. */
  function CountId(rows: seq<Row>, id: string): (n: nat)
    ensures n <= |rows|
    ensures n == 0 <==> forall i :: 0 <= i < |rows| ==> rows[i].id != id
  {
    if rows == [] then 0
    else (if rows[|rows| - 1].id == id then 1 else 0) + CountId(rows[..|rows| - 1], id)
  }

  /** `DELETE FROM crawled_records WHERE id=?`: the other rows, in their order. */
  function WithoutId(rows: seq<Row>, id: string): (r: seq<Row>)
    ensures |r| <= |rows|
    ensures forall x :: x in r <==> x in rows && x.id != id
  {
    if rows == [] then []
    else if rows[|rows| - 1].id == id then WithoutId(rows[..|rows| - 1], id)
    else WithoutId(rows[..|rows| - 1], id) + [rows[|rows| - 1]]
  }

  /** INSERT OR REPLACE on the primary key: the old row (if any) goes, the new one is appended. */
  function Upsert(rows: seq<Row>, row: Row): (r: seq<Row>)
  {
    WithoutId(rows, row.id) + [row]
  }

  /** Deleting an id no row carries changes nothing. */
  lemma {:induction false} WithoutAbsentId(rows: seq<Row>, id: string)
    requires forall i :: 0 <= i < |rows| ==> rows[i].id != id
    ensures WithoutId(rows, id) == rows
  {
    if rows != [] {
      WithoutAbsentId(rows[..|rows| - 1], id);
      assert rows == rows[..|rows| - 1] + [rows[|rows| - 1]];
    }
  }

  /** A deleted id is gone, and deleting keeps the primary key. */
  lemma {:induction false} WithoutIdUnique(rows: seq<Row>, id: string)
    requires UniqueIds(rows)
    ensures UniqueIds(WithoutId(rows, id))
    ensures CountId(WithoutId(rows, id), id) == 0
  {
    if rows != [] {
      var init := rows[..|rows| - 1];
      WithoutIdUnique(init, id);
      var w := WithoutId(init, id);
      if rows[|rows| - 1].id != id {
        forall i | 0 <= i < |w|
          ensures w[i].id != rows[|rows| - 1].id
        {
          assert w[i] in init;
        }
      }
    }
  }

  /**
   * After INSERT OR REPLACE exactly one row carries the new id and it is the
   * new row; every row with another id is kept; the primary key still holds.
   */
  lemma UpsertReplaces(rows: seq<Row>, row: Row)
    requires UniqueIds(rows)
    ensures UniqueIds(Upsert(rows, row))
    ensures CountId(Upsert(rows, row), row.id) == 1
    ensures Upsert(rows, row)[|Upsert(rows, row)| - 1] == row
    ensures forall x :: x in Upsert(rows, row) <==> x == row || (x in rows && x.id != row.id)
  {
    var w := WithoutId(rows, row.id);
    WithoutIdUnique(rows, row.id);
    var u := Upsert(rows, row);
    assert u[..|u| - 1] == w;
    forall i | 0 <= i < |w|
      ensures w[i].id != row.id
    {
      assert w[i] in w;
    }
  }

  // ---------------------------------------------------------------------
  // store_document
  // ---------------------------------------------------------------------

  /** The metadata dict: a key maps to a string or to Python None. */
  type Metadata = map<string, Option<string>>

  /** `metadata.get(key, default)`. */
  function MetaGet(m: Metadata, key: string, default: Option<string>): (r: Option<string>)
    ensures key in m ==> r == m[key]
    ensures key !in m ==> r == default
  {
    if key in m then m[key] else default
  }

  /** The SQLite error a NULL in a NOT NULL column raises. */
  function NotNullError(column: string): string
  {
    "NOT NULL constraint failed: crawled_records." + column
  }

  /**
   * The row `store_document(item_id, content, metadata)` inserts at time
   * `now`, or the constraint error when the title or the url is None.
   */
  function NewRow(itemId: string, content: string, m: Metadata, now: string): (r: Result<Row, string>)
    ensures r.Err? <==> ("title" in m && m["title"].None?) || ("url" in m && m["url"].None?)
    ensures r.Err? ==> r.error == NotNullError(if "title" in m && m["title"].None? then "title" else "url")
    ensures r.Ok? ==> r.value.id == itemId && r.value.content == Some(content) && r.value.createdAt == now
  {
    var title := MetaGet(m, "title", Some(""));
    var url := MetaGet(m, "url", Some(""));
    if title.None? then Err(NotNullError("title"))
    else if url.None? then Err(NotNullError("url"))
    else Ok(Row(itemId, title.value, url.value, MetaGet(m, "publish_time", None),
                MetaGet(m, "source_id", Some("")), MetaGet(m, "source_name", Some("")),
                MetaGet(m, "attachments", None), Some(content), now))
  }

  /** Missing keys give "" for title, url, source_id and source_name and NULL for publish_time and attachments. */
  lemma NewRowDefaults(itemId: string, content: string, now: string)
    ensures NewRow(itemId, content, map[], now)
         == Ok(Row(itemId, "", "", None, Some(""), Some(""), None, Some(content), now))
  {
  }

  /** Values present in the metadata are stored as given. */
  lemma NewRowKeepsValues(itemId: string, content: string, m: Metadata, now: string, title: string, url: string)
    requires "title" in m && m["title"] == Some(title)
    requires "url" in m && m["url"] == Some(url)
    ensures NewRow(itemId, content, m, now).Ok?
    ensures var row := NewRow(itemId, content, m, now).value;
            row.title == title && row.url == url
            && row.publishTime == MetaGet(m, "publish_time", None)
            && row.sourceId == MetaGet(m, "source_id", Some(""))
            && row.sourceName == MetaGet(m, "source_name", Some(""))
            && row.attachments == MetaGet(m, "attachments", None)
  {
  }

  // ---------------------------------------------------------------------
  // Read-only queries: their row-level rules
  // ---------------------------------------------------------------------

  /** `(title IS NULL OR title = '') OR (content IS NULL OR content = '')`. */
  predicate IsFailed(r: Row)
  {
    r.title == "" || r.content.None? || r.content.value == ""
  }

  /** The failed-record query and `record_exists` disagree on every row: failed is exactly not complete. */
  lemma FailedIsIncomplete(r: Row)
    ensures IsFailed(r) <==> !Complete(r)
  {
  }

  /**
   * SQLite's LIKE: `%` matches any run of characters, `_` any one
   * character, and other characters match ignoring ASCII case.
   */
  predicate Like(s: string, p: string)
    decreases |s| + |p|
  {
    if p == [] then s == []
    else if p[0] == '%' then Like(s, p[1..]) || (s != [] && Like(s[1..], p))
    else s != [] && (p[0] == '_' || LowerChar(s[0]) == LowerChar(p[0])) && Like(s[1..], p[1..])
  }

  /** `%` alone matches everything. */
  lemma {:induction false} LikeAny(s: string)
    ensures Like(s, "%")
    decreases |s|
  {
    if s != [] {
      LikeAny(s[1..]);
    }
  }

  /** A lower-case literal prefix of a pattern is matched character by character, ignoring case. */
  lemma {:induction false} LikeLiteral(s: string, lit: string, rest: string)
    requires forall i :: 0 <= i < |lit| ==> lit[i] != '%' && lit[i] != '_' && LowerChar(lit[i]) == lit[i]
    ensures Like(s, lit + rest) <==> |s| >= |lit| && CaseEq(s[..|lit|], lit) && Like(s[|lit|..], rest)
    decreases |lit|
  {
    if lit != [] {
      assert (lit + rest)[1..] == lit[1..] + rest;
      if s != [] {
        LikeLiteral(s[1..], lit[1..], rest);
        if |s| >= |lit| {
          assert s[1..][..|lit| - 1] == s[..|lit|][1..];
          assert s[1..][|lit| - 1..] == s[|lit|..];
          assert CaseEq(s[..|lit|], lit) <==> LowerChar(s[0]) == lit[0] && CaseEq(s[1..][..|lit| - 1], lit[1..]);
        }
      }
    } else {
      assert lit + rest == rest;
    }
  }

  /** `source_id LIKE 'wechat_%'` holds exactly for ids of 7 or more characters starting with "wechat" in any case. */
  lemma LikeWechatPrefix(s: string)
    ensures Like(s, "wechat_%") <==> |s| >= 7 && CaseEq(s[..6], "wechat")
  {
    assert "wechat_%" == "wechat" + "_%";
    LikeLiteral(s, "wechat", "_%");
    if |s| >= 7 {
      var t := s[6..];
      assert t[1..] == s[7..];
      LikeAny(t[1..]);
      assert Like(t, "_%") by {
        assert "_%"[1..] == "%";
      }
    } else if |s| == 6 {
      assert s[6..] == [];
    }
  }

  /** Every id `query_records` treats as a WeChat id is LIKE-matched by the failed-WeChat query. */
  lemma WechatPrefixIsLike(s: string)
    requires StartsWith(s, "wechat_")
    ensures Like(s, "wechat_%")
  {
    LikeWechatPrefix(s);
    assert s[..7][..6] == s[..6];
    assert CaseEq(s[..6], "wechat") by {
      forall i | 0 <= i < 6
        ensures LowerChar(s[..6][i]) == "wechat"[i]
      {
        assert s[..6][i] == "wechat_"[i];
      }
    }
  }

  /** The converse fails: "WECHAT1" is LIKE-matched but is not a "wechat_" id. */
  lemma LikeWiderThanPrefix()
    ensures Like("WECHAT1", "wechat_%")
    ensures !StartsWith("WECHAT1", "wechat_")
  {
    LikeWechatPrefix("WECHAT1");
    assert CaseEq("WECHAT1"[..6], "wechat") by {
      assert "WECHAT1"[..6] == "WECHAT";
    }
  }

  /** `source_id LIKE 'wechat_%'` on a nullable column (NULL never matches). */
  predicate WechatSource(r: Row)
  {
    r.sourceId.Some? && Like(r.sourceId.value, "wechat_%")
  }

  /** The columns `get_failed_records` returns for one row. */
  datatype FailedRecord = FailedRecord(url: string, sourceId: Option<string>, sourceName: Option<string>,
                                       date: Option<string>, title: string)

  /** The columns `get_failed_wechat_records` returns for one row. */
  datatype FailedWechatRecord = FailedWechatRecord(id: string, url: string, sourceId: Option<string>,
                                                   sourceName: Option<string>, publishTime: Option<string>,
                                                   title: string)

  function FailedSummary(r: Row): FailedRecord
  {
    FailedRecord(r.url, r.sourceId, r.sourceName, r.publishTime, r.title)
  }

  function FailedWechatSummary(r: Row): FailedWechatRecord
  {
    FailedWechatRecord(r.id, r.url, r.sourceId, r.sourceName, r.publishTime, r.title)
  }

  /** The answer of `get_failed_records` in table order. */
  function FailedRecords(rows: seq<Row>): (r: seq<FailedRecord>)
    ensures |r| <= |rows|
  {
    if rows == [] then []
    else FailedRecords(rows[..|rows| - 1])
         + (if IsFailed(rows[|rows| - 1]) then [FailedSummary(rows[|rows| - 1])] else [])
  }

  /** The answer of `get_failed_wechat_records` in table order. */
  function FailedWechatRecords(rows: seq<Row>): (r: seq<FailedWechatRecord>)
    ensures |r| <= |rows|
  {
    if rows == [] then []
    else FailedWechatRecords(rows[..|rows| - 1])
         + (if WechatSource(rows[|rows| - 1]) && IsFailed(rows[|rows| - 1])
            then [FailedWechatSummary(rows[|rows| - 1])] else [])
  }

  /** `get_failed_records` reports exactly the failed rows. */
  lemma {:induction false} FailedRecordsExactly(rows: seq<Row>, f: FailedRecord)
    ensures f in FailedRecords(rows) <==> exists i :: 0 <= i < |rows| && IsFailed(rows[i]) && f == FailedSummary(rows[i])
  {
    if rows != [] {
      var init := rows[..|rows| - 1];
      FailedRecordsExactly(init, f);
      if f in FailedRecords(rows) && f !in FailedRecords(init) {
        assert f == FailedSummary(rows[|rows| - 1]);
      }
      if exists i :: 0 <= i < |rows| && IsFailed(rows[i]) && f == FailedSummary(rows[i]) {
        var i :| 0 <= i < |rows| && IsFailed(rows[i]) && f == FailedSummary(rows[i]);
        if i < |rows| - 1 {
          assert rows[i] == init[i];
        }
      }
    }
  }

  /** `get_failed_wechat_records` reports exactly the failed rows of LIKE-matched sources. */
  lemma {:induction false} FailedWechatRecordsExactly(rows: seq<Row>, f: FailedWechatRecord)
    ensures f in FailedWechatRecords(rows)
            <==> exists i :: 0 <= i < |rows| && WechatSource(rows[i]) && IsFailed(rows[i])
                                             && f == FailedWechatSummary(rows[i])
  {
    if rows != [] {
      var init := rows[..|rows| - 1];
      FailedWechatRecordsExactly(init, f);
      if f in FailedWechatRecords(rows) && f !in FailedWechatRecords(init) {
        assert f == FailedWechatSummary(rows[|rows| - 1]);
      }
      if exists i :: 0 <= i < |rows| && WechatSource(rows[i]) && IsFailed(rows[i]) && f == FailedWechatSummary(rows[i]) {
        var i :| 0 <= i < |rows| && WechatSource(rows[i]) && IsFailed(rows[i]) && f == FailedWechatSummary(rows[i]);
        if i < |rows| - 1 {
          assert rows[i] == init[i];
        }
      }
    }
  }

  /**
   * Repair by overwrite: with the primary key holding, a failed row reads as
   * absent to `record_exists(id)`; storing the same id replaces it (one row
   * with that id afterwards), and a complete new row then reads as present.
   */
  lemma Repair(rows: seq<Row>, k: nat, row: Row)
    requires UniqueIds(rows) && k < |rows| && IsFailed(rows[k]) && row.id == rows[k].id
    ensures !ExistsIn(rows, row.id, None)
    ensures CountId(Upsert(rows, row), row.id) == 1
    ensures Complete(row) ==> ExistsIn(Upsert(rows, row), row.id, None)
  {
    UpsertReplaces(rows, row);
    var u := Upsert(rows, row);
    if Complete(row) {
      assert Matches(u[|u| - 1], row.id, None) && Complete(u[|u| - 1]);
    }
  }

  // ---------------------------------------------------------------------
  // query_records
  // ---------------------------------------------------------------------

  /**
   * The ids one `config/sources/<src>.json` file contributes: the truthy
   * `id`s of `data["sources"]`, whatever their JSON type, read in order
   * until an element that is not an object makes `.get` raise (ids read
   * before it are kept).
   */
  function FileIds(file: FileState): (ids: seq<Json>)
    ensures forall i :: 0 <= i < |ids| ==> Truthy(ids[i])
  {
    match file
    case Parsed(JObj(fields)) =>
      (match Get(fields, "sources", JArr([]))
       case JArr(items) => ItemIds(items)
       case _ => [])
    case _ => []
  }

  /** `for src in items: sid = src.get("id"); if sid: all_ids.append(sid)`, up to the first non-object. */
  function ItemIds(items: seq<Json>): (ids: seq<Json>)
    ensures forall i :: 0 <= i < |ids| ==> Truthy(ids[i])
    ensures forall id :: id in ids ==> exists i :: 0 <= i < |items| && items[i].JObj?
                                              && "id" in items[i].fields && items[i].fields["id"] == id
  {
    if items == [] || !items[0].JObj? then []
    else
      var sid := Get(items[0].fields, "id", JNull);
      var head := if Truthy(sid) then [sid] else [];
      var tail := ItemIds(items[1..]);
      assert forall id :: id in tail ==> exists i :: 1 <= i < |items| && items[i].JObj?
                                              && "id" in items[i].fields && items[i].fields["id"] == id by {
        forall id | id in tail
          ensures exists i :: 1 <= i < |items| && items[i].JObj?
                              && "id" in items[i].fields && items[i].fields["id"] == id
        {
          var j :| 0 <= j < |items[1..]| && items[1..][j].JObj? && "id" in items[1..][j].fields
                   && items[1..][j].fields["id"] == id;
          assert items[j + 1] == items[1..][j];
        }
      }
      head + tail
  }

  /** A numeric id and a string id are both read; a falsy one is not, and neither is anything after a non-object. */
  lemma ItemIdsKeepTypes(n: int, s: string)
    requires n != 0 && s != ""
    ensures ItemIds([JObj(map["id" := JNum(n)]), JObj(map["id" := JStr(s)]), JObj(map["id" := JStr("")]),
                     JStr("x"), JObj(map["id" := JStr(s)])])
            == [JNum(n), JStr(s)]
  {
    var items := [JObj(map["id" := JNum(n)]), JObj(map["id" := JStr(s)]), JObj(map["id" := JStr("")]),
                  JStr("x"), JObj(map["id" := JStr(s)])];
    assert items[3..][0] == JStr("x");
    assert ItemIds(items[3..]) == [];
    assert items[2..][1..] == items[3..];
    assert ItemIds(items[2..]) == [];
    assert items[1..][1..] == items[2..];
    assert items[1..] == items[1..][..0] + [items[1]] + items[2..];
  }

  const MinInt64: int := -0x8000_0000_0000_0000
  const MaxInt64: int := 0x7FFF_FFFF_FFFF_FFFF

  /** Whether sqlite3 can bind an id: anything but a list, an object or an integer beyond 64 bits. */
  predicate Bindable(id: Json)
  {
    !(id.JArr? || id.JObj? || (id.JNum? && !(MinInt64 <= id.n <= MaxInt64)))
  }

  /**
   * How one id binds as a query parameter and compares with the TEXT
   * column `source_id`, which gives the parameter text affinity: a string
   * is itself, an integer its decimal form, a bool 1 or 0, null is NULL
   * (equal to nothing). A list, a dict or an integer beyond 64 bits cannot
   * be bound and the query raises.
   */
  function BoundText(id: Json): (r: Result<Option<string>, string>)
    ensures r.Err? <==> id.JArr? || id.JObj? || (id.JNum? && !(MinInt64 <= id.n <= MaxInt64))
    ensures id.JStr? ==> r == Ok(Some(id.s))
    ensures id.JNum? && MinInt64 <= id.n <= MaxInt64 ==> r == Ok(Some(IntToString(id.n)))
    ensures id.JBool? ==> r == Ok(Some(if id.b then "1" else "0"))
    ensures id.JNull? ==> r == Ok(None)
  {
    match id
    case JNull => Ok(None)
    case JBool(b) => Ok(Some(if b then "1" else "0"))
    case JNum(n) =>
      if MinInt64 <= n <= MaxInt64 then Ok(Some(IntToString(n)))
      else Err("OverflowError: Python int too large to convert to SQLite INTEGER")
    case JStr(t) => Ok(Some(t))
    case JArr(_) => Err("ProgrammingError: Error binding parameter - unsupported type")
    case JObj(_) => Err("ProgrammingError: Error binding parameter - unsupported type")
  }

  /** The texts the `IN` list compares against, or the error of the first id that cannot be bound. */
  function BoundIds(ids: seq<Json>): (r: Result<seq<string>, string>)
    ensures r.Ok? <==> forall i :: 0 <= i < |ids| ==> BoundText(ids[i]).Ok?
    ensures r.Ok? ==> forall t :: t in r.value <==> exists i :: 0 <= i < |ids| && BoundText(ids[i]) == Ok(Some(t))
  {
    if ids == [] then Ok([])
    else
      var rest := BoundIds(ids[1..]);
      match BoundText(ids[0])
      case Err(e) => Err(e)
      case Ok(head) =>
        if rest.Err? then
          assert !Bindable(ids[1..][BoundIdsFailure(ids[1..])]);
          rest
        else
          assert forall i :: 1 <= i < |ids| ==> ids[i] == ids[1..][i - 1];
          Ok((if head.Some? then [head.value] else []) + rest.value)
  }

  /** The index of an id that cannot be bound, when there is one. */
  function BoundIdsFailure(ids: seq<Json>): (k: nat)
    requires exists i :: 0 <= i < |ids| && !Bindable(ids[i])
    ensures k < |ids| && !Bindable(ids[k])
  {
    if !Bindable(ids[0]) then 0
    else
      ghost var i :| 0 <= i < |ids| && !Bindable(ids[i]);
      assert ids[1..][i - 1] == ids[i];
      var k := BoundIdsFailure(ids[1..]);
      assert ids[1..][k] == ids[k + 1];
      k + 1
  }

  /** The `WHERE` clause: a listed source and `start <= publish_time <= end` in text order. */
  predicate InRange(r: Row, ids: seq<string>, start: string, end: string)
  {
    r.sourceId.Some? && r.sourceId.value in ids && r.publishTime.Some?
    && LexLeq(start, r.publishTime.value) && LexLeq(r.publishTime.value, end)
  }

  /** The rows the `WHERE` clause keeps, in table order. */
  function Selected(rows: seq<Row>, ids: seq<string>, start: string, end: string): (r: seq<Row>)
    ensures forall x :: x in r ==> x.publishTime.Some?
    ensures forall x :: x in r <==> x in rows && InRange(x, ids, start, end)
  {
    if rows == [] then []
    else Selected(rows[..|rows| - 1], ids, start, end)
         + (if InRange(rows[|rows| - 1], ids, start, end) then [rows[|rows| - 1]] else [])
  }

  /** The publish time of a selected row. */
  function Key(r: Row): string
  {
    if r.publishTime.Some? then r.publishTime.value else ""
  }

  /** `ORDER BY publish_time DESC`. */
  predicate SortedDesc(s: seq<Row>)
  {
    forall i, j :: 0 <= i < j < |s| ==> LexLeq(Key(s[j]), Key(s[i]))
  }

  /** Insert `x` before the first row it does not sort after. */
  function InsertDesc(x: Row, s: seq<Row>): (r: seq<Row>)
    ensures multiset(r) == multiset(s) + multiset{x}
    ensures |r| == |s| + 1
  {
    if s == [] || LexLeq(Key(s[0]), Key(x)) then [x] + s
    else assert s == [s[0]] + s[1..]; [s[0]] + InsertDesc(x, s[1..])
  }

  /** Sorting `s` by publish time, newest first. */
  function SortDesc(s: seq<Row>): (r: seq<Row>)
    ensures multiset(r) == multiset(s)
  {
    if s == [] then [] else assert s == [s[0]] + s[1..]; InsertDesc(s[0], SortDesc(s[1..]))
  }

  lemma {:induction false} InsertDescSorted(x: Row, s: seq<Row>)
    requires SortedDesc(s)
    ensures SortedDesc(InsertDesc(x, s))
    decreases |s|
  {
    if s == [] || LexLeq(Key(s[0]), Key(x)) {
      FrontSorted(x, s);
    } else {
      LexLeqTotal(Key(s[0]), Key(x));
      InsertDescSorted(x, s[1..]);
      InsertDescBelow(x, s);
      ConsSorted(s[0], InsertDesc(x, s[1..]));
    }
  }

  /** A row no older than the first of a sorted sequence can go in front of it. */
  lemma FrontSorted(x: Row, s: seq<Row>)
    requires SortedDesc(s) && (s == [] || LexLeq(Key(s[0]), Key(x)))
    ensures SortedDesc([x] + s)
  {
    var r := [x] + s;
    forall i, j | 0 <= i < j < |r|
      ensures LexLeq(Key(r[j]), Key(r[i]))
    {
      if i == 0 && j > 1 {
        LexLeqTransitive(Key(s[j - 1]), Key(s[0]), Key(x));
      }
    }
  }

  /** A row no older than every row of a sorted sequence can go in front of it. */
  lemma ConsSorted(h: Row, t: seq<Row>)
    requires SortedDesc(t) && forall k :: 0 <= k < |t| ==> LexLeq(Key(t[k]), Key(h))
    ensures SortedDesc([h] + t)
  {
    var r := [h] + t;
    forall i, j | 0 <= i < j < |r|
      ensures LexLeq(Key(r[j]), Key(r[i]))
    {
      if i == 0 {
        assert r[j] == t[j - 1];
      } else {
        assert r[i] == t[i - 1] && r[j] == t[j - 1];
      }
    }
  }

  /** Inserting a row older than the head of a sorted sequence into its tail keeps every row no newer than that head. */
  lemma InsertDescBelow(x: Row, s: seq<Row>)
    requires SortedDesc(s) && s != [] && LexLeq(Key(x), Key(s[0]))
    ensures forall k :: 0 <= k < |InsertDesc(x, s[1..])| ==> LexLeq(Key(InsertDesc(x, s[1..])[k]), Key(s[0]))
  {
    var t := InsertDesc(x, s[1..]);
    forall k | 0 <= k < |t|
      ensures LexLeq(Key(t[k]), Key(s[0]))
    {
      assert t[k] in multiset(t);
      assert t[k] == x || t[k] in multiset(s[1..]);
      if t[k] != x {
        var m :| 0 <= m < |s[1..]| && s[1..][m] == t[k];
        assert s[m + 1] == t[k];
      }
    }
  }

  lemma {:induction false} SortDescSorted(s: seq<Row>)
    ensures SortedDesc(SortDesc(s))
  {
    if s != [] {
      SortDescSorted(s[1..]);
      InsertDescSorted(s[0], SortDesc(s[1..]));
    }
  }

  /** The ids `query_records` looks up: the "wechat_" ids first, then those read from config files. */
  function QueryIds(sourceIds: seq<string>, sourceFiles: string -> FileState): (ids: seq<Json>)
    ensures forall s :: s in sourceIds && StartsWith(s, "wechat_") ==> JStr(s) in ids
  {
    Texts(DirectIds(sourceIds)) + ConfigFileIds(sourceIds, sourceFiles)
  }

  /** Strings as the JSON values they are in the id list. */
  function Texts(ss: seq<string>): (r: seq<Json>)
    ensures |r| == |ss| && forall i :: 0 <= i < |ss| ==> r[i] == JStr(ss[i])
  {
    seq(|ss|, i requires 0 <= i < |ss| => JStr(ss[i]))
  }

  /** `[sid for sid in source_ids if sid.startswith("wechat_")]`. */
  function DirectIds(sourceIds: seq<string>): (r: seq<string>)
    ensures forall s :: s in r <==> s in sourceIds && StartsWith(s, "wechat_")
  {
    if sourceIds == [] then []
    else (if StartsWith(sourceIds[0], "wechat_") then [sourceIds[0]] else []) + DirectIds(sourceIds[1..])
  }

  /** The ids read from the config file of every non-"wechat_" id, in order. */
  function ConfigFileIds(sourceIds: seq<string>, sourceFiles: string -> FileState): (r: seq<Json>)
    ensures forall s :: s in r ==> Truthy(s)
  {
    if sourceIds == [] then []
    else (if StartsWith(sourceIds[0], "wechat_") then [] else FileIds(sourceFiles(sourceIds[0])))
         + ConfigFileIds(sourceIds[1..], sourceFiles)
  }

  /** A config file that cannot be read or holds no objects adds no id. */
  lemma UnreadableFileAddsNothing(file: FileState)
    requires !file.Parsed? || !file.value.JObj?
    ensures FileIds(file) == []
  {
  }

  // ---------------------------------------------------------------------
  // The table
  // ---------------------------------------------------------------------

  /** The `crawled_records` table of one database file. */
  class Database {
    var rows: seq<Row>

    ghost predicate Valid()
      reads this
    {
      UniqueIds(rows)
    }

    /** `initialize()` on a fresh file: the empty table. */
    constructor ()
      ensures rows == [] && Valid()
    {
      rows := [];
    }

    /**
     * `record_exists(record_id, url)`: select the matching rows, answer
     * false if there are none, else whether one has content and a title.
     */
    method RecordExists(id: string, url: Option<string>) returns (b: bool)
      ensures b <==> ExistsIn(rows, id, url)
    {
      var matched: seq<Row> := [];
      var i := 0;
      while i < |rows|
        invariant 0 <= i <= |rows|
        invariant forall x :: x in matched <==> exists k :: 0 <= k < i && rows[k] == x && Matches(x, id, url)
      {
        if Matches(rows[i], id, url) {
          matched := matched + [rows[i]];
        }
        i := i + 1;
      }
      if matched == [] {
        return false;
      }
      var j := 0;
      while j < |matched|
        invariant 0 <= j <= |matched|
        invariant forall k :: 0 <= k < j ==> !Complete(matched[k])
      {
        if Filled(matched[j].content) && matched[j].title != "" {
          assert matched[j] in matched;
          return true;
        }
        j := j + 1;
      }
      b := false;
      forall k | 0 <= k < |rows| && Matches(rows[k], id, url)
        ensures !Complete(rows[k])
      {
        assert rows[k] in matched;
      }
    }

    /**
     * `store_document(item_id, content, metadata)` at time `now`: INSERT OR
     * REPLACE of the new row, or the NOT NULL error with the table unchanged.
     */
    method StoreDocument(itemId: string, content: string, metadata: Metadata, now: string) returns (err: Option<string>)
      requires Valid()
      modifies this
      ensures Valid()
      ensures match NewRow(itemId, content, metadata, now)
              case Err(e) => err == Some(e) && rows == old(rows)
              case Ok(row) => err.None? && rows == Upsert(old(rows), row)
    {
      match NewRow(itemId, content, metadata, now)
      case Err(e) =>
        err := Some(e);
      case Ok(row) =>
        UpsertReplaces(rows, row);
        rows := Upsert(rows, row);
        err := None;
    }

    /** `delete_record(record_id)`. */
    method DeleteRecord(id: string)
      requires Valid()
      modifies this
      ensures Valid()
      ensures rows == WithoutId(old(rows), id)
    {
      WithoutIdUnique(rows, id);
      rows := WithoutId(rows, id);
    }

    /** `get_failed_records()`. */
    method GetFailedRecords() returns (results: seq<FailedRecord>)
      ensures results == FailedRecords(rows)
    {
      results := [];
      var i := 0;
      while i < |rows|
        invariant 0 <= i <= |rows|
        invariant results == FailedRecords(rows[..i])
      {
        assert rows[..i + 1][..i] == rows[..i];
        if rows[i].title == "" || rows[i].content.None? || rows[i].content.value == "" {
          results := results + [FailedSummary(rows[i])];
        }
        i := i + 1;
      }
      assert rows[..i] == rows;
    }

    /** `get_failed_wechat_records()`. */
    method GetFailedWechatRecords() returns (results: seq<FailedWechatRecord>)
      ensures results == FailedWechatRecords(rows)
    {
      results := [];
      var i := 0;
      while i < |rows|
        invariant 0 <= i <= |rows|
        invariant results == FailedWechatRecords(rows[..i])
      {
        assert rows[..i + 1][..i] == rows[..i];
        if WechatSource(rows[i]) && IsFailed(rows[i]) {
          results := results + [FailedWechatSummary(rows[i])];
        }
        i := i + 1;
      }
      assert rows[..i] == rows;
    }

    /**
     * `query_records(source_ids, start_time, end_time)`; `sourceFiles(src)`
     * is what reading `config/sources/<src>.json` gives. Binding an id the
     * driver cannot bind raises out of the query.
     */
    method QueryRecords(sourceIds: seq<string>, start: string, end: string, sourceFiles: string -> FileState)
      returns (results: Result<seq<Row>, string>)
      ensures QueryIds(sourceIds, sourceFiles) == [] ==> results == Ok([])
      ensures QueryIds(sourceIds, sourceFiles) != [] ==>
                (results.Err? <==> BoundIds(QueryIds(sourceIds, sourceFiles)).Err?)
                && (results.Err? ==> results == Err(BoundIds(QueryIds(sourceIds, sourceFiles)).error))
      ensures QueryIds(sourceIds, sourceFiles) != [] && results.Ok? ==>
                var ids := BoundIds(QueryIds(sourceIds, sourceFiles)).value;
                multiset(results.value) == multiset(Selected(rows, ids, start, end))
                && SortedDesc(results.value)
                && forall x :: x in results.value ==> x in rows && InRange(x, ids, start, end)
    {
      var allIds := CollectIds(sourceIds, sourceFiles);
      if allIds == [] {
        return Ok([]);
      }
      var bound := BoundIds(allIds);
      if bound.Err? {
        return Err(bound.error);
      }
      results := Ok(SortDesc(Selected(rows, bound.value, start, end)));
      SortedSelection(rows, bound.value, start, end);
    }
  }

  /**
   * The id list `query_records` builds: the "wechat_" ids as given, then
   * the ids read from the config file of every other id, in order.
   */
  method CollectIds(sourceIds: seq<string>, sourceFiles: string -> FileState) returns (allIds: seq<Json>)
    ensures allIds == QueryIds(sourceIds, sourceFiles)
  {
    var fromFiles: seq<Json> := [];
    var i := 0;
    while i < |sourceIds|
      invariant 0 <= i <= |sourceIds|
      invariant fromFiles == ConfigFileIds(sourceIds[..i], sourceFiles)
    {
      var src := sourceIds[i];
      var more := if StartsWith(src, "wechat_") then [] else FileIds(sourceFiles(src));
      ConfigFileIdsStep(sourceIds, i, sourceFiles);
      fromFiles := fromFiles + more;
      i := i + 1;
    }
    assert sourceIds[..i] == sourceIds;
    allIds := Texts(DirectIds(sourceIds)) + fromFiles;
  }

  /** A config file listing the integer id 7 selects the rows whose `source_id` is "7". */
  lemma NumericIdBindsAsText(rows: seq<Row>, start: string, end: string, sourceFiles: string -> FileState)
    requires sourceFiles("site") == Parsed(JObj(map["sources" := JArr([JObj(map["id" := JNum(7)])])]))
    ensures QueryIds(["site"], sourceFiles) == [JNum(7)]
    ensures BoundIds(QueryIds(["site"], sourceFiles)) == Ok(["7"])
  {
    assert !StartsWith("site", "wechat_");
    var items := [JObj(map["id" := JNum(7)])];
    assert ItemIds(items[1..]) == [];
    assert ConfigFileIds(["site"][1..], sourceFiles) == [];
    assert DirectIds(["site"][1..]) == [];
    SevenBinds();
  }

  lemma SevenBinds()
    ensures BoundIds([JNum(7)]) == Ok(["7"])
  {
    assert IntToString(7) == [DigitChar(7)] == "7";
    assert BoundText(JNum(7)) == Ok(Some("7"));
    assert BoundIds([JNum(7)][1..]) == Ok([]);
    assert ["7"] + [] == ["7"];
  }

  /** A config file listing a list as an id makes the whole query raise. */
  lemma ListIdRaises(sourceFiles: string -> FileState)
    requires sourceFiles("site") == Parsed(JObj(map["sources" := JArr([JObj(map["id" := JArr([JStr("a")])])])]))
    ensures BoundIds(QueryIds(["site"], sourceFiles)).Err?
  {
    assert !StartsWith("site", "wechat_");
    var items := [JObj(map["id" := JArr([JStr("a")])])];
    assert ItemIds(items[1..]) == [];
    assert ConfigFileIds(["site"][1..], sourceFiles) == [];
    assert DirectIds(["site"][1..]) == [];
    assert QueryIds(["site"], sourceFiles) == [JArr([JStr("a")])];
  }

  /** The sorted selection is sorted newest first and holds only selected rows. */
  lemma SortedSelection(rows: seq<Row>, ids: seq<string>, start: string, end: string)
    ensures SortedDesc(SortDesc(Selected(rows, ids, start, end)))
    ensures forall x :: x in SortDesc(Selected(rows, ids, start, end)) ==> x in rows && InRange(x, ids, start, end)
  {
    var selected := Selected(rows, ids, start, end);
    SortDescSorted(selected);
    forall x | x in SortDesc(selected)
      ensures x in rows && InRange(x, ids, start, end)
    {
      assert x in multiset(SortDesc(selected));
    }
  }

  /** The loop's step over the `i`-th source id. */
  lemma ConfigFileIdsStep(sourceIds: seq<string>, i: nat, sourceFiles: string -> FileState)
    requires i < |sourceIds|
    ensures ConfigFileIds(sourceIds[..i + 1], sourceFiles)
         == ConfigFileIds(sourceIds[..i], sourceFiles)
            + (if StartsWith(sourceIds[i], "wechat_") then [] else FileIds(sourceFiles(sourceIds[i])))
  {
    assert sourceIds[..i + 1] == sourceIds[..i] + [sourceIds[i]];
    ConfigFileIdsAppend(sourceIds[..i], sourceIds[i], sourceFiles);
  }

  /** Reading one more source id extends the config-file ids at the end. */
  lemma {:induction false} ConfigFileIdsAppend(ids: seq<string>, src: string, sourceFiles: string -> FileState)
    ensures ConfigFileIds(ids + [src], sourceFiles)
         == ConfigFileIds(ids, sourceFiles) + (if StartsWith(src, "wechat_") then [] else FileIds(sourceFiles(src)))
  {
    if ids != [] {
      assert (ids + [src])[1..] == ids[1..] + [src];
      ConfigFileIdsAppend(ids[1..], src, sourceFiles);
    } else {
      assert ids + [src] == [src];
    }
  }
}

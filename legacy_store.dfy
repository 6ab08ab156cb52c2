/**
 * The older copy of the store kept beside the crawler
 * (crawler/storage/database.py): the same `crawled_records` table, but
 * existence is by id alone, writes are INSERT OR IGNORE, and opening the
 * database migrates the column set of an older table.
 */
module LegacyStore {
  import opened Wrappers
  import opened RecordStore

  /** The columns `CREATE TABLE IF NOT EXISTS crawled_records` creates. */
  const SchemaColumns: set<string> :=
    {"id", "title", "url", "publish_time", "source_id", "source_name", "attachments", "content", "created_at"}

  /** Whether `_ensure_attachment_column` finds something to alter. */
  predicate NeedsMigration(columns: set<string>)
  {
    "attachments" !in columns || "content" !in columns || "synced" in columns
  }

  /** The column set `_ensure_attachment_column` leaves. */
  function Migrated(columns: set<string>): (r: set<string>)
    ensures "attachments" in r && "content" in r && "synced" !in r
    ensures forall c :: c != "attachments" && c != "content" && c != "synced" ==> (c in r <==> c in columns)
    ensures !NeedsMigration(r)
  {
    columns + {"attachments", "content"} - {"synced"}
  }

  /** Migrating a migrated column set changes nothing. */
  lemma MigratedIdempotent(columns: set<string>)
    ensures Migrated(Migrated(columns)) == Migrated(columns)
    ensures !NeedsMigration(columns) ==> Migrated(columns) == columns
  {
  }

  /** The column set `initialize()` leaves, from whether the table existed and its columns. */
  function Initialized(tableExists: bool, columns: set<string>): (r: set<string>)
    ensures !tableExists ==> r == SchemaColumns
    ensures tableExists ==> r == Migrated(columns)
  {
    Migrated(if tableExists then columns else SchemaColumns)
  }

  /** A second `initialize()` finds nothing to create and nothing to alter. */
  lemma InitializeIdempotent(tableExists: bool, columns: set<string>)
    ensures Initialized(true, Initialized(tableExists, columns)) == Initialized(tableExists, columns)
    ensures !NeedsMigration(Initialized(tableExists, columns))
  {
  }

  /** `SELECT 1 FROM crawled_records WHERE id=?` finds a row. */
  predicate HasId(rows: seq<Row>, id: string)
  {
    exists i :: 0 <= i < |rows| && rows[i].id == id
  }

  /**
   * INSERT OR IGNORE of `candidate` (None when the title or the url is
   * NULL): a NOT NULL or primary-key conflict skips the row silently.
   */
  function InsertOrIgnore(rows: seq<Row>, candidate: Option<Row>): (r: seq<Row>)
    ensures candidate.None? || HasId(rows, candidate.value.id) ==> r == rows
    ensures candidate.Some? && !HasId(rows, candidate.value.id) ==> r == rows + [candidate.value]
  {
    if candidate.None? || HasId(rows, candidate.value.id) then rows else rows + [candidate.value]
  }

  /** INSERT OR IGNORE keeps the primary key and never changes or removes a stored row. */
  lemma InsertOrIgnoreKeeps(rows: seq<Row>, candidate: Option<Row>)
    requires UniqueIds(rows)
    ensures UniqueIds(InsertOrIgnore(rows, candidate))
    ensures InsertOrIgnore(rows, candidate)[..|rows|] == rows
    ensures |InsertOrIgnore(rows, candidate)| <= |rows| + 1
  {
  }

  /** The row `insert_record` offers, or None when a NOT NULL column would be NULL. */
  function Candidate(id: string, title: Option<string>, url: Option<string>, publishTime: Option<string>,
                     sourceId: Option<string>, sourceName: Option<string>, attachments: Option<string>,
                     content: Option<string>, now: string): (r: Option<Row>)
    ensures r.Some? <==> title.Some? && url.Some?
    ensures r.Some? ==> r.value.id == id && r.value.title == title.value && r.value.url == url.value
  {
    if title.None? || url.None? then None
    else Some(Row(id, title.value, url.value, publishTime, sourceId, sourceName, attachments, content, now))
  }

  /** `store_document` offers the row the shared store builds, with the same defaults. */
  function DocumentCandidate(itemId: string, content: string, m: Metadata, now: string): (r: Option<Row>)
    ensures r.Some? <==> NewRow(itemId, content, m, now).Ok?
    ensures r.Some? ==> r.value == NewRow(itemId, content, m, now).value
  {
    Candidate(itemId, MetaGet(m, "title", Some("")), MetaGet(m, "url", Some("")), MetaGet(m, "publish_time", None),
              MetaGet(m, "source_id", Some("")), MetaGet(m, "source_name", Some("")),
              MetaGet(m, "attachments", None), Some(content), now)
  }

  /**
   * Storing the same id twice equals storing it once with the first call's
   * values: once a row with that id is in the table, later writes are ignored.
   */
  lemma FirstWriteWins(rows: seq<Row>, itemId: string, c1: string, m1: Metadata, t1: string,
                       c2: string, m2: Metadata, t2: string)
    requires DocumentCandidate(itemId, c1, m1, t1).Some? || HasId(rows, itemId)
    ensures var once := InsertOrIgnore(rows, DocumentCandidate(itemId, c1, m1, t1));
            InsertOrIgnore(once, DocumentCandidate(itemId, c2, m2, t2)) == once
  {
    var once := InsertOrIgnore(rows, DocumentCandidate(itemId, c1, m1, t1));
    if !HasId(rows, itemId) {
      assert once[|rows|].id == itemId;
    } else {
      var i :| 0 <= i < |rows| && rows[i].id == itemId;
      assert once[i] == rows[i];
    }
    assert HasId(once, itemId);
  }

  /** The same `store_document` call twice equals it once, whatever the table held. */
  lemma StoreTwiceIsOnce(rows: seq<Row>, itemId: string, content: string, m: Metadata, now: string)
    ensures var once := InsertOrIgnore(rows, DocumentCandidate(itemId, content, m, now));
            InsertOrIgnore(once, DocumentCandidate(itemId, content, m, now)) == once
  {
    if DocumentCandidate(itemId, content, m, now).Some? || HasId(rows, itemId) {
      FirstWriteWins(rows, itemId, content, m, now, content, m, now);
    }
  }

  /**
   * The legacy database file: whether `crawled_records` exists, its column
   * set, its rows, and how many explicit commits the migration made. A
   * column the table lacks reads as NULL in every row.
   */
  class LegacyDatabase {
    var tableExists: bool
    var columns: set<string>
    var rows: seq<Row>
    var commits: nat

    ghost predicate Valid()
      reads this
    {
      UniqueIds(rows)
      && (!tableExists ==> rows == [] && columns == {})
      && ("attachments" !in columns ==> forall i :: 0 <= i < |rows| ==> rows[i].attachments.None?)
      && ("content" !in columns ==> forall i :: 0 <= i < |rows| ==> rows[i].content.None?)
    }

    /** Initialized and migrated: every column the writes name exists. */
    ghost predicate Ready()
      reads this
    {
      Valid() && tableExists && "attachments" in columns && "content" in columns
    }

    /** A database file without the table. */
    constructor ()
      ensures Valid() && !tableExists && rows == [] && commits == 0
    {
      tableExists, columns, rows, commits := false, {}, [], 0;
    }

    /**
     * `_ensure_attachment_column(conn)`: add `attachments` and `content`
     * when missing, drop `synced` when present, and commit only if one of
     * these happened. Rows are unchanged (an added column reads as NULL).
     */
    method EnsureAttachmentColumn() returns (altered: bool)
      requires Valid() && tableExists
      modifies this
      ensures Valid() && tableExists
      ensures columns == Migrated(old(columns)) && rows == old(rows)
      ensures altered <==> NeedsMigration(old(columns))
      ensures commits == old(commits) + (if altered then 1 else 0)
    {
      var present := columns;
      altered := false;
      if "attachments" !in present {
        columns := columns + {"attachments"};
        altered := true;
      }
      if "content" !in present {
        columns := columns + {"content"};
        altered := true;
      }
      if "synced" in present {
        columns := columns - {"synced"};
        altered := true;
      }
      if altered {
        commits := commits + 1;
      }
    }

    /** `initialize()`: create the table if it does not exist, then migrate it. */
    method Initialize()
      requires Valid()
      modifies this
      ensures Ready()
      ensures columns == Initialized(old(tableExists), old(columns)) && rows == old(rows)
      ensures commits == old(commits) + (if NeedsMigration(if old(tableExists) then old(columns) else SchemaColumns) then 1 else 0)
    {
      if !tableExists {
        tableExists := true;
        columns := SchemaColumns;
      }
      var _ := EnsureAttachmentColumn();
    }

    /** `record_exists(record_id)`: some row has this id, whatever its title and content. */
    predicate RecordExists(id: string)
      reads this
    {
      HasId(rows, id)
    }

    /** `insert_record(...)` at time `now`. */
    method InsertRecord(id: string, title: Option<string>, url: Option<string>, publishTime: Option<string>,
                        sourceId: Option<string>, sourceName: Option<string>, attachments: Option<string>,
                        content: Option<string>, now: string)
      requires Ready()
      modifies this
      ensures Ready() && columns == old(columns) && commits == old(commits)
      ensures rows == InsertOrIgnore(old(rows),
                                     Candidate(id, title, url, publishTime, sourceId, sourceName, attachments, content, now))
    {
      var candidate := Candidate(id, title, url, publishTime, sourceId, sourceName, attachments, content, now);
      InsertOrIgnoreKeeps(rows, candidate);
      rows := InsertOrIgnore(rows, candidate);
    }

    /** `store_document(item_id, content, metadata)`: `insert_record` with the metadata defaults. */
    method StoreDocument(itemId: string, content: string, m: Metadata, now: string)
      requires Ready()
      modifies this
      ensures Ready() && columns == old(columns) && commits == old(commits)
      ensures rows == InsertOrIgnore(old(rows), DocumentCandidate(itemId, content, m, now))
    {
      InsertRecord(itemId, MetaGet(m, "title", Some("")), MetaGet(m, "url", Some("")), MetaGet(m, "publish_time", None),
                   MetaGet(m, "source_id", Some("")), MetaGet(m, "source_name", Some("")),
                   MetaGet(m, "attachments", None), Some(content), now);
    }
  }

  /**
   * Unlike the shared store, an empty row still counts as existing here: the
   * legacy check reports a failed row that the shared check reports absent.
   */
  lemma EmptyRowBlocksRetry(rows: seq<Row>, k: nat)
    requires UniqueIds(rows) && k < |rows| && IsFailed(rows[k])
    ensures HasId(rows, rows[k].id)
    ensures !ExistsIn(rows, rows[k].id, None)
  {
    Repair(rows, k, rows[k]);
  }
}

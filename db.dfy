/** The relational store of `db.py`: one datatype per table row, the
    conflict rule of each table as a function on abstract tables, and a
    `Store` class whose fields are the tables and whose methods are the
    accessors (`upsert_file`, `set_meta`, `get_meta`, `bulk_insert_*`). */
module Db {
  import opened Text

  /** A `commits` row; `id` is the primary key. */
  datatype CommitRow = CommitRow(id: string, authorName: string, authorEmail: string, authoredDate: int, message: string)

  /** A `commit_files` row; the table has no key and is append-only. */
  datatype CommitFileRow = CommitFileRow(
    commitId: string, fileId: int, additions: int, deletions: int,
    changeType: string, oldPath: string, newPath: string, isBinary: int)

  /** A `features` row; `kind` is the `type` column. */
  datatype FeatureRow = FeatureRow(commitId: string, kind: string, reference: string)

  /** A `complexity` row; `(file_id, commit_id)` is the primary key. */
  datatype ComplexityRow = ComplexityRow(fileId: int, commitId: string, nloc: int, ccn: int, functions: int)

  /** An `ownership` row; `(file_id, author_email)` is the primary key. */
  datatype OwnershipRow = OwnershipRow(
    fileId: int, authorEmail: string, commits: nat,
    linesAdded: int, linesDeleted: int, firstCommit: int, lastCommit: int)

  type ComplexityKey = (int, string)

  function KeyOf(row: ComplexityRow): ComplexityKey {
    (row.fileId, row.commitId)
  }

  /** The `files` table: `path` is UNIQUE and `id` is an AUTOINCREMENT
      primary key, so `next` is one more than the largest id handed out. */
  datatype FileTable = FileTable(ids: map<string, int>, next: int) {
    ghost predicate Valid() {
      && next >= 1
      && (forall p :: p in ids ==> 1 <= ids[p] < next)
      && (forall p, q :: p in ids && q in ids && p != q ==> ids[p] != ids[q])
    }
  }

  const EmptyFiles: FileTable := FileTable(map[], 1)

  datatype Resolved = Resolved(table: FileTable, id: int)

  /** `upsert_file` as intended: INSERT OR IGNORE the path, then the id
      stored for it. The table afterwards holds exactly one row for `path`;
      it gains that row if the path was new and is otherwise unchanged. */
  function Resolve(ft: FileTable, path: string): (r: Resolved)
    requires ft.Valid()
    ensures r.table.Valid()
    ensures path in r.table.ids && r.table.ids[path] == r.id
    ensures path in ft.ids ==> r.table == ft
    ensures path !in ft.ids ==> |r.table.ids| == |ft.ids| + 1 && r.id !in ft.ids.Values
    ensures forall q :: q != path ==> (q in r.table.ids <==> q in ft.ids)
    ensures forall q :: q in ft.ids ==> r.table.ids[q] == ft.ids[q]
  {
    if path in ft.ids then Resolved(ft, ft.ids[path])
    else Resolved(FileTable(ft.ids[path := ft.next], ft.next + 1), ft.next)
  }

  /** A new path receives the next AUTOINCREMENT id, which is above every id
      handed out before, and the counter moves one past it. */
  lemma ResolveNewPath(ft: FileTable, path: string)
    requires ft.Valid() && path !in ft.ids
    ensures var r := Resolve(ft, path);
            && r.id == ft.next && r.table.next == ft.next + 1
            && forall q :: q in ft.ids ==> ft.ids[q] < r.id
  {
  }

  /** A table that already holds `path` with the id another table's
      resolution gives it resolves `path` to that id and stays as it is. */
  lemma ResolveAgrees(ft: FileTable, ft2: FileTable, path: string)
    requires ft.Valid() && ft2.Valid()
    requires path in ft2.ids && ft2.ids[path] == Resolve(ft, path).id
    ensures Resolve(ft2, path) == Resolved(ft2, Resolve(ft, path).id)
  {
  }

  /** Resolving a path a second time returns the same id and changes nothing. */
  lemma ResolveStable(ft: FileTable, path: string)
    requires ft.Valid()
    ensures var r := Resolve(ft, path);
            Resolve(r.table, path) == r
  {
  }

  /** Distinct paths never share an id. */
  lemma ResolveDistinct(ft: FileTable, p: string, q: string)
    requires ft.Valid() && p != q
    ensures var r := Resolve(ft, p);
            Resolve(r.table, q).id != r.id
  {
    var r := Resolve(ft, p);
    var s := Resolve(r.table, q);
    assert p in s.table.ids && s.table.ids[p] == r.id;
  }

  function CommitIds(rows: seq<CommitRow>): set<string> {
    set row | row in rows :: row.id
  }

  /** The foreign key of `commit_files`: every row names a stored commit. */
  ghost predicate CommitsStored(cfs: seq<CommitFileRow>, commits: map<string, CommitRow>) {
    forall k :: 0 <= k < |cfs| ==> cfs[k].commitId in commits
  }

  /** `executemany("INSERT OR IGNORE INTO commits ...", rows)`: each row in
      turn is inserted unless its id is already present. Existing rows are
      never changed, and the table gains exactly the new ids. */
  function InsertOrIgnore(t: map<string, CommitRow>, rows: seq<CommitRow>): (r: map<string, CommitRow>)
    ensures r.Keys == t.Keys + CommitIds(rows)
    ensures forall k :: k in t ==> r[k] == t[k]
    decreases |rows|
  {
    if rows == [] then t
    else
      var t' := if rows[0].id in t then t else t[rows[0].id := rows[0]];
      assert CommitIds(rows) == {rows[0].id} + CommitIds(rows[1..]) by {
        assert forall row :: row in rows <==> row == rows[0] || row in rows[1..];
      }
      InsertOrIgnore(t', rows[1..])
  }

  /** No earlier row of `rows` has the id of `rows[i]`. */
  ghost predicate FirstWithId(rows: seq<CommitRow>, i: int)
    requires 0 <= i < |rows|
  {
    forall j :: 0 <= j < i ==> rows[j].id != rows[i].id
  }

  /** A new id takes the values of the first row that carries it. */
  lemma {:induction false} InsertOrIgnoreFirst(t: map<string, CommitRow>, rows: seq<CommitRow>, i: int)
    requires 0 <= i < |rows| && rows[i].id !in t && FirstWithId(rows, i)
    ensures InsertOrIgnore(t, rows)[rows[i].id] == rows[i]
    decreases |rows|
  {
    var t' := if rows[0].id in t then t else t[rows[0].id := rows[0]];
    if i > 0 {
      assert rows[1..][i - 1] == rows[i];
      assert rows[0].id != rows[i].id;
      InsertOrIgnoreFirst(t', rows[1..], i - 1);
    }
  }

  /** Rows stay keyed by their id. */
  lemma {:induction false} InsertOrIgnoreKeyed(t: map<string, CommitRow>, rows: seq<CommitRow>)
    requires forall k :: k in t ==> t[k].id == k
    ensures forall k :: k in InsertOrIgnore(t, rows) ==> InsertOrIgnore(t, rows)[k].id == k
    decreases |rows|
  {
    if rows != [] {
      var t' := if rows[0].id in t then t else t[rows[0].id := rows[0]];
      assert InsertOrIgnore(t, rows) == InsertOrIgnore(t', rows[1..]);
      InsertOrIgnoreKeyed(t', rows[1..]);
    }
  }

  /** Rows whose ids are all present change nothing. */
  lemma {:induction false} InsertOrIgnoreKnown(t: map<string, CommitRow>, rows: seq<CommitRow>)
    requires CommitIds(rows) <= t.Keys
    ensures InsertOrIgnore(t, rows) == t
    decreases |rows|
  {
    if rows != [] {
      assert rows[0] in rows;
      assert CommitIds(rows[1..]) <= CommitIds(rows);
      InsertOrIgnoreKnown(t, rows[1..]);
    }
  }

  /** Inserting the same batch of commits twice leaves the table as
      inserting it once. */
  lemma InsertOrIgnoreIdempotent(t: map<string, CommitRow>, rows: seq<CommitRow>)
    ensures InsertOrIgnore(InsertOrIgnore(t, rows), rows) == InsertOrIgnore(t, rows)
  {
    InsertOrIgnoreKnown(InsertOrIgnore(t, rows), rows);
  }

  function ComplexityKeys(rows: seq<ComplexityRow>): set<ComplexityKey> {
    set row | row in rows :: KeyOf(row)
  }

  /** No later row of `rows` has the key of `rows[i]`. */
  ghost predicate LastWithKey(rows: seq<ComplexityRow>, i: int)
    requires 0 <= i < |rows|
  {
    forall j :: i < j < |rows| ==> KeyOf(rows[j]) != KeyOf(rows[i])
  }

  /** `executemany("INSERT OR REPLACE INTO complexity ...", rows)`: each row
      in turn replaces any row with the same `(file_id, commit_id)`. Keys
      outside the batch keep their rows. */
  function ReplaceAll(t: map<ComplexityKey, ComplexityRow>, rows: seq<ComplexityRow>): (r: map<ComplexityKey, ComplexityRow>)
    ensures r.Keys == t.Keys + ComplexityKeys(rows)
    ensures forall k :: k in t && k !in ComplexityKeys(rows) ==> r[k] == t[k]
    decreases |rows|
  {
    if rows == [] then t
    else
      assert ComplexityKeys(rows) == {KeyOf(rows[0])} + ComplexityKeys(rows[1..]) by {
        assert forall row :: row in rows <==> row == rows[0] || row in rows[1..];
      }
      ReplaceAll(t[KeyOf(rows[0]) := rows[0]], rows[1..])
  }

  /** Each key of the batch ends up holding the last batch row with that key. */
  lemma {:induction false} ReplaceAllLast(t: map<ComplexityKey, ComplexityRow>, rows: seq<ComplexityRow>, i: int)
    requires 0 <= i < |rows| && LastWithKey(rows, i)
    ensures ReplaceAll(t, rows)[KeyOf(rows[i])] == rows[i]
    decreases |rows|
  {
    var t' := t[KeyOf(rows[0]) := rows[0]];
    if i > 0 {
      assert rows[1..][i - 1] == rows[i];
      assert LastWithKey(rows[1..], i - 1) by {
        forall j | i - 1 < j < |rows| - 1 ensures KeyOf(rows[1..][j]) != KeyOf(rows[i]) {
          assert rows[1..][j] == rows[j + 1];
        }
      }
      ReplaceAllLast(t', rows[1..], i - 1);
    } else {
      assert KeyOf(rows[0]) !in ComplexityKeys(rows[1..]) by {
        forall row | row in rows[1..] ensures KeyOf(row) != KeyOf(rows[0]) {
          var j :| 0 <= j < |rows| - 1 && rows[1..][j] == row;
          assert rows[j + 1] == row;
        }
      }
    }
  }

  /** Rows stay keyed by `(file_id, commit_id)`. */
  lemma {:induction false} ReplaceAllKeyed(t: map<ComplexityKey, ComplexityRow>, rows: seq<ComplexityRow>)
    requires forall k :: k in t ==> KeyOf(t[k]) == k
    ensures forall k :: k in ReplaceAll(t, rows) ==> KeyOf(ReplaceAll(t, rows)[k]) == k
    decreases |rows|
  {
    if rows != [] {
      assert ReplaceAll(t, rows) == ReplaceAll(t[KeyOf(rows[0]) := rows[0]], rows[1..]);
      ReplaceAllKeyed(t[KeyOf(rows[0]) := rows[0]], rows[1..]);
    }
  }

  /** Two batches in a row act as their concatenation: flushing a buffer in
      several pieces replaces exactly as one flush would. */
  lemma {:induction false} ReplaceAllAppend(t: map<ComplexityKey, ComplexityRow>, a: seq<ComplexityRow>, b: seq<ComplexityRow>)
    ensures ReplaceAll(t, a + b) == ReplaceAll(ReplaceAll(t, a), b)
    decreases |a|
  {
    if a != [] {
      assert (a + b)[1..] == a[1..] + b;
      ReplaceAllAppend(t[KeyOf(a[0]) := a[0]], a[1..], b);
    } else {
      assert a + b == b;
    }
  }

  /** The store after `init_db`. Each method is one accessor of `db.py`. */
  class Store {
    var meta: map<string, string>
    var commits: map<string, CommitRow>
    var files: FileTable
    var commitFiles: seq<CommitFileRow>
    var ownership: seq<OwnershipRow>
    var complexity: map<ComplexityKey, ComplexityRow>
    var features: seq<FeatureRow>

    /** The key and uniqueness constraints of the schema. */
    ghost predicate Valid()
      reads this
    {
      && files.Valid()
      && (forall k :: k in commits ==> commits[k].id == k)
      && (forall k :: k in complexity ==> KeyOf(complexity[k]) == k)
    }

    /** `init_db` on an empty database: every table exists and is empty. */
    constructor ()
      ensures Valid()
      ensures meta == map[] && commits == map[] && files == EmptyFiles
      ensures commitFiles == [] && ownership == [] && complexity == map[] && features == []
    {
      meta := map[];
      commits := map[];
      files := EmptyFiles;
      commitFiles := [];
      ownership := [];
      complexity := map[];
      features := [];
    }

    /** `upsert_file`, returning the id stored for `path` (see
        `UpsertFileAsWritten` for what the source returns). */
    method UpsertFile(path: string) returns (id: int)
      requires Valid()
      modifies this`files
      ensures Valid()
      ensures Resolve(old(files), path) == Resolved(files, id)
      ensures path in files.ids && files.ids[path] == id
    {
      var r := Resolve(files, path);
      files := r.table;
      id := r.id;
    }

    /** `set_meta`: upsert by key. */
    method SetMeta(key: string, value: string)
      requires Valid()
      modifies this`meta
      ensures Valid()
      ensures meta == old(meta)[key := value]
    {
      meta := meta[key := value];
    }

    /** `get_meta`: the value stored for `key`, or None if it was never set. */
    method GetMeta(key: string) returns (value: Option<string>)
      ensures key in meta ==> value == Some(meta[key])
      ensures key !in meta ==> value == None
    {
      value := if key in meta then Some(meta[key]) else None;
    }

    /** `bulk_insert_commits`: INSERT OR IGNORE on the primary key. */
    method BulkInsertCommits(rows: seq<CommitRow>)
      requires Valid()
      modifies this`commits
      ensures Valid()
      ensures commits == InsertOrIgnore(old(commits), rows)
    {
      var r := InsertOrIgnore(commits, rows);
      InsertOrIgnoreKeyed(commits, rows);
      assert forall k :: k in r ==> r[k].id == k;
      commits := r;
    }

    /** `bulk_insert_commit_files`: plain append, duplicates kept. */
    method BulkInsertCommitFiles(rows: seq<CommitFileRow>)
      requires Valid()
      modifies this`commitFiles
      ensures Valid()
      ensures commitFiles == old(commitFiles) + rows
    {
      commitFiles := commitFiles + rows;
    }

    /** `bulk_insert_features`: plain append, duplicates kept. */
    method BulkInsertFeatures(rows: seq<FeatureRow>)
      requires Valid()
      modifies this`features
      ensures Valid()
      ensures features == old(features) + rows
    {
      features := features + rows;
    }

    /** `bulk_insert_complexity`: INSERT OR REPLACE keyed by `(file_id, commit_id)`. */
    method BulkInsertComplexity(rows: seq<ComplexityRow>)
      requires Valid()
      modifies this`complexity
      ensures Valid()
      ensures complexity == ReplaceAll(old(complexity), rows)
    {
      ReplaceAllKeyed(complexity, rows);
      complexity := ReplaceAll(complexity, rows);
    }
  }

  /** A caller's view of the metadata accessors: what `set_meta` stores,
      `get_meta` returns, and other keys keep their values. */
  method MetaRoundTrip(store: Store, key: string, value: string, other: string) returns (got: Option<string>, kept: Option<string>)
    requires store.Valid() && other != key
    modifies store`meta
    ensures got == Some(value)
    ensures kept == (if other in old(store.meta) then Some(old(store.meta)[other]) else None)
  {
    store.SetMeta(key, value);
    got := store.GetMeta(key);
    kept := store.GetMeta(other);
  }

  /** The connection state `upsert_file` actually consults: SQLite's
      last-insert rowid, which only a successful INSERT on the same
      connection changes (0 before any). */
  datatype Connection = Connection(files: FileTable, lastInsertRowid: int)

  /** `upsert_file` as written: `cur.lastrowid` after an ignored INSERT is
      the rowid of the connection's previous successful insert, not 0, and
      the code returns it whenever it is non-zero. */
  function UpsertFileAsWritten(conn: Connection, path: string): (r: (Connection, int))
    requires conn.files.Valid()
    ensures path !in conn.files.ids ==> r.1 == Resolve(conn.files, path).id
    ensures conn.lastInsertRowid == 0 ==> r.1 == Resolve(conn.files, path).id
  {
    var conn' :=
      if path in conn.files.ids then conn
      else Connection(Resolve(conn.files, path).table, conn.files.next);
    var id := if conn'.lastInsertRowid != 0 then conn'.lastInsertRowid else conn'.files.ids[path];
    (conn', id)
  }

  /** For a path already in `files`, the id returned as written is the
      stored id only when the last inserted rowid happens to equal it. */
  lemma UpsertFileReturnsStaleRowid(conn: Connection, path: string)
    requires conn.files.Valid() && path in conn.files.ids
    requires conn.lastInsertRowid != 0 && conn.lastInsertRowid != conn.files.ids[path]
    ensures UpsertFileAsWritten(conn, path).1 != Resolve(conn.files, path).id
  {
  }

  /** Concretely: after `a.py` (id 1) and then `b.py` (id 2) are inserted,
      upserting `a.py` again returns 2. */
  lemma UpsertFileStaleExample()
    ensures var c0 := Connection(EmptyFiles, 0);
            var (c1, a) := UpsertFileAsWritten(c0, "a.py");
            var (c2, b) := UpsertFileAsWritten(c1, "b.py");
            var (c3, again) := UpsertFileAsWritten(c2, "a.py");
            a == 1 && b == 2 && again == 2 && c3.files.ids["a.py"] == 1
  {
  }
}

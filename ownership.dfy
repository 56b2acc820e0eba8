/** `compute_ownership` of analysis.py: the `ownership` table is rebuilt
    from the inner join of `commit_files` with `commits`, grouped by file
    and author e-mail. The SQL aggregate is a pure function of the two
    tables; the rebuild itself is a method on the store. */
module Ownership {
  import opened Text
  import opened Db
  import Normalize
  import Indexer

  /** One row of `commit_files cf JOIN commits c ON c.id = cf.commit_id`,
      restricted to the columns the aggregate reads. */
  datatype Joined = Joined(fileId: int, email: string, commitId: string, additions: int, deletions: int, date: int)

  type GroupKey = (int, string)

  /** Row `cf` joined with its commit. */
  function JoinOf(cf: CommitFileRow, commits: map<string, CommitRow>): Joined
    requires cf.commitId in commits
  {
    var c := commits[cf.commitId];
    Joined(cf.fileId, c.authorEmail, cf.commitId, cf.additions, cf.deletions, c.authoredDate)
  }

  function Key(j: Joined): GroupKey {
    (j.fileId, j.email)
  }

  /** `j` is some row of `cfs` joined with its commit. */
  ghost predicate JoinedFrom(j: Joined, cfs: seq<CommitFileRow>, commits: map<string, CommitRow>) {
    exists cf :: cf in cfs && cf.commitId in commits && j == JoinOf(cf, commits)
  }

  /** The inner join, in `commit_files` order. */
  function JoinRows(cfs: seq<CommitFileRow>, commits: map<string, CommitRow>): seq<Joined>
    decreases |cfs|
  {
    if cfs == [] then []
    else
      var last := cfs[|cfs| - 1];
      JoinRows(cfs[..|cfs| - 1], commits) + (if last.commitId in commits then [JoinOf(last, commits)] else [])
  }

  /** The inner join keeps, paired with its commit, every `commit_files`
      row whose commit is present, and yields nothing else; rows of unknown
      commits drop out. */
  lemma {:induction false} JoinRowsSpec(cfs: seq<CommitFileRow>, commits: map<string, CommitRow>)
    ensures |JoinRows(cfs, commits)| <= |cfs|
    ensures forall i :: 0 <= i < |JoinRows(cfs, commits)| ==> JoinedFrom(JoinRows(cfs, commits)[i], cfs, commits)
    ensures forall k :: 0 <= k < |cfs| && cfs[k].commitId in commits ==> JoinOf(cfs[k], commits) in JoinRows(cfs, commits)
    decreases |cfs|
  {
    if cfs != [] {
      var prefix := cfs[..|cfs| - 1];
      var last := cfs[|cfs| - 1];
      JoinRowsSpec(prefix, commits);
      var rest := JoinRows(prefix, commits);
      var js := JoinRows(cfs, commits);
      assert js == rest + (if last.commitId in commits then [JoinOf(last, commits)] else []);
      assert forall k :: 0 <= k < |prefix| ==> prefix[k] == cfs[k];
      forall i | 0 <= i < |js|
        ensures JoinedFrom(js[i], cfs, commits)
      {
        if i < |rest| {
          assert JoinedFrom(rest[i], prefix, commits);
          var cf :| cf in prefix && cf.commitId in commits && rest[i] == JoinOf(cf, commits);
          assert js[i] == rest[i];
          assert cf in cfs;
        } else {
          assert last in cfs;
        }
      }
      forall k | 0 <= k < |cfs| && cfs[k].commitId in commits
        ensures JoinOf(cfs[k], commits) in js
      {
        if k < |prefix| {
          assert JoinOf(prefix[k], commits) in rest;
        } else {
          assert k == |cfs| - 1;
        }
      }
    }
  }

  /** The groups of `GROUP BY cf.file_id, c.author_email`, each listed once,
      in order of first appearance. */
  function GroupKeys(js: seq<Joined>): (ks: seq<GroupKey>)
    ensures forall m, n :: 0 <= m < n < |ks| ==> ks[m] != ks[n]
    ensures forall i :: 0 <= i < |js| ==> Key(js[i]) in ks
    ensures forall m :: 0 <= m < |ks| ==> exists i :: 0 <= i < |js| && Key(js[i]) == ks[m]
    decreases |js|
  {
    if js == [] then []
    else
      var prefix := js[..|js| - 1];
      var ks := GroupKeys(prefix);
      assert forall i :: 0 <= i < |prefix| ==> prefix[i] == js[i];
      if Key(js[|js| - 1]) in ks then ks else ks + [Key(js[|js| - 1])]
  }

  /** `SUM(f)` over the members of group `g`. */
  function SumBy(js: seq<Joined>, g: GroupKey, f: Joined -> int): int
    decreases |js|
  {
    if js == [] then 0
    else SumBy(js[..|js| - 1], g, f) + (if Key(js[|js| - 1]) == g then f(js[|js| - 1]) else 0)
  }

  /** `f` summed over every joined row. */
  function TotalBy(js: seq<Joined>, f: Joined -> int): int
    decreases |js|
  {
    if js == [] then 0 else TotalBy(js[..|js| - 1], f) + f(js[|js| - 1])
  }

  function Additions(j: Joined): int { j.additions }

  function Deletions(j: Joined): int { j.deletions }

  /** `COUNT(DISTINCT cf.commit_id)` of group `g`: the set it counts. */
  function CommitsOf(js: seq<Joined>, g: GroupKey): set<string> {
    set i | 0 <= i < |js| && Key(js[i]) == g :: js[i].commitId
  }

  /** `MIN(c.authored_date)` of group `g`; None for an empty group. */
  function FirstDate(js: seq<Joined>, g: GroupKey): (r: Option<int>)
    ensures r.Some? <==> exists i :: 0 <= i < |js| && Key(js[i]) == g
    ensures r.Some? ==> forall i :: 0 <= i < |js| && Key(js[i]) == g ==> r.value <= js[i].date
    ensures r.Some? ==> exists i :: 0 <= i < |js| && Key(js[i]) == g && js[i].date == r.value
    decreases |js|
  {
    if js == [] then None
    else
      var prefix := js[..|js| - 1];
      var j := js[|js| - 1];
      var rest := FirstDate(prefix, g);
      assert forall i :: 0 <= i < |prefix| ==> prefix[i] == js[i];
      if Key(j) != g then rest
      else if rest.Some? && rest.value <= j.date then rest
      else Some(j.date)
  }

  /** `MAX(c.authored_date)` of group `g`; None for an empty group. */
  function LastDate(js: seq<Joined>, g: GroupKey): (r: Option<int>)
    ensures r.Some? <==> exists i :: 0 <= i < |js| && Key(js[i]) == g
    ensures r.Some? ==> forall i :: 0 <= i < |js| && Key(js[i]) == g ==> js[i].date <= r.value
    ensures r.Some? ==> exists i :: 0 <= i < |js| && Key(js[i]) == g && js[i].date == r.value
    decreases |js|
  {
    if js == [] then None
    else
      var prefix := js[..|js| - 1];
      var j := js[|js| - 1];
      var rest := LastDate(prefix, g);
      assert forall i :: 0 <= i < |prefix| ==> prefix[i] == js[i];
      if Key(j) != g then rest
      else if rest.Some? && j.date <= rest.value then rest
      else Some(j.date)
  }

  function DateOr0(d: Option<int>): int {
    if d.Some? then d.value else 0
  }

  /** The `ownership` row of group `g`. */
  function RowOf(js: seq<Joined>, g: GroupKey): OwnershipRow {
    OwnershipRow(g.0, g.1, |CommitsOf(js, g)|, SumBy(js, g, Additions), SumBy(js, g, Deletions),
                 DateOr0(FirstDate(js, g)), DateOr0(LastDate(js, g)))
  }

  /** The rows of the groups `ks`, in order. */
  function RowsOf(js: seq<Joined>, ks: seq<GroupKey>): (rows: seq<OwnershipRow>)
    ensures |rows| == |ks|
    ensures forall m :: 0 <= m < |ks| ==> rows[m] == RowOf(js, ks[m])
    decreases |ks|
  {
    if ks == [] then [] else RowsOf(js, ks[..|ks| - 1]) + [RowOf(js, ks[|ks| - 1])]
  }

  /** What the INSERT ... SELECT of `compute_ownership` writes. */
  function Aggregate(cfs: seq<CommitFileRow>, commits: map<string, CommitRow>): seq<OwnershipRow> {
    var js := JoinRows(cfs, commits);
    RowsOf(js, GroupKeys(js))
  }

  function OwnerKey(row: OwnershipRow): GroupKey {
    (row.fileId, row.authorEmail)
  }

  /** The primary key `(file_id, author_email)` holds: no two rows share a
      key. */
  lemma OwnershipKeysUnique(cfs: seq<CommitFileRow>, commits: map<string, CommitRow>)
    ensures var rows := Aggregate(cfs, commits);
            forall m, n :: 0 <= m < n < |rows| ==> OwnerKey(rows[m]) != OwnerKey(rows[n])
  {
    var js := JoinRows(cfs, commits);
    var ks := GroupKeys(js);
    var rows := Aggregate(cfs, commits);
    assert forall m :: 0 <= m < |rows| ==> OwnerKey(rows[m]) == ks[m];
  }

  /** Each (file, author e-mail) pair of the join has a row. */
  lemma OwnershipCovers(cfs: seq<CommitFileRow>, commits: map<string, CommitRow>, k: int)
    requires 0 <= k < |cfs| && cfs[k].commitId in commits
    ensures var rows := Aggregate(cfs, commits);
            exists m :: 0 <= m < |rows| && OwnerKey(rows[m]) == (cfs[k].fileId, commits[cfs[k].commitId].authorEmail)
  {
    JoinRowsSpec(cfs, commits);
    var js := JoinRows(cfs, commits);
    var ks := GroupKeys(js);
    var rows := Aggregate(cfs, commits);
    var j := JoinOf(cfs[k], commits);
    var i :| 0 <= i < |js| && js[i] == j;
    var m :| 0 <= m < |ks| && ks[m] == Key(js[i]);
    assert OwnerKey(rows[m]) == ks[m];
  }

  /** Each row has such a pair: its file id is that of some `commit_files`
      row whose commit has its author e-mail. */
  lemma OwnershipFromJoin(cfs: seq<CommitFileRow>, commits: map<string, CommitRow>, m: int)
    requires 0 <= m < |Aggregate(cfs, commits)|
    ensures var row := Aggregate(cfs, commits)[m];
            exists cf :: cf in cfs && cf.commitId in commits && OwnerKey(row) == Key(JoinOf(cf, commits))
  {
    JoinRowsSpec(cfs, commits);
    var js := JoinRows(cfs, commits);
    var ks := GroupKeys(js);
    var row := Aggregate(cfs, commits)[m];
    assert OwnerKey(row) == ks[m];
    var i :| 0 <= i < |js| && Key(js[i]) == ks[m];
    assert JoinedFrom(js[i], cfs, commits);
    var cf :| cf in cfs && cf.commitId in commits && js[i] == JoinOf(cf, commits);
  }

  /** Each row counts at least one commit and no more than its group has
      joined rows; its first and last dates are the earliest and latest
      authored date among the group's commits, so first <= last. */
  lemma OwnershipRowFacts(js: seq<Joined>, g: GroupKey)
    requires exists i :: 0 <= i < |js| && Key(js[i]) == g
    ensures var row := RowOf(js, g);
            && row.commits >= 1
            && row.firstCommit <= row.lastCommit
            && (forall i :: 0 <= i < |js| && Key(js[i]) == g ==> row.firstCommit <= js[i].date <= row.lastCommit)
            && (exists i :: 0 <= i < |js| && Key(js[i]) == g && js[i].date == row.firstCommit)
            && (exists i :: 0 <= i < |js| && Key(js[i]) == g && js[i].date == row.lastCommit)
  {
    var i :| 0 <= i < |js| && Key(js[i]) == g;
    assert js[i].commitId in CommitsOf(js, g);
  }

  /** `f` summed over the groups `ks`. */
  function KeysTotal(js: seq<Joined>, ks: seq<GroupKey>, f: Joined -> int): int
    decreases |ks|
  {
    if ks == [] then 0 else KeysTotal(js, ks[..|ks| - 1], f) + SumBy(js, ks[|ks| - 1], f)
  }

  lemma {:induction false} KeysTotalStep(js: seq<Joined>, j: Joined, ks: seq<GroupKey>, f: Joined -> int)
    requires forall m, n :: 0 <= m < n < |ks| ==> ks[m] != ks[n]
    ensures KeysTotal(js + [j], ks, f) == KeysTotal(js, ks, f) + (if Key(j) in ks then f(j) else 0)
    decreases |ks|
  {
    assert (js + [j])[..|js|] == js;
    if ks != [] {
      var prefix := ks[..|ks| - 1];
      KeysTotalStep(js, j, prefix, f);
      assert Key(j) in ks <==> Key(j) in prefix || Key(j) == ks[|ks| - 1];
      if Key(j) == ks[|ks| - 1] {
        assert Key(j) !in prefix;
      }
    }
  }

  lemma {:induction false} SumByAbsent(js: seq<Joined>, g: GroupKey, f: Joined -> int)
    requires forall i :: 0 <= i < |js| ==> Key(js[i]) != g
    ensures SumBy(js, g, f) == 0
    decreases |js|
  {
    if js != [] {
      SumByAbsent(js[..|js| - 1], g, f);
    }
  }

  /** Grouping loses and duplicates nothing: the group totals of `f` add up
      to the total of `f` over the join. */
  lemma {:induction false} GroupTotals(js: seq<Joined>, f: Joined -> int)
    ensures KeysTotal(js, GroupKeys(js), f) == TotalBy(js, f)
    decreases |js|
  {
    if js != [] {
      var prefix := js[..|js| - 1];
      var j := js[|js| - 1];
      var ks := GroupKeys(prefix);
      assert prefix + [j] == js;
      GroupTotals(prefix, f);
      KeysTotalStep(prefix, j, ks, f);
      if Key(j) !in ks {
        SumByAbsent(prefix, Key(j), f);
        assert (ks + [Key(j)])[..|ks|] == ks;
      }
    }
  }

  function RowsAdded(rows: seq<OwnershipRow>): int {
    if rows == [] then 0 else RowsAdded(rows[..|rows| - 1]) + rows[|rows| - 1].linesAdded
  }

  function RowsDeleted(rows: seq<OwnershipRow>): int {
    if rows == [] then 0 else RowsDeleted(rows[..|rows| - 1]) + rows[|rows| - 1].linesDeleted
  }

  lemma {:induction false} RowsTotals(js: seq<Joined>, ks: seq<GroupKey>)
    ensures RowsAdded(RowsOf(js, ks)) == KeysTotal(js, ks, Additions)
    ensures RowsDeleted(RowsOf(js, ks)) == KeysTotal(js, ks, Deletions)
    decreases |ks|
  {
    if ks != [] {
      RowsTotals(js, ks[..|ks| - 1]);
      var rows := RowsOf(js, ks);
      assert rows[..|rows| - 1] == RowsOf(js, ks[..|ks| - 1]);
    }
  }

  function CommitFilesAdded(cfs: seq<CommitFileRow>): int {
    if cfs == [] then 0 else CommitFilesAdded(cfs[..|cfs| - 1]) + cfs[|cfs| - 1].additions
  }

  function CommitFilesDeleted(cfs: seq<CommitFileRow>): int {
    if cfs == [] then 0 else CommitFilesDeleted(cfs[..|cfs| - 1]) + cfs[|cfs| - 1].deletions
  }

  /** A last row whose commit is stored joins at the end. */
  lemma JoinRowsLast(cfs: seq<CommitFileRow>, commits: map<string, CommitRow>)
    requires cfs != [] && cfs[|cfs| - 1].commitId in commits
    ensures JoinRows(cfs, commits) == JoinRows(cfs[..|cfs| - 1], commits) + [JoinOf(cfs[|cfs| - 1], commits)]
  {
  }

  /** When every change's commit is stored, the join keeps every added
      line, and every deleted line. */
  lemma {:induction false} TotalByAppend(js: seq<Joined>, j: Joined, f: Joined -> int)
    ensures TotalBy(js + [j], f) == TotalBy(js, f) + f(j)
  {
    assert (js + [j])[..|js|] == js;
  }

  lemma {:induction false} JoinAdded(cfs: seq<CommitFileRow>, commits: map<string, CommitRow>)
    requires forall k :: 0 <= k < |cfs| ==> cfs[k].commitId in commits
    ensures TotalBy(JoinRows(cfs, commits), Additions) == CommitFilesAdded(cfs)
    decreases |cfs|
  {
    if cfs != [] {
      var prefix := cfs[..|cfs| - 1];
      var last := cfs[|cfs| - 1];
      assert forall k :: 0 <= k < |prefix| ==> prefix[k] == cfs[k];
      JoinAdded(prefix, commits);
      JoinRowsLast(cfs, commits);
      TotalByAppend(JoinRows(prefix, commits), JoinOf(last, commits), Additions);
    }
  }

  lemma {:induction false} JoinDeleted(cfs: seq<CommitFileRow>, commits: map<string, CommitRow>)
    requires forall k :: 0 <= k < |cfs| ==> cfs[k].commitId in commits
    ensures TotalBy(JoinRows(cfs, commits), Deletions) == CommitFilesDeleted(cfs)
    decreases |cfs|
  {
    if cfs != [] {
      var prefix := cfs[..|cfs| - 1];
      var last := cfs[|cfs| - 1];
      assert forall k :: 0 <= k < |prefix| ==> prefix[k] == cfs[k];
      JoinDeleted(prefix, commits);
      JoinRowsLast(cfs, commits);
      TotalByAppend(JoinRows(prefix, commits), JoinOf(last, commits), Deletions);
    }
  }

  /** When every `commit_files` row names a stored commit (the foreign key
      of the schema), the ownership rows together account for every added
      and every deleted line of `commit_files`, each exactly once. */
  lemma OwnershipTotals(cfs: seq<CommitFileRow>, commits: map<string, CommitRow>)
    requires forall k :: 0 <= k < |cfs| ==> cfs[k].commitId in commits
    ensures RowsAdded(Aggregate(cfs, commits)) == CommitFilesAdded(cfs)
    ensures RowsDeleted(Aggregate(cfs, commits)) == CommitFilesDeleted(cfs)
  {
    var js := JoinRows(cfs, commits);
    RowsTotals(js, GroupKeys(js));
    GroupTotals(js, Additions);
    GroupTotals(js, Deletions);
    JoinAdded(cfs, commits);
    JoinDeleted(cfs, commits);
  }

  /** After `GitIndexer.index` on a store whose `commit_files` rows all
      named stored commits, `compute_ownership` over the indexed tables
      accounts for every added and every deleted line of `commit_files`. */
  lemma OwnershipAfterIndex(
    cfs: seq<CommitFileRow>, t: map<string, CommitRow>, ft: FileTable,
    cs: seq<Indexer.CommitInfo>, a: Normalize.Analyzer)
    requires ft.Valid()
    requires CommitsStored(cfs, t)
    ensures var all := cfs + Indexer.DiffPass(ft, cs, a).commitFiles;
            var stored := InsertOrIgnore(t, Indexer.MetadataRows(cs));
            && RowsAdded(Aggregate(all, stored)) == CommitFilesAdded(all)
            && RowsDeleted(Aggregate(all, stored)) == CommitFilesDeleted(all)
  {
    var all := cfs + Indexer.DiffPass(ft, cs, a).commitFiles;
    var stored := InsertOrIgnore(t, Indexer.MetadataRows(cs));
    Indexer.IndexRowsNameStoredCommits(cfs, t, ft, cs, a);
    assert CommitsStored(all, stored);
    OwnershipTotals(all, stored);
  }

  /** The distinct commits of the groups of file `f` among `ks`. */
  function UnionOf(js: seq<Joined>, ks: seq<GroupKey>, f: int): (u: set<string>)
    ensures forall id :: id in u <==> exists m :: 0 <= m < |ks| && ks[m].0 == f && id in CommitsOf(js, ks[m])
    decreases |ks|
  {
    if ks == [] then {}
    else
      var prefix := ks[..|ks| - 1];
      var rest := UnionOf(js, prefix, f);
      assert forall m :: 0 <= m < |prefix| ==> prefix[m] == ks[m];
      if ks[|ks| - 1].0 == f then rest + CommitsOf(js, ks[|ks| - 1]) else rest
  }

  /** The `commits` counts of the groups of file `f` among `ks`, summed. */
  function CountOf(js: seq<Joined>, ks: seq<GroupKey>, f: int): int
    decreases |ks|
  {
    if ks == [] then 0
    else CountOf(js, ks[..|ks| - 1], f) + (if ks[|ks| - 1].0 == f then |CommitsOf(js, ks[|ks| - 1])| else 0)
  }

  /** Every commit id of the join comes with a single author e-mail. */
  ghost predicate OneAuthorPerCommit(js: seq<Joined>) {
    forall i, k :: 0 <= i < |js| && 0 <= k < |js| && js[i].commitId == js[k].commitId ==> js[i].email == js[k].email
  }

  /** The groups of one file are disjoint in their commits, so their counts
      add up to the size of their union. */
  lemma {:induction false} CountOfUnion(js: seq<Joined>, ks: seq<GroupKey>, f: int)
    requires OneAuthorPerCommit(js)
    requires forall m, n :: 0 <= m < n < |ks| ==> ks[m] != ks[n]
    ensures CountOf(js, ks, f) == |UnionOf(js, ks, f)|
    decreases |ks|
  {
    if ks != [] {
      var prefix := ks[..|ks| - 1];
      var g := ks[|ks| - 1];
      CountOfUnion(js, prefix, f);
      if g.0 == f {
        var rest := UnionOf(js, prefix, f);
        forall id | id in CommitsOf(js, g) ensures id !in rest {
          var i :| 0 <= i < |js| && Key(js[i]) == g && js[i].commitId == id;
          forall m | 0 <= m < |prefix| && prefix[m].0 == f ensures id !in CommitsOf(js, prefix[m]) {
            assert prefix[m] == ks[m];
            forall k | 0 <= k < |js| && Key(js[k]) == prefix[m] ensures js[k].commitId != id {
              assert js[k].email != js[i].email;
            }
          }
        }
        assert rest * CommitsOf(js, g) == {};
      }
    }
  }

  /** The distinct commits with a joined row for file `f`. */
  function FileCommits(js: seq<Joined>, f: int): set<string> {
    set i | 0 <= i < |js| && js[i].fileId == f :: js[i].commitId
  }

  lemma UnionIsFileCommits(js: seq<Joined>, f: int)
    ensures UnionOf(js, GroupKeys(js), f) == FileCommits(js, f)
  {
    var ks := GroupKeys(js);
    forall id | id in FileCommits(js, f) ensures id in UnionOf(js, ks, f) {
      var i :| 0 <= i < |js| && js[i].fileId == f && js[i].commitId == id;
      var m :| 0 <= m < |ks| && ks[m] == Key(js[i]);
      assert id in CommitsOf(js, ks[m]);
    }
    forall id | id in UnionOf(js, ks, f) ensures id in FileCommits(js, f) {
      var m :| 0 <= m < |ks| && ks[m].0 == f && id in CommitsOf(js, ks[m]);
      GroupCommitOfFile(js, ks[m], id);
    }
  }

  lemma GroupCommitOfFile(js: seq<Joined>, g: GroupKey, id: string)
    requires id in CommitsOf(js, g)
    ensures id in FileCommits(js, g.0)
  {
    var i :| 0 <= i < |js| && Key(js[i]) == g && js[i].commitId == id;
    assert js[i].fileId == g.0;
  }

  lemma JoinOneAuthorPerCommit(cfs: seq<CommitFileRow>, commits: map<string, CommitRow>)
    ensures OneAuthorPerCommit(JoinRows(cfs, commits))
  {
    JoinRowsSpec(cfs, commits);
    var js := JoinRows(cfs, commits);
    forall i, k | 0 <= i < |js| && 0 <= k < |js| && js[i].commitId == js[k].commitId
      ensures js[i].email == js[k].email
    {
      assert JoinedFrom(js[i], cfs, commits) && JoinedFrom(js[k], cfs, commits);
    }
  }

  /** The commit ids with a `commit_files` row for file `f` whose commit is
      stored. */
  function TouchingCommits(cfs: seq<CommitFileRow>, commits: map<string, CommitRow>, f: int): set<string> {
    set cf | cf in cfs && cf.commitId in commits && cf.fileId == f :: cf.commitId
  }

  lemma JoinFileCommits(cfs: seq<CommitFileRow>, commits: map<string, CommitRow>, f: int)
    ensures FileCommits(JoinRows(cfs, commits), f) == TouchingCommits(cfs, commits, f)
  {
    JoinRowsSpec(cfs, commits);
    var js := JoinRows(cfs, commits);
    forall id | id in FileCommits(js, f) ensures id in TouchingCommits(cfs, commits, f) {
      var i :| 0 <= i < |js| && js[i].fileId == f && js[i].commitId == id;
      assert JoinedFrom(js[i], cfs, commits);
    }
    forall id | id in TouchingCommits(cfs, commits, f) ensures id in FileCommits(js, f) {
      var cf :| cf in cfs && cf.commitId in commits && cf.fileId == f && cf.commitId == id;
      var k :| 0 <= k < |cfs| && cfs[k] == cf;
      var i :| 0 <= i < |js| && js[i] == JoinOf(cfs[k], commits);
    }
  }

  /** The `commits` counts of the rows of file `f`, summed. */
  function RowsCommitsOf(rows: seq<OwnershipRow>, f: int): int {
    if rows == [] then 0
    else RowsCommitsOf(rows[..|rows| - 1], f) + (if rows[|rows| - 1].fileId == f then rows[|rows| - 1].commits else 0)
  }

  lemma {:induction false} RowsCommitsCount(js: seq<Joined>, ks: seq<GroupKey>, f: int)
    ensures RowsCommitsOf(RowsOf(js, ks), f) == CountOf(js, ks, f)
    decreases |ks|
  {
    if ks != [] {
      RowsCommitsCount(js, ks[..|ks| - 1], f);
      var rows := RowsOf(js, ks);
      assert rows[..|rows| - 1] == RowsOf(js, ks[..|ks| - 1]);
    }
  }

  /** For each file, the per-author commit counts add up to the number of
      distinct stored commits that touched the file: a commit has a single
      author e-mail, so it is counted in exactly one of the file's rows. */
  lemma OwnershipCommitCounts(cfs: seq<CommitFileRow>, commits: map<string, CommitRow>, f: int)
    ensures RowsCommitsOf(Aggregate(cfs, commits), f) == |TouchingCommits(cfs, commits, f)|
  {
    var js := JoinRows(cfs, commits);
    var ks := GroupKeys(js);
    RowsCommitsCount(js, ks, f);
    JoinOneAuthorPerCommit(cfs, commits);
    CountOfUnion(js, ks, f);
    UnionIsFileCommits(js, f);
    JoinFileCommits(cfs, commits, f);
  }

  /** `compute_ownership`: the table is emptied and committed, then filled
      with the aggregate of the current `commit_files` and `commits`. */
  method ComputeOwnership(store: Store)
    requires store.Valid()
    modifies store`ownership
    ensures store.Valid()
    ensures store.ownership == Aggregate(store.commitFiles, store.commits)
  {
    store.ownership := [];
    store.ownership := Aggregate(store.commitFiles, store.commits);
  }
}

/** `GitIndexer.index` of git_indexer.py. It runs two passes over the
    commit list: the metadata pass, then the diff pass. The diff pass fills
    the `commit_files`, `complexity` and `features` buffers and flushes
    each one into the store when it reaches its threshold. The commit list
    (`iter_commits("--all")` with each commit's diff against its first
    parent and its stats) is an input. What the pass must produce is given
    by pure functions, and the method is proved against them. */
module Indexer {
  import opened Text
  import opened Db
  import opened Features
  import opened Normalize

  /** One commit as the indexer reads it. */
  datatype CommitInfo = CommitInfo(
    hexsha: string, authorName: string, authorEmail: string, authoredDate: int, message: string,
    changes: seq<DiffEntry>, stats: map<string, LineStat>)

  function MetadataRow(c: CommitInfo): CommitRow {
    CommitRow(c.hexsha, c.authorName, c.authorEmail, c.authoredDate, c.message)
  }

  /** `rows_commits`: one row per commit, in commit order. */
  function MetadataRows(cs: seq<CommitInfo>): (rows: seq<CommitRow>)
    ensures |rows| == |cs|
    ensures forall i :: 0 <= i < |cs| ==> rows[i].id == cs[i].hexsha && rows[i] == MetadataRow(cs[i])
  {
    seq(|cs|, i requires 0 <= i < |cs| => MetadataRow(cs[i]))
  }

  /** What a stretch of the diff pass produces: the file table it leaves
      behind and the rows it appends to the three buffers. */
  datatype Produced = Produced(
    files: FileTable, commitFiles: seq<CommitFileRow>, complexity: seq<ComplexityRow>, features: seq<FeatureRow>)

  function SampleRows(r: Option<ComplexityRow>): seq<ComplexityRow> {
    if r.Some? then [r.value] else []
  }

  /** The inner loop over the change entries `es` of commit `c`, starting
      from file table `ft`. Each entry resolves its effective path to a
      file id, then contributes one `commit_files` row and at most one
      complexity row. */
  function EntriesPass(ft: FileTable, c: CommitInfo, a: Analyzer, es: seq<DiffEntry>): (out: Produced)
    requires ft.Valid()
    ensures out.files.Valid()
    ensures |out.commitFiles| == |es|
    ensures |out.complexity| <= |es|
    ensures out.features == []
    ensures forall p :: p in ft.ids ==> p in out.files.ids && out.files.ids[p] == ft.ids[p]
    ensures forall k :: 0 <= k < |es| ==> EffectivePath(es[k]) in out.files.ids
    decreases |es|
  {
    if es == [] then Produced(ft, [], [], [])
    else
      var prev := EntriesPass(ft, c, a, es[..|es| - 1]);
      var e := es[|es| - 1];
      var path := EffectivePath(e);
      var res := Resolve(prev.files, path);
      assert forall k :: 0 <= k < |es| - 1 ==> es[..|es| - 1][k] == es[k];
      Produced(res.table,
               prev.commitFiles + [ChangeRow(c.hexsha, res.id, e, c.stats)],
               prev.complexity + SampleRows(ComplexitySample(res.id, c.hexsha, path, e, a)),
               [])
  }

  /** The diff pass's work on one commit: its entries, then its feature rows. */
  function CommitPass(ft: FileTable, c: CommitInfo, a: Analyzer): (out: Produced)
    requires ft.Valid()
  {
    EntriesPass(ft, c, a, c.changes).(features := FeatureRows(c.hexsha, c.message))
  }

  /** The pass state after one more commit. */
  function Then(prev: Produced, c: CommitInfo, a: Analyzer): (out: Produced)
    requires prev.files.Valid()
    ensures out.files.Valid()
  {
    var cur := CommitPass(prev.files, c, a);
    Produced(cur.files, prev.commitFiles + cur.commitFiles,
             prev.complexity + cur.complexity, prev.features + cur.features)
  }

  /** The diff pass over the commits `cs`, in order. */
  function DiffPass(ft: FileTable, cs: seq<CommitInfo>, a: Analyzer): (out: Produced)
    requires ft.Valid()
    ensures out.files.Valid()
    ensures forall p :: p in ft.ids ==> p in out.files.ids && out.files.ids[p] == ft.ids[p]
    decreases |cs|
  {
    if cs == [] then Produced(ft, [], [], [])
    else Then(DiffPass(ft, cs[..|cs| - 1], a), cs[|cs| - 1], a)
  }

  /** The total number of change entries of `cs`. */
  function EntryCount(cs: seq<CommitInfo>): nat {
    if cs == [] then 0 else EntryCount(cs[..|cs| - 1]) + |cs[|cs| - 1].changes|
  }

  /** The diff pass writes exactly one `commit_files` row per change entry,
      and at most one complexity row per entry. */
  lemma {:induction false} DiffPassRowCounts(ft: FileTable, cs: seq<CommitInfo>, a: Analyzer)
    requires ft.Valid()
    ensures |DiffPass(ft, cs, a).commitFiles| == EntryCount(cs)
    ensures |DiffPass(ft, cs, a).complexity| <= EntryCount(cs)
    decreases |cs|
  {
    if cs != [] {
      DiffPassRowCounts(ft, cs[..|cs| - 1], a);
    }
  }

  /** The file id in every `commit_files` row is the id that the final
      `files` table gives to the row's effective path, as read back from the
      row (the old path of a deletion, otherwise the new path). */
  ghost predicate RowsResolved(ft: FileTable, rows: seq<CommitFileRow>) {
    forall k :: 0 <= k < |rows| ==> RowPath(rows[k]) in ft.ids && ft.ids[RowPath(rows[k])] == rows[k].fileId
  }

  lemma {:induction false} EntriesPassResolved(ft: FileTable, c: CommitInfo, a: Analyzer, es: seq<DiffEntry>)
    requires ft.Valid()
    ensures var out := EntriesPass(ft, c, a, es); RowsResolved(out.files, out.commitFiles)
    decreases |es|
  {
    if es != [] {
      var prev := EntriesPass(ft, c, a, es[..|es| - 1]);
      var e := es[|es| - 1];
      var res := Resolve(prev.files, EffectivePath(e));
      EntriesPassResolved(ft, c, a, es[..|es| - 1]);
      var row := ChangeRow(c.hexsha, res.id, e, c.stats);
      assert RowPath(row) == EffectivePath(e) && row.fileId == res.id;
      var out := EntriesPass(ft, c, a, es);
      assert out.files == res.table;
      assert out.commitFiles == prev.commitFiles + [row];
      forall k | 0 <= k < |out.commitFiles|
        ensures RowPath(out.commitFiles[k]) in out.files.ids && out.files.ids[RowPath(out.commitFiles[k])] == out.commitFiles[k].fileId
      {
        if k < |prev.commitFiles| {
          var r := prev.commitFiles[k];
          assert out.commitFiles[k] == r;
          assert RowPath(r) in prev.files.ids;
        } else {
          assert k == |prev.commitFiles|;
        }
      }
    }
  }

  lemma {:induction false} DiffPassResolved(ft: FileTable, cs: seq<CommitInfo>, a: Analyzer)
    requires ft.Valid()
    ensures var out := DiffPass(ft, cs, a); RowsResolved(out.files, out.commitFiles)
    decreases |cs|
  {
    if cs != [] {
      var prev := DiffPass(ft, cs[..|cs| - 1], a);
      var cur := CommitPass(prev.files, cs[|cs| - 1], a);
      DiffPassResolved(ft, cs[..|cs| - 1], a);
      EntriesPassResolved(prev.files, cs[|cs| - 1], a, cs[|cs| - 1].changes);
      var out := DiffPass(ft, cs, a);
      forall k | 0 <= k < |out.commitFiles|
        ensures RowPath(out.commitFiles[k]) in out.files.ids && out.files.ids[RowPath(out.commitFiles[k])] == out.commitFiles[k].fileId
      {
        if k < |prev.commitFiles| {
          assert out.commitFiles[k] == prev.commitFiles[k];
        } else {
          assert out.commitFiles[k] == cur.commitFiles[k - |prev.commitFiles|];
        }
      }
    }
  }

  /** The analyzer only decides the complexity rows: the file table, the
      `commit_files` rows and the feature rows are the same under any
      analyzer, and without lizard there are no complexity rows at all. */
  lemma {:induction false} EntriesPassAnalyzerIndependent(ft: FileTable, c: CommitInfo, a: Analyzer, es: seq<DiffEntry>)
    requires ft.Valid()
    ensures var x := EntriesPass(ft, c, a, es);
            var y := EntriesPass(ft, c, Fallback, es);
            x.files == y.files && x.commitFiles == y.commitFiles && y.complexity == []
    decreases |es|
  {
    if es != [] {
      EntriesPassAnalyzerIndependent(ft, c, a, es[..|es| - 1]);
    }
  }

  lemma {:induction false} DiffPassAnalyzerIndependent(ft: FileTable, cs: seq<CommitInfo>, a: Analyzer)
    requires ft.Valid()
    ensures var x := DiffPass(ft, cs, a);
            var y := DiffPass(ft, cs, Fallback);
            x.files == y.files && x.commitFiles == y.commitFiles && x.features == y.features && y.complexity == []
    decreases |cs|
  {
    if cs != [] {
      DiffPassAnalyzerIndependent(ft, cs[..|cs| - 1], a);
      var prev := DiffPass(ft, cs[..|cs| - 1], a);
      EntriesPassAnalyzerIndependent(prev.files, cs[|cs| - 1], a, cs[|cs| - 1].changes);
    }
  }

  /** The file table after one more commit is the one its entries leave. */
  lemma ThenFiles(prev: Produced, c: CommitInfo, a: Analyzer)
    requires prev.files.Valid()
    ensures Then(prev, c, a).files == EntriesPass(prev.files, c, a, c.changes).files
  {
  }

  /** The effective path of entry `k` of commit `i` has an id once the
      pass is done. */
  lemma {:induction false} DiffPassPath(ft: FileTable, cs: seq<CommitInfo>, a: Analyzer, i: nat, k: nat)
    requires ft.Valid() && i < |cs| && k < |cs[i].changes|
    ensures EffectivePath(cs[i].changes[k]) in DiffPass(ft, cs, a).files.ids
    decreases |cs|
  {
    var pre := cs[..|cs| - 1];
    var c := cs[|cs| - 1];
    var xp := DiffPass(ft, pre, a);
    ThenFiles(xp, c, a);
    var cur := EntriesPass(xp.files, c, a, c.changes);
    assert DiffPass(ft, cs, a).files == cur.files;
    if i < |pre| {
      assert cs[i] == pre[i];
      DiffPassPath(ft, pre, a, i, k);
      assert EffectivePath(pre[i].changes[k]) in xp.files.ids;
    } else {
      assert i == |cs| - 1;
    }
  }

  /** Every effective path of every commit has an id once the pass is done. */
  lemma DiffPassPaths(ft: FileTable, cs: seq<CommitInfo>, a: Analyzer)
    requires ft.Valid()
    ensures forall i, k :: 0 <= i < |cs| && 0 <= k < |cs[i].changes| ==>
              EffectivePath(cs[i].changes[k]) in DiffPass(ft, cs, a).files.ids
  {
    forall i, k | 0 <= i < |cs| && 0 <= k < |cs[i].changes|
      ensures EffectivePath(cs[i].changes[k]) in DiffPass(ft, cs, a).files.ids
    {
      DiffPassPath(ft, cs, a, i, k);
    }
  }

  /** Every row of `rows` names commit `id`. */
  ghost predicate AllName(rows: seq<CommitFileRow>, id: string) {
    forall k :: 0 <= k < |rows| ==> rows[k].commitId == id
  }

  /** Every `commit_files` row of one commit's entries names that commit. */
  lemma {:induction false} EntriesPassCommitIds(ft: FileTable, c: CommitInfo, a: Analyzer, es: seq<DiffEntry>)
    requires ft.Valid()
    ensures AllName(EntriesPass(ft, c, a, es).commitFiles, c.hexsha)
    decreases |es|
  {
    if es != [] {
      var prev := EntriesPass(ft, c, a, es[..|es| - 1]);
      var e := es[|es| - 1];
      var res := Resolve(prev.files, EffectivePath(e));
      EntriesPassCommitIds(ft, c, a, es[..|es| - 1]);
      var row := ChangeRow(c.hexsha, res.id, e, c.stats);
      assert row.commitId == c.hexsha;
      var out := EntriesPass(ft, c, a, es);
      assert out.commitFiles == prev.commitFiles + [row];
      forall k | 0 <= k < |out.commitFiles| ensures out.commitFiles[k].commitId == c.hexsha {
        if k < |prev.commitFiles| {
          assert out.commitFiles[k] == prev.commitFiles[k];
        } else {
          assert out.commitFiles[k] == row;
        }
      }
    }
  }

  /** Every row of `rows` names one of the commits `cs`. */
  ghost predicate NameCommitsOf(rows: seq<CommitFileRow>, cs: seq<CommitInfo>) {
    forall k :: 0 <= k < |rows| ==> exists i :: 0 <= i < |cs| && rows[k].commitId == cs[i].hexsha
  }

  /** Every `commit_files` row of the pass names one of the commits passed
      over. */
  lemma {:induction false} DiffPassCommitIds(ft: FileTable, cs: seq<CommitInfo>, a: Analyzer)
    requires ft.Valid()
    ensures NameCommitsOf(DiffPass(ft, cs, a).commitFiles, cs)
    decreases |cs|
  {
    if cs != [] {
      var init := cs[..|cs| - 1];
      var c := cs[|cs| - 1];
      var prev := DiffPass(ft, init, a);
      DiffPassCommitIds(ft, init, a);
      EntriesPassCommitIds(prev.files, c, a, c.changes);
      var cur := CommitPass(prev.files, c, a);
      assert AllName(cur.commitFiles, c.hexsha);
      var rows := DiffPass(ft, cs, a).commitFiles;
      assert rows == prev.commitFiles + cur.commitFiles;
      forall k | 0 <= k < |rows|
        ensures exists i :: 0 <= i < |cs| && rows[k].commitId == cs[i].hexsha
      {
        if k < |prev.commitFiles| {
          assert rows[k] == prev.commitFiles[k];
          var i :| 0 <= i < |init| && prev.commitFiles[k].commitId == init[i].hexsha;
          assert init[i] == cs[i];
        } else {
          assert rows[k] == cur.commitFiles[k - |prev.commitFiles|];
          assert rows[k].commitId == cs[|cs| - 1].hexsha;
        }
      }
    }
  }

  /** After `Index`, the `commit_files` rows (those stored before, then
      the pass's) all name a row of the `commits` table the metadata pass
      left, provided the rows stored before did: the foreign key of the
      schema holds, and with it the condition of the ownership totals. */
  lemma IndexRowsNameStoredCommits(
    cfs: seq<CommitFileRow>, t: map<string, CommitRow>, ft: FileTable, cs: seq<CommitInfo>, a: Analyzer)
    requires ft.Valid()
    requires CommitsStored(cfs, t)
    ensures CommitsStored(cfs + DiffPass(ft, cs, a).commitFiles, InsertOrIgnore(t, MetadataRows(cs)))
  {
    var rows := DiffPass(ft, cs, a).commitFiles;
    var meta := MetadataRows(cs);
    DiffPassCommitIds(ft, cs, a);
    assert NameCommitsOf(rows, cs);
    forall k | 0 <= k < |rows| ensures rows[k].commitId in CommitIds(meta) {
      var i :| 0 <= i < |cs| && rows[k].commitId == cs[i].hexsha;
      assert meta[i] in meta && meta[i].id == cs[i].hexsha;
    }
  }

  /** `ft2` knows every effective path of `es`, with the id `ref` gives it. */
  ghost predicate Agrees(ft2: FileTable, ref: FileTable, es: seq<DiffEntry>) {
    forall k :: 0 <= k < |es| ==>
      && EffectivePath(es[k]) in ft2.ids && EffectivePath(es[k]) in ref.ids
      && ft2.ids[EffectivePath(es[k])] == ref.ids[EffectivePath(es[k])]
  }

  /** Entries whose paths a table already knows, with the ids an earlier
      pass gave them, add no file and reproduce that pass's rows. */
  lemma {:induction false} EntriesPassRerun(ft: FileTable, ft2: FileTable, c: CommitInfo, a: Analyzer, es: seq<DiffEntry>)
    requires ft.Valid() && ft2.Valid()
    requires Agrees(ft2, EntriesPass(ft, c, a, es).files, es)
    ensures var x := EntriesPass(ft, c, a, es);
            var y := EntriesPass(ft2, c, a, es);
            y.files == ft2 && y.commitFiles == x.commitFiles && y.complexity == x.complexity
    decreases |es|
  {
    if es != [] {
      var pre := es[..|es| - 1];
      var xp := EntriesPass(ft, c, a, pre);
      var x := EntriesPass(ft, c, a, es);
      assert forall k :: 0 <= k < |pre| ==> pre[k] == es[k];
      assert Agrees(ft2, xp.files, pre);
      EntriesPassRerun(ft, ft2, c, a, pre);
      var p := EffectivePath(es[|es| - 1]);
      var res := Resolve(xp.files, p);
      assert x.files == res.table;
      ResolveAgrees(xp.files, ft2, p);
    }
  }

  ghost predicate AgreesOn(ft2: FileTable, ref: FileTable, cs: seq<CommitInfo>) {
    forall i :: 0 <= i < |cs| ==> Agrees(ft2, ref, cs[i].changes)
  }

  /** Agreement with the table after all of `cs` carries over to the table
      after all but the last commit, on those commits. */
  lemma AgreesOnPrefix(ft: FileTable, ft2: FileTable, cs: seq<CommitInfo>, a: Analyzer)
    requires ft.Valid() && cs != []
    requires AgreesOn(ft2, DiffPass(ft, cs, a).files, cs)
    ensures AgreesOn(ft2, DiffPass(ft, cs[..|cs| - 1], a).files, cs[..|cs| - 1])
  {
    var pre := cs[..|cs| - 1];
    var xp := DiffPass(ft, pre, a);
    var x := DiffPass(ft, cs, a);
    DiffPassPaths(ft, pre, a);
    forall i, k | 0 <= i < |pre| && 0 <= k < |pre[i].changes|
      ensures var q := EffectivePath(pre[i].changes[k]);
              q in ft2.ids && q in xp.files.ids && ft2.ids[q] == xp.files.ids[q]
    {
      var q := EffectivePath(pre[i].changes[k]);
      assert pre[i] == cs[i];
      assert Agrees(ft2, x.files, cs[i].changes);
      assert q in xp.files.ids;
      assert x.files.ids[q] == xp.files.ids[q];
    }
  }

  lemma {:induction false} DiffPassRerunFrom(ft: FileTable, ft2: FileTable, cs: seq<CommitInfo>, a: Analyzer)
    requires ft.Valid() && ft2.Valid()
    requires AgreesOn(ft2, DiffPass(ft, cs, a).files, cs)
    ensures var x := DiffPass(ft, cs, a);
            var y := DiffPass(ft2, cs, a);
            && y.files == ft2 && y.commitFiles == x.commitFiles
            && y.complexity == x.complexity && y.features == x.features
    decreases |cs|
  {
    if cs != [] {
      var pre := cs[..|cs| - 1];
      var c := cs[|cs| - 1];
      var xp := DiffPass(ft, pre, a);
      var x := DiffPass(ft, cs, a);
      AgreesOnPrefix(ft, ft2, cs, a);
      DiffPassRerunFrom(ft, ft2, pre, a);
      ThenFiles(xp, c, a);
      assert Agrees(ft2, x.files, cs[|cs| - 1].changes);
      EntriesPassRerun(xp.files, ft2, c, a, c.changes);
    }
  }

  /** Indexing the same history again, from the file table the first run
      left behind, resolves every path to the id it already has, creates no
      file and derives exactly the same `commit_files`, complexity and
      feature rows. Since `commit_files` and `features` are plain appends,
      a second run stores each of their rows twice. */
  lemma DiffPassRerun(ft: FileTable, cs: seq<CommitInfo>, a: Analyzer)
    requires ft.Valid()
    ensures var out := DiffPass(ft, cs, a);
            DiffPass(out.files, cs, a) == out
  {
    var out := DiffPass(ft, cs, a);
    DiffPassPaths(ft, cs, a);
    DiffPassRerunFrom(ft, out.files, cs, a);
  }

  /** The buffer thresholds of the periodic flush. */
  datatype FlushLimits = FlushLimits(commitFiles: nat, complexity: nat, features: nat)

  /** The thresholds in the source: 1000, 500 and 1000 rows. */
  const SourceLimits: FlushLimits := FlushLimits(1000, 500, 1000)

  /** The concatenation of the flushed batches, in flush order. */
  function Flatten<T>(bs: seq<seq<T>>): seq<T> {
    if bs == [] then [] else Flatten(bs[..|bs| - 1]) + bs[|bs| - 1]
  }

  /** Every flush writes at least one row, and each one except possibly the
      final flush writes at least `limit` rows. */
  ghost predicate Batched<T>(bs: seq<seq<T>>, limit: nat) {
    && (forall k :: 0 <= k < |bs| ==> bs[k] != [])
    && (forall k :: 0 <= k < |bs| - 1 ==> |bs[k]| >= limit)
  }

  lemma FlattenPush<T>(bs: seq<seq<T>>, b: seq<T>)
    ensures Flatten(bs + [b]) == Flatten(bs) + b
  {
    assert (bs + [b])[..|bs|] == bs;
  }

  /** The state of one buffer during the diff pass: the batches flushed so
      far followed by the pending buffer are what the pass has produced,
      and every flush so far was triggered by the threshold. */
  ghost predicate Buffered<T>(batches: seq<seq<T>>, buf: seq<T>, produced: seq<T>, limit: nat) {
    && Flatten(batches) + buf == produced
    && forall k :: 0 <= k < |batches| ==> |batches[k]| >= limit
  }

  lemma BufferedAppend<T>(batches: seq<seq<T>>, buf: seq<T>, produced: seq<T>, more: seq<T>, limit: nat)
    requires Buffered(batches, buf, produced, limit)
    ensures Buffered(batches, buf + more, produced + more, limit)
  {
    AppendAssoc(Flatten(batches), buf, more);
  }

  lemma BufferedFlush<T>(batches: seq<seq<T>>, buf: seq<T>, produced: seq<T>, limit: nat)
    requires Buffered(batches, buf, produced, limit) && |buf| >= limit
    ensures Buffered(batches + [buf], [], produced, limit)
  {
    FlattenPush(batches, buf);
    assert Flatten(batches + [buf]) + [] == Flatten(batches + [buf]);
  }

  /** The final flush writes what is left, if anything, and leaves batches
      that together are everything produced. */
  lemma BufferedFinal<T>(batches: seq<seq<T>>, buf: seq<T>, produced: seq<T>, limit: nat)
    requires Buffered(batches, buf, produced, limit) && limit >= 1
    ensures buf != [] ==> Flatten(batches + [buf]) == produced && Batched(batches + [buf], limit)
    ensures buf == [] ==> Flatten(batches) == produced && Batched(batches, limit)
  {
    FlattenPush(batches, buf);
    assert Flatten(batches) + [] == Flatten(batches);
  }

  /** One more entry of the inner loop. */
  lemma EntriesPassStep(ft: FileTable, c: CommitInfo, a: Analyzer, es: seq<DiffEntry>, j: nat)
    requires ft.Valid() && j < |es|
    ensures var prev := EntriesPass(ft, c, a, es[..j]);
            var res := Resolve(prev.files, EffectivePath(es[j]));
            EntriesPass(ft, c, a, es[..j + 1])
              == Produced(res.table,
                          prev.commitFiles + [ChangeRow(c.hexsha, res.id, es[j], c.stats)],
                          prev.complexity + SampleRows(ComplexitySample(res.id, c.hexsha, EffectivePath(es[j]), es[j], a)),
                          [])
  {
    assert es[..j + 1][..j] == es[..j];
  }

  /** One more commit of the diff pass. */
  lemma DiffPassStep(ft: FileTable, cs: seq<CommitInfo>, a: Analyzer, i: nat)
    requires ft.Valid() && i < |cs|
    ensures DiffPass(ft, cs[..i + 1], a) == Then(DiffPass(ft, cs[..i], a), cs[i], a)
  {
    assert cs[..i + 1][..i] == cs[..i];
  }

  /** One more pattern of the feature extraction. */
  lemma ReferenceRowsStep(hexsha: string, s: string, ps: seq<Pattern>, k: nat)
    requires k < |ps|
    ensures ReferenceRows(hexsha, s, ps[..k + 1]) == ReferenceRows(hexsha, s, ps[..k]) + PatternRows(hexsha, s, ps[k])
  {
    assert ps[..k + 1][..k] == ps[..k];
  }

  /** One more match of one pattern. */
  lemma MatchRowsStep(hexsha: string, s: string, p: Pattern, ms: seq<Match>, m: nat)
    requires m < |ms|
    requires forall k :: 0 <= k < |ms| ==> ms[k].start <= ms[k].end <= |s|
    ensures MatchRows(hexsha, s, p, ms[..m + 1])
            == MatchRows(hexsha, s, p, ms[..m]) + [FeatureRow(hexsha, PatternSource(p), Reference(s, ms[m]))]
  {
    var l := MatchRows(hexsha, s, p, ms[..m + 1]);
    var r := MatchRows(hexsha, s, p, ms[..m]) + [FeatureRow(hexsha, PatternSource(p), Reference(s, ms[m]))];
    assert |l| == |r|;
    forall k | 0 <= k < |l| ensures l[k] == r[k] {
      assert ms[..m + 1][k] == ms[k];
    }
  }

  /** The inner loop of the diff pass over the change entries of `c`:
      `upsert_file` on the store, then the rows added to the two buffers. */
  method IndexChanges(store: Store, c: CommitInfo, a: Analyzer, cfBuf: seq<CommitFileRow>, cxBuf: seq<ComplexityRow>)
    returns (cfOut: seq<CommitFileRow>, cxOut: seq<ComplexityRow>)
    requires store.Valid()
    modifies store`files
    ensures store.Valid()
    ensures var out := EntriesPass(old(store.files), c, a, c.changes);
            store.files == out.files && cfOut == cfBuf + out.commitFiles && cxOut == cxBuf + out.complexity
  {
    cfOut, cxOut := cfBuf, cxBuf;
    ghost var ft0 := store.files;
    for j := 0 to |c.changes|
      invariant store.Valid()
      invariant var out := EntriesPass(ft0, c, a, c.changes[..j]);
                store.files == out.files && cfOut == cfBuf + out.commitFiles && cxOut == cxBuf + out.complexity
    {
      var e := c.changes[j];
      var path := EffectivePath(e);
      ghost var prev := EntriesPass(ft0, c, a, c.changes[..j]);
      EntriesPassStep(ft0, c, a, c.changes, j);
      var fileId := store.UpsertFile(path);
      assert Resolve(prev.files, path) == Resolved(store.files, fileId);
      cfOut := cfOut + [ChangeRow(c.hexsha, fileId, e, c.stats)];
      var sample := ComplexitySample(fileId, c.hexsha, path, e, a);
      cxOut := cxOut + SampleRows(sample);
      AppendAssoc(cfBuf, prev.commitFiles, [ChangeRow(c.hexsha, fileId, e, c.stats)]);
      AppendAssoc(cxBuf, prev.complexity, SampleRows(sample));
    }
    assert c.changes[..|c.changes|] == c.changes;
  }

  /** One `features` row per match of pattern `p`, appended in match order. */
  method AppendMatchRows(c: CommitInfo, p: Pattern, ms: seq<Match>, ftBuf: seq<FeatureRow>) returns (ftOut: seq<FeatureRow>)
    requires forall k :: 0 <= k < |ms| ==> ms[k].start <= ms[k].end <= |c.message|
    ensures ftOut == ftBuf + MatchRows(c.hexsha, c.message, p, ms)
  {
    ftOut := ftBuf;
    for m := 0 to |ms|
      invariant ftOut == ftBuf + MatchRows(c.hexsha, c.message, p, ms[..m])
    {
      MatchRowsStep(c.hexsha, c.message, p, ms, m);
      ftOut := ftOut + [FeatureRow(c.hexsha, PatternSource(p), Reference(c.message, ms[m]))];
    }
    assert ms[..|ms|] == ms;
  }

  /** The feature extraction of one commit: each pattern's matches in
      pattern order, then the why marker. */
  method ExtractFeatures(c: CommitInfo, ftBuf: seq<FeatureRow>) returns (ftOut: seq<FeatureRow>)
    ensures ftOut == ftBuf + FeatureRows(c.hexsha, c.message)
  {
    ftOut := AppendReferenceRows(c, ftBuf);
    if AnyContained(WhyKeywords, Lower(c.message)) {
      ftOut := ftOut + [FeatureRow(c.hexsha, "why_marker", "1")];
    }
  }

  /** The loop over `FEATURE_PATTERNS`: each pattern's references, in
      pattern order. */
  method AppendReferenceRows(c: CommitInfo, ftBuf: seq<FeatureRow>) returns (ftOut: seq<FeatureRow>)
    ensures ftOut == ftBuf + ReferenceRows(c.hexsha, c.message, FeaturePatterns)
  {
    ftOut := ftBuf;
    for k := 0 to |FeaturePatterns|
      invariant ftOut == ftBuf + ReferenceRows(c.hexsha, c.message, FeaturePatterns[..k])
    {
      var p := FeaturePatterns[k];
      ReferenceRowsStep(c.hexsha, c.message, FeaturePatterns, k);
      var ms := FindAll(p, c.message, 0);
      ftOut := AppendMatchRows(c, p, ms, ftOut);
    }
    assert FeaturePatterns[..|FeaturePatterns|] == FeaturePatterns;
  }


  /** The three row buffers of the diff pass. */
  datatype Buffers = Buffers(commitFiles: seq<CommitFileRow>, complexity: seq<ComplexityRow>, features: seq<FeatureRow>)

  /** The batches flushed so far from each buffer. */
  datatype Batches = Batches(
    commitFiles: seq<seq<CommitFileRow>>, complexity: seq<seq<ComplexityRow>>, features: seq<seq<FeatureRow>>)

  /** The three row tables as the diff pass found them. */
  datatype Base = Base(commitFiles: seq<CommitFileRow>, complexity: map<ComplexityKey, ComplexityRow>, features: seq<FeatureRow>)

  /** The diff pass has produced `done`: the store holds its file table and
      the flushed batches, applied to the tables the pass started from; the
      buffers hold the rest. */
  ghost predicate Progress(store: Store, base: Base, done: Produced, bufs: Buffers, batches: Batches, limits: FlushLimits)
    reads store
  {
    && store.Valid()
    && store.files == done.files
    && Buffered(batches.commitFiles, bufs.commitFiles, done.commitFiles, limits.commitFiles)
    && Buffered(batches.complexity, bufs.complexity, done.complexity, limits.complexity)
    && Buffered(batches.features, bufs.features, done.features, limits.features)
    && store.commitFiles == base.commitFiles + Flatten(batches.commitFiles)
    && store.complexity == ReplaceAll(base.complexity, Flatten(batches.complexity))
    && store.features == base.features + Flatten(batches.features)
  }

  /** The diff pass's work on commit `c`, before the flush check. */
  method Gather(store: Store, c: CommitInfo, a: Analyzer, limits: FlushLimits,
                ghost base: Base, ghost done: Produced, bufs: Buffers, ghost batches: Batches)
    returns (bufs': Buffers)
    requires Progress(store, base, done, bufs, batches, limits)
    modifies store`files
    ensures Progress(store, base, Then(done, c, a), bufs', batches, limits)
  {
    ghost var cur := CommitPass(done.files, c, a);
    var cf, cx := IndexChanges(store, c, a, bufs.commitFiles, bufs.complexity);
    var ft := ExtractFeatures(c, bufs.features);
    BufferedAppend(batches.commitFiles, bufs.commitFiles, done.commitFiles, cur.commitFiles, limits.commitFiles);
    BufferedAppend(batches.complexity, bufs.complexity, done.complexity, cur.complexity, limits.complexity);
    BufferedAppend(batches.features, bufs.features, done.features, cur.features, limits.features);
    bufs' := Buffers(cf, cx, ft);
  }

  /** A flush of the `commit_files` buffer. */
  method FlushCommitFiles(store: Store, ghost base: seq<CommitFileRow>, ghost batches: seq<seq<CommitFileRow>>, buf: seq<CommitFileRow>)
    requires store.Valid() && store.commitFiles == base + Flatten(batches)
    modifies store`commitFiles
    ensures store.Valid() && store.commitFiles == base + Flatten(batches + [buf])
  {
    store.BulkInsertCommitFiles(buf);
    FlattenPush(batches, buf);
    AppendAssoc(base, Flatten(batches), buf);
  }

  /** A flush of the complexity buffer. */
  method FlushComplexity(store: Store, ghost base: map<ComplexityKey, ComplexityRow>, ghost batches: seq<seq<ComplexityRow>>, buf: seq<ComplexityRow>)
    requires store.Valid() && store.complexity == ReplaceAll(base, Flatten(batches))
    modifies store`complexity
    ensures store.Valid() && store.complexity == ReplaceAll(base, Flatten(batches + [buf]))
  {
    store.BulkInsertComplexity(buf);
    FlattenPush(batches, buf);
    ReplaceAllAppend(base, Flatten(batches), buf);
  }

  /** A flush of the features buffer. */
  method FlushFeatures(store: Store, ghost base: seq<FeatureRow>, ghost batches: seq<seq<FeatureRow>>, buf: seq<FeatureRow>)
    requires store.Valid() && store.features == base + Flatten(batches)
    modifies store`features
    ensures store.Valid() && store.features == base + Flatten(batches + [buf])
  {
    store.BulkInsertFeatures(buf);
    FlattenPush(batches, buf);
    AppendAssoc(base, Flatten(batches), buf);
  }

  /** The periodic flush of the `commit_files` buffer, if it has reached
      its threshold. */
  method FlushCommitFilesIfFull(store: Store, limits: FlushLimits, ghost base: Base, ghost done: Produced, bufs: Buffers, ghost batches: Batches)
    returns (bufs': Buffers, ghost batches': Batches)
    requires Progress(store, base, done, bufs, batches, limits)
    modifies store`commitFiles
    ensures Progress(store, base, done, bufs', batches', limits)
  {
    bufs', batches' := bufs, batches;
    if |bufs.commitFiles| >= limits.commitFiles {
      BufferedFlush(batches.commitFiles, bufs.commitFiles, done.commitFiles, limits.commitFiles);
      FlushCommitFiles(store, base.commitFiles, batches.commitFiles, bufs.commitFiles);
      bufs' := bufs.(commitFiles := []);
      batches' := batches.(commitFiles := batches.commitFiles + [bufs.commitFiles]);
    }
  }

  /** The periodic flush of the complexity buffer. */
  method FlushComplexityIfFull(store: Store, limits: FlushLimits, ghost base: Base, ghost done: Produced, bufs: Buffers, ghost batches: Batches)
    returns (bufs': Buffers, ghost batches': Batches)
    requires Progress(store, base, done, bufs, batches, limits)
    modifies store`complexity
    ensures Progress(store, base, done, bufs', batches', limits)
  {
    bufs', batches' := bufs, batches;
    if |bufs.complexity| >= limits.complexity {
      BufferedFlush(batches.complexity, bufs.complexity, done.complexity, limits.complexity);
      FlushComplexity(store, base.complexity, batches.complexity, bufs.complexity);
      bufs' := bufs.(complexity := []);
      batches' := batches.(complexity := batches.complexity + [bufs.complexity]);
    }
  }

  /** The periodic flush of the features buffer. */
  method FlushFeaturesIfFull(store: Store, limits: FlushLimits, ghost base: Base, ghost done: Produced, bufs: Buffers, ghost batches: Batches)
    returns (bufs': Buffers, ghost batches': Batches)
    requires Progress(store, base, done, bufs, batches, limits)
    modifies store`features
    ensures Progress(store, base, done, bufs', batches', limits)
  {
    bufs', batches' := bufs, batches;
    if |bufs.features| >= limits.features {
      BufferedFlush(batches.features, bufs.features, done.features, limits.features);
      FlushFeatures(store, base.features, batches.features, bufs.features);
      bufs' := bufs.(features := []);
      batches' := batches.(features := batches.features + [bufs.features]);
    }
  }

  /** The final flush: whatever is left in each buffer is written, and then
      the batches of each table are together everything produced. */
  method FlushRest(store: Store, limits: FlushLimits, ghost base: Base, ghost done: Produced, bufs: Buffers, ghost batches: Batches)
    returns (ghost batches': Batches)
    requires Progress(store, base, done, bufs, batches, limits)
    requires limits.commitFiles >= 1 && limits.complexity >= 1 && limits.features >= 1
    modifies store`commitFiles, store`complexity, store`features
    ensures store.Valid()
    ensures Flatten(batches'.commitFiles) == done.commitFiles && Batched(batches'.commitFiles, limits.commitFiles)
    ensures Flatten(batches'.complexity) == done.complexity && Batched(batches'.complexity, limits.complexity)
    ensures Flatten(batches'.features) == done.features && Batched(batches'.features, limits.features)
    ensures store.commitFiles == base.commitFiles + Flatten(batches'.commitFiles)
    ensures store.complexity == ReplaceAll(base.complexity, Flatten(batches'.complexity))
    ensures store.features == base.features + Flatten(batches'.features)
  {
    batches' := batches;
    BufferedFinal(batches.commitFiles, bufs.commitFiles, done.commitFiles, limits.commitFiles);
    BufferedFinal(batches.complexity, bufs.complexity, done.complexity, limits.complexity);
    BufferedFinal(batches.features, bufs.features, done.features, limits.features);
    if bufs.commitFiles != [] {
      FlushCommitFiles(store, base.commitFiles, batches.commitFiles, bufs.commitFiles);
      batches' := batches'.(commitFiles := batches.commitFiles + [bufs.commitFiles]);
    }
    if bufs.complexity != [] {
      FlushComplexity(store, base.complexity, batches.complexity, bufs.complexity);
      batches' := batches'.(complexity := batches.complexity + [bufs.complexity]);
    }
    if bufs.features != [] {
      FlushFeatures(store, base.features, batches.features, bufs.features);
      batches' := batches'.(features := batches.features + [bufs.features]);
    }
  }

  /** The metadata pass: `repo_dir` is recorded and one row per commit is
      inserted with INSERT OR IGNORE. */
  method IndexMetadata(store: Store, repoDir: string, commits: seq<CommitInfo>)
    requires store.Valid()
    modifies store`meta, store`commits
    ensures store.Valid()
    ensures store.meta == old(store.meta)["repo_dir" := repoDir]
    ensures store.commits == InsertOrIgnore(old(store.commits), MetadataRows(commits))
  {
    store.SetMeta("repo_dir", repoDir);
    var rowsCommits: seq<CommitRow> := [];
    for i := 0 to |commits|
      invariant rowsCommits == MetadataRows(commits[..i])
    {
      rowsCommits := rowsCommits + [MetadataRow(commits[i])];
    }
    assert commits[..|commits|] == commits;
    store.BulkInsertCommits(rowsCommits);
  }

  /** One iteration of the diff pass: gather the commit's rows, then flush
      each buffer that has reached its limit. */
  method IndexCommit(store: Store, c: CommitInfo, a: Analyzer, limits: FlushLimits,
                     ghost base: Base, ghost done: Produced, bufs: Buffers, ghost batches: Batches)
    returns (bufs': Buffers, ghost batches': Batches)
    requires Progress(store, base, done, bufs, batches, limits)
    modifies store`files, store`commitFiles, store`complexity, store`features
    ensures Progress(store, base, Then(done, c, a), bufs', batches', limits)
  {
    bufs' := Gather(store, c, a, limits, base, done, bufs, batches);
    ghost var next := Then(done, c, a);
    bufs', batches' := FlushCommitFilesIfFull(store, limits, base, next, bufs', batches);
    bufs', batches' := FlushComplexityIfFull(store, limits, base, next, bufs', batches');
    bufs', batches' := FlushFeaturesIfFull(store, limits, base, next, bufs', batches');
  }

  /** The diff pass with its periodic and final flushes. The flushed
      batches together are exactly the rows the pass produces, and every
      flush but the last of each buffer held at least its threshold. */
  method IndexDiffs(store: Store, commits: seq<CommitInfo>, a: Analyzer, limits: FlushLimits)
    returns (ghost batches: Batches)
    requires store.Valid()
    requires limits.commitFiles >= 1 && limits.complexity >= 1 && limits.features >= 1
    modifies store`files, store`commitFiles, store`complexity, store`features
    ensures store.Valid()
    ensures var out := DiffPass(old(store.files), commits, a);
            && store.files == out.files
            && Flatten(batches.commitFiles) == out.commitFiles
            && Flatten(batches.complexity) == out.complexity
            && Flatten(batches.features) == out.features
    ensures store.commitFiles == old(store.commitFiles) + Flatten(batches.commitFiles)
    ensures store.complexity == ReplaceAll(old(store.complexity), Flatten(batches.complexity))
    ensures store.features == old(store.features) + Flatten(batches.features)
    ensures Batched(batches.commitFiles, limits.commitFiles)
    ensures Batched(batches.complexity, limits.complexity)
    ensures Batched(batches.features, limits.features)
  {
    ghost var ft0 := store.files;
    ghost var base := Base(store.commitFiles, store.complexity, store.features);
    var bufs := Buffers([], [], []);
    batches := Batches([], [], []);
    ghost var done := DiffPass(ft0, [], a);
    assert commits[..0] == [];
    for i := 0 to |commits|
      invariant done == DiffPass(ft0, commits[..i], a)
      invariant Progress(store, base, done, bufs, batches, limits)
    {
      DiffPassStep(ft0, commits, a, i);
      bufs, batches := IndexCommit(store, commits[i], a, limits, base, done, bufs, batches);
      done := Then(done, commits[i], a);
    }
    assert commits[..|commits|] == commits;
    batches := FlushRest(store, limits, base, done, bufs, batches);
  }

  /** `GitIndexer.index` over the store: the metadata pass, then the diff
      pass. `ownership` is left as it was. */
  method Index(store: Store, repoDir: string, commits: seq<CommitInfo>, a: Analyzer)
    returns (ghost batches: Batches)
    requires store.Valid()
    modifies store
    ensures store.Valid()
    ensures store.meta == old(store.meta)["repo_dir" := repoDir]
    ensures store.commits == InsertOrIgnore(old(store.commits), MetadataRows(commits))
    ensures store.ownership == old(store.ownership)
    ensures var out := DiffPass(old(store.files), commits, a);
            && store.files == out.files
            && Flatten(batches.commitFiles) == out.commitFiles
            && Flatten(batches.complexity) == out.complexity
            && Flatten(batches.features) == out.features
    ensures store.commitFiles == old(store.commitFiles) + Flatten(batches.commitFiles)
    ensures store.complexity == ReplaceAll(old(store.complexity), Flatten(batches.complexity))
    ensures store.features == old(store.features) + Flatten(batches.features)
    ensures Batched(batches.commitFiles, SourceLimits.commitFiles)
    ensures Batched(batches.complexity, SourceLimits.complexity)
    ensures Batched(batches.features, SourceLimits.features)
  {
    IndexMetadata(store, repoDir, commits);
    assert store.files == old(store.files) && store.commitFiles == old(store.commitFiles);
    assert store.complexity == old(store.complexity) && store.features == old(store.features);
    assert store.ownership == old(store.ownership);
    label mid:
    batches := IndexDiffs(store, commits, a, SourceLimits);
    assert unchanged@mid(store`meta, store`commits, store`ownership);
  }
}

/** What the diff pass of git_indexer.py derives from one change entry: the
    effective path, the line counts looked up in the commit's stats, the
    binary flag, the `commit_files` row, and the complexity sample. The
    change list, the stats and each entry's b-side blob come from GitPython and
    are inputs here; the complexity analyzer is a value. */
module Normalize {
  import opened Text
  import opened Db

  /** `c.stats.files[path]`. */
  datatype LineStat = LineStat(insertions: int, deletions: int)

  /** `d.b_blob`: its binary classification and its decoded text. */
  datatype Blob = Blob(isBinary: bool, text: string)

  /** One element of `c.diff(parent)`: `change_type`, `a_path`, `b_path`, `b_blob`. */
  datatype DiffEntry = DiffEntry(changeType: string, oldPath: string, newPath: string, bBlob: Option<Blob>)

  /** What lizard reports for one file: its NLOC and the cyclomatic
      complexity of each function it found. */
  datatype Summary = Summary(nloc: int, functionComplexities: seq<int>)

  /** One call of `analyze_code_string`: it raised, or it returned a result
      that is either falsy (None) or a summary. */
  datatype Analysis = Raised | Returned(result: Option<Summary>)

  /** `analyze_code_string` as bound at import time: lizard's analyzer when
      the import succeeded, otherwise the fallback that returns None. */
  datatype Analyzer = Lizard(analyze: (string, string) -> Analysis) | Fallback

  function Analyze(a: Analyzer, path: string, code: string): Analysis {
    match a
    case Lizard(f) => f(path, code)
    case Fallback => Returned(None)
  }

  /** `d.change_type.upper()`. */
  function ChangeType(e: DiffEntry): string {
    Upper(e.changeType)
  }

  /** `path_eff`: the new path, or the old path of a deletion. */
  function EffectivePath(e: DiffEntry): string {
    if ChangeType(e) != "D" then e.newPath else e.oldPath
  }

  /** `c.stats.files.get(path_eff, {"insertions": 0, "deletions": 0})`. */
  function LineCounts(stats: map<string, LineStat>, path: string): LineStat {
    if path in stats then stats[path] else LineStat(0, 0)
  }

  /** `1 if d.b_blob is not None and d.b_blob.is_binary else 0`. */
  function BinaryFlag(e: DiffEntry): int {
    if e.bBlob.Some? && e.bBlob.value.isBinary then 1 else 0
  }

  /** The `commit_files` row appended for entry `e` of commit `hexsha`. */
  function ChangeRow(hexsha: string, fileId: int, e: DiffEntry, stats: map<string, LineStat>): CommitFileRow {
    var counts := LineCounts(stats, EffectivePath(e));
    CommitFileRow(hexsha, fileId, counts.insertions, counts.deletions, ChangeType(e), e.oldPath, e.newPath, BinaryFlag(e))
  }

  /** The effective path as it can be read back from a stored row. */
  function RowPath(row: CommitFileRow): string {
    if row.changeType != "D" then row.newPath else row.oldPath
  }

  /** The row carries the commit, the file id, the change type and both
      paths; its counts are those of `stats` at the effective path (the old
      path of a deletion), and 0/0 when stats has no entry there; it is
      flagged binary (1, else 0) exactly when the entry's b-side blob exists
      and is binary. */
  lemma ChangeRowSpec(hexsha: string, fileId: int, e: DiffEntry, stats: map<string, LineStat>)
    ensures var row := ChangeRow(hexsha, fileId, e, stats);
      && row.commitId == hexsha && row.fileId == fileId
      && row.changeType == ChangeType(e) && row.oldPath == e.oldPath && row.newPath == e.newPath
      && RowPath(row) == (if ChangeType(e) == "D" then e.oldPath else e.newPath)
      && (RowPath(row) in stats ==> row.additions == stats[RowPath(row)].insertions
                                    && row.deletions == stats[RowPath(row)].deletions)
      && (RowPath(row) !in stats ==> row.additions == 0 && row.deletions == 0)
      && row.isBinary == (if e.bBlob.Some? && e.bBlob.value.isBinary then 1 else 0)
  {
  }

  /** The complexity row for entry `e` at `path`, if any: only for a
      non-deleted entry with a non-binary b-side blob whose analysis
      returned a result. Its `ccn` is the total (not the average) of the
      functions' complexities and `functions` their number. An analyzer
      that raises yields no row and no failure. */
  function ComplexitySample(fileId: int, hexsha: string, path: string, e: DiffEntry, a: Analyzer): (r: Option<ComplexityRow>)
    ensures r.Some? ==> ChangeType(e) != "D" && e.bBlob.Some? && !e.bBlob.value.isBinary
    ensures r.Some? ==> r.value.fileId == fileId && r.value.commitId == hexsha
    ensures a == Fallback ==> r == None
  {
    if ChangeType(e) != "D" && e.bBlob.Some? && !e.bBlob.value.isBinary then
      match Analyze(a, path, e.bBlob.value.text)
      case Returned(Some(summary)) =>
        Some(ComplexityRow(fileId, hexsha, summary.nloc, Sum(summary.functionComplexities), |summary.functionComplexities|))
      case _ => None
    else None
  }

  /** A sample exists exactly when the entry qualifies and the analyzer
      returns a summary; then it holds the summary's NLOC, the sum of the
      complexities and the number of functions. */
  lemma ComplexitySampleSpec(fileId: int, hexsha: string, path: string, e: DiffEntry, a: Analyzer)
    ensures var r := ComplexitySample(fileId, hexsha, path, e, a);
      && (r.Some? <==> ChangeType(e) != "D" && e.bBlob.Some? && !e.bBlob.value.isBinary
                       && Analyze(a, path, e.bBlob.value.text).Returned?
                       && Analyze(a, path, e.bBlob.value.text).result.Some?)
      && (r.Some? ==> var s := Analyze(a, path, e.bBlob.value.text).result.value;
                      r.value == ComplexityRow(fileId, hexsha, s.nloc, Sum(s.functionComplexities), |s.functionComplexities|))
  {
  }

  /** Lizard reports a complexity of at least 1 per function, so a sample's
      total complexity is at least its function count. */
  lemma SampleCcnAtLeastFunctions(fileId: int, hexsha: string, path: string, e: DiffEntry, a: Analyzer)
    requires var r := Analyze(a, path, if e.bBlob.Some? then e.bBlob.value.text else "");
             r.Returned? && r.result.Some? ==>
               forall i :: 0 <= i < |r.result.value.functionComplexities| ==> r.result.value.functionComplexities[i] >= 1
    ensures var r := ComplexitySample(fileId, hexsha, path, e, a);
            r.Some? ==> r.value.ccn >= r.value.functions >= 0
  {
    var r := ComplexitySample(fileId, hexsha, path, e, a);
    if r.Some? {
      SumAtLeastCount(Analyze(a, path, e.bBlob.value.text).result.value.functionComplexities);
    }
  }
}

# Codebase time machine: a verified model of the indexing core

This project models the core of `codebase_time_machine` in Dafny. That tool reads a git
repository's full history into SQLite. The tables are commits, files, per-commit file
changes, complexity samples, feature references and per-author ownership. It then
answers free-text questions about the history by keyword search. The model covers the following:

- **Store** (`db.dfy`, module `Db`): `db.py`'s schema as row datatypes.
  - The conflict rule of each table is a function on abstract tables:
    - `files`: INSERT OR IGNORE on a UNIQUE path with an AUTOINCREMENT id.
    - `commits`: INSERT OR IGNORE on the primary key.
    - `complexity`: INSERT OR REPLACE.
    - `commit_files` and `features`: plain appends.
  - A `Store` class holds the tables as fields. Its methods are the accessors (`upsert_file`, `set_meta`, `get_meta`, `bulk_insert_*`).
- **Feature extraction** (`features.dfy`, module `Features`): the three regular expressions of `FEATURE_PATTERNS` as matchers.
  - `finditer` is modelled as a leftmost, non-overlapping scan.
  - The reference kept for each match is modelled.
  - So is the rationale ("why") marker.
- **Diff normalisation** (`normalize.dfy`, module `Normalize`): for one diff entry, the model gives
  - the effective path,
  - the line counts taken from the commit's stats,
  - the binary flag,
  - the `commit_files` row,
  - and the complexity sample.
  - The complexity analyzer (lizard, or the fallback used when lizard is absent) is a value.
- **The indexer** (`indexer.dfy`, module `Indexer`): `GitIndexer.index`.
  - Pure functions give the rows that the metadata pass and the diff pass must produce.
  - Imperative methods do each pass the way the source does, with the three buffers and their periodic and final flushes. They are proved to store exactly those rows.
- **Ownership** (`ownership.dfy`, module `Ownership`): `compute_ownership`.
  - The inner join is modelled, together with GROUP BY `(file_id, author_email)` and the aggregates COUNT(DISTINCT), SUM, MIN and MAX.
  - It is proved to keep the table's primary key and to preserve the line and commit totals.
- **Question answering** (`qa.dfy`, module `Qa`): the string logic of `qa.py`.
  - Routing of a question, its tokenisation into keywords, and the LIKE patterns.
  - The parameters of the `evolution` query.
  - Formatting of result rows.
- **Python builtins the core relies on** (`text.dfy`, module `Text`): ASCII `lower`/`upper`, the `in` substring test, `any`, list filtering, `join`/`split` and `sum`.

All files lie under `codebase_time_machine/`.

Three places the reader should know about:

- **Re-indexing.** Re-indexing is idempotent only for `commits` (INSERT OR IGNORE by primary key); `complexity` rows are replaced. `commit_files` and `features` are plain INSERTs. `Indexer.DiffPassRerun` proves that a second run re-derives exactly the same rows under the same file ids, so a second `index` stores every `commit_files` and `features` row twice.
- **Ownership rebuild.** The ownership rebuild is not atomic: the code commits the `DELETE FROM ownership` before it runs the `INSERT ... SELECT` (analysis.py:11-13), so a reader can observe an empty table. `Ownership.ComputeOwnership` goes through that empty state too.
- **`upsert_file`.** This is the one place where the model follows the intended behaviour rather than the code. `Db.Store.UpsertFile` returns the id stored for the path; the code as written, which can return a stale `lastrowid` (db.py:88-90), is modelled separately by `Db.UpsertFileAsWritten` (see "## Findings").

## Model

| member | source | states |
|---|---|---|
| Text.Lower | codebase_time_machine/qa.py:26 | `str.lower` keeps the length and lower-cases each character |
| Text.Upper | codebase_time_machine/git_indexer.py:70 | `str.upper` keeps the length and upper-cases each character |
| Text.LowerIdempotent | codebase_time_machine/qa.py:88 | lower-casing the already lower-cased query again changes nothing |
| Text.Contains | codebase_time_machine/git_indexer.py:105 | `k in s` holds exactly when `k` occurs in `s` at some index |
| Text.AnyContained | codebase_time_machine/qa.py:28 | `any(k in q for k in ks)` holds exactly when some keyword occurs in `q` |
| Text.Filter | codebase_time_machine/qa.py:35 | a list comprehension with a condition keeps exactly the elements that satisfy it, and nothing else, as a subsequence of the input (in input order); a one-element list is kept or dropped whole |
| Text.FilterAppend | codebase_time_machine/qa.py:35 | filtering a concatenation is the concatenation of the filtered parts; with the one-element case this fixes the order and the repetitions of the result |
| Text.SplitJoin | codebase_time_machine/qa.py:38 | splitting `c.join(xs)` at `c` gives back `xs` when no element contains `c` |
| Text.SumAtLeastCount | codebase_time_machine/git_indexer.py:93 | a sum of values that are each at least 1 is at least their number |
| Db.Resolve | codebase_time_machine/db.py:87-92 | upserting a path leaves exactly one row for it and keeps the table's uniqueness and id bounds; a known path keeps its id and changes nothing; a new path adds exactly one row whose id no other path holds; other paths keep their ids |
| Db.ResolveNewPath | codebase_time_machine/db.py:23-26 | a new path receives the AUTOINCREMENT counter's next id, above every id handed out before, and the counter moves one past it |
| Db.ResolveStable | codebase_time_machine/db.py:87-92 | upserting the same path twice returns the same id and leaves the table as the first upsert did |
| Db.ResolveDistinct | codebase_time_machine/db.py:23-26 | two distinct paths never receive the same id |
| Db.InsertOrIgnore | codebase_time_machine/db.py:115-122 | INSERT OR IGNORE of a batch adds exactly the batch's new ids and never changes an existing commit |
| Db.InsertOrIgnoreFirst | codebase_time_machine/db.py:118 | a new id takes the values of the first row in the batch that carries it |
| Db.InsertOrIgnoreKeyed | codebase_time_machine/db.py:15-21 | every stored commit stays keyed by its own id |
| Db.InsertOrIgnoreKnown | codebase_time_machine/db.py:118 | a batch whose ids are all present leaves the table unchanged |
| Db.InsertOrIgnoreIdempotent | codebase_time_machine/db.py:115-122 | inserting the same batch of commits twice leaves the table as inserting it once did |
| Db.ReplaceAll | codebase_time_machine/db.py:132-136 | INSERT OR REPLACE of a batch adds exactly the batch's keys and leaves rows whose key is not in the batch untouched |
| Db.ReplaceAllLast | codebase_time_machine/db.py:134 | every key of the batch ends up holding the last row of the batch with that key |
| Db.ReplaceAllKeyed | codebase_time_machine/db.py:56-65 | complexity rows stay keyed by `(file_id, commit_id)` |
| Db.ReplaceAllAppend | codebase_time_machine/db.py:132-136 | flushing two batches one after the other replaces as flushing their concatenation once would |
| Db.Store.constructor | codebase_time_machine/db.py:82-84 | `init_db` on an empty database leaves every table empty and the key constraints hold |
| Db.Store.UpsertFile | codebase_time_machine/db.py:87-92 | the table becomes the result of `Resolve`; the id returned is the one stored for the path |
| Db.Store.SetMeta | codebase_time_machine/db.py:95-97 | the key now maps to the value, and every other key keeps its value |
| Db.Store.GetMeta | codebase_time_machine/db.py:100-102 | returns the stored value, or None when the key was never set |
| Db.Store.BulkInsertCommits | codebase_time_machine/db.py:115-122 | the commits table becomes `InsertOrIgnore` of the old table and the rows |
| Db.Store.BulkInsertCommitFiles | codebase_time_machine/db.py:105-112 | the rows are appended in order, duplicates included |
| Db.Store.BulkInsertFeatures | codebase_time_machine/db.py:125-129 | the rows are appended in order, duplicates included |
| Db.Store.BulkInsertComplexity | codebase_time_machine/db.py:132-136 | the complexity table becomes `ReplaceAll` of the old table and the rows |
| Db.MetaRoundTrip | codebase_time_machine/db.py:95-102 | `get_meta` returns what `set_meta` stored, and another key keeps its old value or stays absent |
| Db.UpsertFileAsWritten | codebase_time_machine/db.py:87-92 | the code as written returns the correct id for a new path, and also whenever the connection has inserted nothing yet |
| Db.UpsertFileReturnsStaleRowid | codebase_time_machine/db.py:88-90 | for a known path, the code returns the connection's last inserted rowid instead of the path's id whenever these differ |
| Db.UpsertFileStaleExample | codebase_time_machine/db.py:87-92 | after inserting `a.py` (id 1) and then `b.py` (id 2), upserting `a.py` again returns 2 while `a.py` keeps id 1 |
| Features.RunEnd | codebase_time_machine/git_indexer.py:23-25 | a greedy `+`/`*` run ends at the first character outside the class |
| Features.IssueNumberAt | codebase_time_machine/git_indexer.py:23-24 | `\s+#(?P<num>\d+)` matches a run of whitespace only, then `#`, then a maximal run of at least one digit |
| Features.MatchAt | codebase_time_machine/git_indexer.py:22-26 | a match starts at the given index and is non-empty |
| Features.MatchAtSound | codebase_time_machine/git_indexer.py:22-26 | what is found is spelt by the pattern: `fixe?s?` or `close[sd]?` (case-insensitively), whitespace, `#`, digits; or a capital, `[A-Z0-9]+`, `-`, digits; and its digits run as far as they go |
| Features.MatchAtComplete | codebase_time_machine/git_indexer.py:22-26 | wherever the pattern spells a prefix of the rest of the message, a match is found there |
| Features.MatchAtExact | codebase_time_machine/git_indexer.py:22-26 | a match is found at a position exactly when the pattern spells a prefix of the message from there |
| Features.MatchShape | codebase_time_machine/git_indexer.py:22-26 | an issue match begins with `fix`/`close` case-insensitively and captures the digits after `#` as `num`; a ticket match starts with a capital letter, ends in a digit and is the whole `jira` group |
| Features.FindAll | codebase_time_machine/git_indexer.py:100 | the matches `finditer` yields lie within the message, in order, without overlap |
| Features.FindAllMatches | codebase_time_machine/git_indexer.py:100 | every yielded match is the pattern's own match at its start position |
| Features.FindAllLeftmost | codebase_time_machine/git_indexer.py:100 | any position where the pattern matches is covered by some yielded match, so no match is missed |
| Features.FindAllMissesNothing | codebase_time_machine/git_indexer.py:100 | every position from which the pattern spells a prefix of the message lies inside a yielded match |
| Features.ReferenceOfMatch | codebase_time_machine/git_indexer.py:101 | the stored reference is never empty: the issue number (digits that follow a `#`) for the issue patterns, the ticket text for the ticket pattern |
| Features.MatchRows | codebase_time_machine/git_indexer.py:100-102 | one feature row per match |
| Features.WhyRows | codebase_time_machine/git_indexer.py:104-106 | at most one `why_marker` row, and one exactly when the lower-cased message contains some `WHY_KEYWORDS` word |
| Features.ReferenceRowsShape | codebase_time_machine/git_indexer.py:99-102 | every pattern row names the commit, carries the source text of one of the patterns as its type, and has a non-empty reference |
| Normalize.ChangeRowSpec | codebase_time_machine/git_indexer.py:69-82 | the row carries the commit, the file id, the upper-cased change type and both paths; its counts are the stats at the effective path (the old path of a deletion), or 0/0 when there are none; its binary flag is 1 exactly when the diff entry's b-side blob exists and is binary, and 0 otherwise |
| Normalize.ComplexitySample | codebase_time_machine/git_indexer.py:84-96 | a sample exists only for a non-deleted entry with a non-binary blob; it names the file and the commit; the fallback analyzer never yields one |
| Normalize.ComplexitySampleSpec | codebase_time_machine/git_indexer.py:84-96 | a sample exists exactly when the entry qualifies and the analyzer returns a result without raising; it holds the NLOC, the total (not the average) complexity and the function count |
| Normalize.SampleCcnAtLeastFunctions | codebase_time_machine/git_indexer.py:91-94 | when every function's complexity is at least 1, the sample's total complexity is at least its function count |
| Indexer.MetadataRows | codebase_time_machine/git_indexer.py:59-60 | one commit row per commit, in order, keyed by the commit's hexsha |
| Indexer.EntriesPass | codebase_time_machine/git_indexer.py:69-96 | one `commit_files` row per entry and at most one complexity row; existing ids are kept and every effective path gets an id |
| Indexer.DiffPass | codebase_time_machine/git_indexer.py:65-106 | the diff pass keeps the file table valid and never changes an existing file's id |
| Indexer.DiffPassRowCounts | codebase_time_machine/git_indexer.py:69-94 | exactly one `commit_files` row per change entry of the history, at most one complexity row per entry |
| Indexer.EntriesPassResolved | codebase_time_machine/git_indexer.py:73-82 | each row's file id is the final table's id for the effective path read back from the row |
| Indexer.DiffPassResolved | codebase_time_machine/git_indexer.py:65-82 | the same over the whole history: every `commit_files` row agrees with the final `files` table |
| Indexer.EntriesPassAnalyzerIndependent | codebase_time_machine/git_indexer.py:12-19 | the analyzer decides only complexity rows; without lizard there are none |
| Indexer.DiffPassAnalyzerIndependent | codebase_time_machine/git_indexer.py:84-96 | over the whole history, files, `commit_files` and features are the same under any analyzer, and the fallback yields no complexity rows |
| Indexer.DiffPassPaths | codebase_time_machine/git_indexer.py:73-80 | every effective path of every commit has an id after the pass |
| Indexer.EntriesPassCommitIds | codebase_time_machine/git_indexer.py:82 | every `commit_files` row of a commit's entries names that commit |
| Indexer.DiffPassCommitIds | codebase_time_machine/git_indexer.py:65-82 | every `commit_files` row of the pass names one of the commits indexed |
| Indexer.IndexRowsNameStoredCommits | codebase_time_machine/db.py:37 | after indexing, every `commit_files` row names a stored commit (the foreign key), provided the rows stored before did |
| Indexer.EntriesPassRerun | codebase_time_machine/git_indexer.py:69-96 | entries whose paths are already known with the same ids add no file and reproduce the same rows |
| Indexer.DiffPassRerunFrom | codebase_time_machine/git_indexer.py:65-106 | a pass from any table that knows all paths with the same ids adds no file and reproduces the same rows |
| Indexer.DiffPassRerun | codebase_time_machine/git_indexer.py:65-106 | re-indexing the same history from the resulting table resolves to the same ids, adds no file and derives exactly the same rows again |
| Indexer.BufferedAppend | codebase_time_machine/git_indexer.py:82 | appending to a buffer keeps "flushed batches plus buffer equal everything produced" |
| Indexer.BufferedFlush | codebase_time_machine/git_indexer.py:109-120 | a flush at or above the threshold moves the buffer into a new batch and keeps that relation |
| Indexer.BufferedFinal | codebase_time_machine/git_indexer.py:122-131 | after the final flush of a non-empty buffer the batches are exactly what was produced, each non-empty and all but the last at or above the threshold |
| Indexer.IndexChanges | codebase_time_machine/git_indexer.py:69-96 | the loop over a commit's diff upserts each path and appends exactly `EntriesPass`'s rows to the two buffers |
| Indexer.AppendMatchRows | codebase_time_machine/git_indexer.py:100-102 | the loop over one pattern's matches appends exactly that pattern's rows, in match order |
| Indexer.ExtractFeatures | codebase_time_machine/git_indexer.py:98-106 | the loops over patterns and matches append exactly the commit's feature rows, why marker last |
| Indexer.AppendReferenceRows | codebase_time_machine/git_indexer.py:99-102 | the loop over the patterns appends each pattern's rows, in pattern order |
| Indexer.IndexCommit | codebase_time_machine/git_indexer.py:65-120 | one iteration, gathering then flushing the full buffers, keeps the store and buffers consistent with the pass extended by that commit |
| Indexer.Gather | codebase_time_machine/git_indexer.py:65-106 | one commit's work keeps the store and buffers consistent with the pass extended by that commit |
| Indexer.FlushCommitFiles | codebase_time_machine/git_indexer.py:110 | the stored `commit_files` become the base plus the flushed batches including the new one |
| Indexer.FlushComplexity | codebase_time_machine/git_indexer.py:114 | the stored complexity becomes the base with all flushed batches including the new one replaced in |
| Indexer.FlushFeatures | codebase_time_machine/git_indexer.py:118 | the stored features become the base plus the flushed batches including the new one |
| Indexer.FlushCommitFilesIfFull | codebase_time_machine/git_indexer.py:109-112 | the periodic `commit_files` flush keeps store, buffers and batches consistent |
| Indexer.FlushComplexityIfFull | codebase_time_machine/git_indexer.py:113-116 | the periodic complexity flush keeps store, buffers and batches consistent |
| Indexer.FlushFeaturesIfFull | codebase_time_machine/git_indexer.py:117-120 | the periodic features flush keeps store, buffers and batches consistent |
| Indexer.FlushRest | codebase_time_machine/git_indexer.py:122-131 | after the final flushes, each table's batches are exactly what the pass produced, every batch non-empty and all but the last at or above the threshold |
| Indexer.IndexMetadata | codebase_time_machine/git_indexer.py:51-63 | records `repo_dir` and inserts one row per commit with INSERT OR IGNORE |
| Indexer.IndexDiffs | codebase_time_machine/git_indexer.py:65-131 | the stored tables gain exactly the pass's rows, whatever the thresholds; the flushed batches concatenate to those rows and respect the thresholds |
| Indexer.Index | codebase_time_machine/git_indexer.py:47-131 | the whole run: meta and commits as in the metadata pass, files and row tables as in the diff pass, ownership untouched; the flushed batches respect the thresholds 1000, 500 and 1000 of git_indexer.py:109-117 |
| Ownership.JoinRowsSpec | codebase_time_machine/analysis.py:23-24 | the join keeps, with its commit, every change row whose commit is stored, and yields nothing else |
| Ownership.GroupKeys | codebase_time_machine/analysis.py:25 | the groups are distinct, cover every joined row and each come from one |
| Ownership.FirstDate | codebase_time_machine/analysis.py:21 | MIN of the group's dates: a date of the group no later than any other |
| Ownership.LastDate | codebase_time_machine/analysis.py:22 | MAX of the group's dates: a date of the group no earlier than any other |
| Ownership.RowsOf | codebase_time_machine/analysis.py:16-22 | one ownership row per group, in group order |
| Ownership.OwnershipKeysUnique | codebase_time_machine/db.py:52 | no two ownership rows share `(file_id, author_email)` |
| Ownership.OwnershipCovers | codebase_time_machine/analysis.py:23-25 | every change row with a stored commit has an ownership row for its file and the commit's author |
| Ownership.OwnershipFromJoin | codebase_time_machine/analysis.py:23-25 | every ownership row comes from some change row joined with its commit |
| Ownership.OwnershipRowFacts | codebase_time_machine/analysis.py:18-22 | each row counts at least one commit, and its first date is at most its last; both are dates of the group that bound all the others |
| Ownership.GroupTotals | codebase_time_machine/analysis.py:19-20 | summing per group and then over the groups gives the total over all joined rows |
| Ownership.RowsTotals | codebase_time_machine/analysis.py:19-20 | the rows' line totals are the groups' sums |
| Ownership.JoinAdded | codebase_time_machine/analysis.py:19-24 | when every change's commit is stored, the join keeps every added line |
| Ownership.JoinDeleted | codebase_time_machine/analysis.py:19-24 | when every change's commit is stored, the join keeps every deleted line |
| Ownership.OwnershipTotals | codebase_time_machine/analysis.py:13-26 | when every `commit_files` row names a stored commit, the ownership rows' lines added and deleted add up to those of `commit_files` |
| Ownership.OwnershipAfterIndex | codebase_time_machine/analysis.py:13-26 | after indexing a store whose `commit_files` rows all named stored commits, the ownership totals equal the indexed `commit_files` totals |
| Ownership.CountOfUnion | codebase_time_machine/analysis.py:18 | per-author distinct commit sets of one file are disjoint, so their counts add up to their union |
| Ownership.UnionIsFileCommits | codebase_time_machine/analysis.py:25 | the union of a file's groups is the set of commits touching it |
| Ownership.JoinOneAuthorPerCommit | codebase_time_machine/analysis.py:24 | a joined commit has one author email |
| Ownership.JoinFileCommits | codebase_time_machine/analysis.py:23-24 | the joined commits of a file are the stored commits with a change row for it |
| Ownership.RowsCommitsCount | codebase_time_machine/analysis.py:18 | a file's commit counts summed over rows equal the sum over its groups |
| Ownership.OwnershipCommitCounts | codebase_time_machine/analysis.py:13-26 | for every file, the `commits` of its ownership rows add up to the number of distinct stored commits touching it |
| Ownership.ComputeOwnership | codebase_time_machine/analysis.py:8-28 | the table is emptied, then holds exactly the aggregate of the current `commit_files` and `commits` |
| Qa.RouteOf | codebase_time_machine/qa.py:26-33 | a question naming an auth keyword goes to `evolution`; otherwise one containing why/reason/motivation/pattern goes to `why_search`; otherwise to keyword search |
| Qa.SplitWords | codebase_time_machine/qa.py:35 | `re.split(r"[^a-z0-9]+")`: pieces of `[a-z0-9]` only, none empty except possibly the first and the last |
| Qa.SplitWordsSeparators | codebase_time_machine/qa.py:35 | the question is its pieces with a non-empty run of other characters between each two: the pieces are the maximal `[a-z0-9]` runs, in order, split exactly at the runs of other characters |
| Qa.SplitWordsOfWord | codebase_time_machine/qa.py:35 | a string of `[a-z0-9]` only is one piece |
| Qa.SplitWordsFirst | codebase_time_machine/qa.py:35 | the first piece ends at the first separator and does not depend on what follows |
| Qa.SplitWordsKeepsWordChars | codebase_time_machine/qa.py:35 | the pieces put back together are the question's `[a-z0-9]` characters, in order |
| Qa.Keywords | codebase_time_machine/qa.py:35 | the keywords are exactly the pieces of length at least 3, each of `[a-z0-9]` only, in piece order |
| Qa.KeywordsOfWord | codebase_time_machine/qa.py:35 | a question of `[a-z0-9]` only is its own keyword when at least 3 long, and has none otherwise |
| Qa.KeywordsSplit | codebase_time_machine/qa.py:35 | a character outside `[a-z0-9]` splits the keywords into those before it followed by those after it; with the previous row this fixes the keywords, their order and repetitions, of every question |
| Qa.LikePatternSplits | codebase_time_machine/qa.py:38 | the pattern `%k1%...%kn%` splits back at `%` into its keywords, in order, between two empty ends |
| Qa.KeywordPatternSplits | codebase_time_machine/qa.py:35-38 | the same for the keywords of any question that has some |
| Qa.WhyWords | codebase_time_machine/qa.py:87-88 | the words searched are the rationale words present in the query, each once and in list order (a subsequence of the list); `why` alone when none is present |
| Qa.WhyRouteUsesQueryWords | codebase_time_machine/qa.py:31-32 | reached from `ask`, `why_search` searches only for words the question contains, so the default never applies |
| Qa.EvolutionParams | codebase_time_machine/qa.py:69 | one parameter `%k%` per keyword |
| Qa.ClausePlaceholders | codebase_time_machine/qa.py:68 | the OR-joined clause for `n` keywords holds exactly `n` `?` placeholders |
| Qa.EvolutionPlaceholders | codebase_time_machine/qa.py:68-69 | the `evolution` query has as many placeholders as parameters, one per keyword |
| Qa.FirstLine | codebase_time_machine/qa.py:17 | the message up to its first `splitlines` boundary, empty for an empty message |
| Qa.Prefix | codebase_time_machine/qa.py:17 | `id[:10]`: the first ten characters, or the whole id when shorter |
| Qa.RowLines | codebase_time_machine/qa.py:15-17 | one line per row |
| Qa.RowsToStr | codebase_time_machine/qa.py:13-18 | the loop builds one line per row and joins them with newlines |
| Qa.RowLineSingle | codebase_time_machine/qa.py:16-17 | a row whose date, id and author hold no newline formats to a single line |
| Qa.RowsTextLines | codebase_time_machine/qa.py:13-18 | such rows' text splits at newlines back into exactly one line per row, in order |
| Qa.EvolutionAnswer | codebase_time_machine/qa.py:67-83 | with no rows, `{title}: no related commits found.`; otherwise the title, a colon, a newline and the rows' text; either way the answer begins with the title |
| Qa.WhySearchAnswer | codebase_time_machine/qa.py:86-100 | the rationale search with the `why` pattern: its rows' text, or the fixed no-rationale message when it finds none |
| Qa.KeywordAnswer | codebase_time_machine/qa.py:34-64 | no keyword gives the fixed hint; otherwise the message matches' text if any, else the path matches' text if any, else `No relevant commits found.` |
| Qa.Ask | codebase_time_machine/qa.py:24-64 | an auth question gets `evolution` over the auth keywords under the authentication title; a rationale question gets `why_search`; any other question gets the keyword search, and a keyword-less one the fixed hint |

## Left out

- GitPython is not modelled (`Repo`, `iter_commits("--all")`, `c.diff(parent)`, `c.stats`, blob streams). A commit list with diff entries, stats and the decoded text of each entry's b-side blob is an input. `clone_if_needed` and `open_repo` are repository I/O.
- Lizard's analysis is a function parameter (`Analyzer`). Only its NLOC and per-function complexity are read, as at git_indexer.py:91-93. `errors='ignore'` decoding of the blob is folded into that input text.
- Normalize.ComplexitySample: the guard `analyze_code_string is not None` (git_indexer.py:85) is always true, because both import branches define the function. The fallback therefore reaches the call and gets None, which the model treats as no sample.
- SQLite itself is not modelled: transactions, `conn.commit()` durability, WAL, and the connections being separate objects. `PRAGMA foreign_keys` and the foreign keys (not enforced on the connection opened at git_indexer.py:61) are not modelled either.
- The SQL engine behind `ask` is not modelled: LIKE matching, `lower(message)`, DISTINCT, ORDER BY authored_date, and LIMIT 20/100/200. `Qa.Queries` takes these queries as function parameters, and the limits are passed to them.
- `datetime.utcfromtimestamp(...).strftime("%Y-%m-%d")` is a parameter of the row formatting.
- NULL columns are not modelled (`c.message or ""`, `COALESCE`, a NULL date). The indexer never writes NULL into the columns used.
- Text.Lower: only ASCII letters are lowered. Python's Unicode case mapping (including length-changing mappings) is not modelled.
- Text.Upper: only ASCII letters are raised, for the same reason. Change types are ASCII.
- Features.IssueNumberAt: `\d` matches ASCII digits only. Python also accepts other Unicode decimal digits.
- The ownership rows come out in order of first appearance of each `(file_id, author_email)` group. SQLite's row order for GROUP BY is unspecified, and no property depends on it.
- Ownership.ComputeOwnership: the separate commit between DELETE and INSERT is modelled only as the intermediate empty table. A failure during the INSERT is not modelled.
- `ensure_indexes` (analysis.py:31-39) only adds indexes and never changes table contents. `connect`, `init_db`'s executescript, `tqdm` progress bars, `cli.py` and `visualize.py` are not part of this model.
- Exceptions from GitPython or SQLite are not modelled. The analyzer raising is modelled (`Analysis.Raised`) and yields no sample, as the `except Exception: pass` does.

## Findings

| source | as written | input that shows it | evidently intended | confidence | as-written member | corrected member |
|---|---|---|---|---|---|---|
| codebase_time_machine/db.py:88-90 | returns `cur.lastrowid` whenever it is non-zero; after an ignored INSERT that is the connection's previous insert's rowid | upsert `a.py` (id 1), then `b.py` (id 2), then `a.py` again: returns 2 | return the id stored for the path | not executed | Db.UpsertFileReturnsStaleRowid | Db.Store.UpsertFile |

On the connection opened at git_indexer.py:61, `bulk_insert_commits` runs first. The rowid of the last inserted commit is therefore already non-zero before the first `upsert_file`. `Db.UpsertFileAsWritten` models the function as written, and `Db.UpsertFileStaleExample` gives the concrete input. The rest of the model resolves paths with `Db.Store.UpsertFile`. Every `commit_files` row then carries the id stored for its path (`Indexer.DiffPassResolved`).

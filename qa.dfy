/** The question answering of qa.py, restricted to its string logic:
    routing a question, tokenising it into keywords, building the LIKE
    patterns and the `evolution` query parameters, and formatting result
    rows. The SQL queries themselves are parameters (`Queries`), and so is
    the date formatter. */
module Qa {
  import opened Text
  import opened Db

  /** `DEFAULT_LIMIT`. */
  const DefaultLimit: nat := 20

  /** `auth_keywords`. */
  const AuthKeywords: seq<string> :=
    ["auth", "login", "signin", "jwt", "oauth", "sso", "session", "password", "authorization", "authentication"]

  const AuthTitle: string := "Authentication / Authorization evolution"

  /** The words that send a question to `why_search`. */
  const RoutingWords: seq<string> := ["why", "reason", "motivation", "pattern"]

  /** The rationale words of `why_search`, in list order. */
  const WhySearchKeywords: seq<string> :=
    ["why", "because", "reason", "motivation", "introduc", "refactor", "rfc", "design", "pattern"]

  const NoKeywordsMessage: string := "No searchable keywords detected. Try a more specific query."
  const NoRelevantMessage: string := "No relevant commits found."
  const NoRationaleMessage: string :=
    "No explicit rationale found in commit messages. Try different keywords or search an RFC directory."

  /** Which of the three answers `ask` gives. */
  datatype Route = Evolution | WhySearch | KeywordSearch

  /** The dispatch of `ask` on the lower-cased question `q`: any auth
      keyword wins; otherwise any routing word; otherwise keyword search. */
  function RouteOf(q: string): (r: Route)
    ensures r == Evolution <==> exists i :: 0 <= i < |AuthKeywords| && Contains(q, AuthKeywords[i])
    ensures r == WhySearch <==>
              && !(exists i :: 0 <= i < |AuthKeywords| && Contains(q, AuthKeywords[i]))
              && exists i :: 0 <= i < |RoutingWords| && Contains(q, RoutingWords[i])
  {
    if AnyContained(AuthKeywords, q) then Evolution
    else if Contains(q, "why") || Contains(q, "reason") || Contains(q, "motivation") || Contains(q, "pattern") then
      assert RoutingWords[0] == "why" && RoutingWords[1] == "reason";
      assert RoutingWords[2] == "motivation" && RoutingWords[3] == "pattern";
      WhySearch
    else
      assert forall i :: 0 <= i < |RoutingWords| ==> RoutingWords[i] in {"why", "reason", "motivation", "pattern"};
      KeywordSearch
  }

  /** The characters `[a-z0-9]` that `re.split(r"[^a-z0-9]+", q)` keeps. */
  predicate IsWordChar(c: char) {
    'a' <= c <= 'z' || '0' <= c <= '9'
  }

  /** `re.split(r"[^a-z0-9]+", s)`: the pieces between maximal runs of
      other characters. Every piece is made of word characters, and no
      piece but the first and the last is empty. */
  function SplitWords(s: string): (r: seq<string>)
    ensures |r| >= 1
    ensures forall i :: 0 <= i < |r| ==> forall k :: 0 <= k < |r[i]| ==> IsWordChar(r[i][k])
    ensures forall i :: 0 < i < |r| - 1 ==> r[i] != ""
    ensures s != [] && IsWordChar(s[0]) ==> r[0] != "" && r[0][0] == s[0]
    ensures s != [] && !IsWordChar(s[0]) ==> r[0] == ""
  {
    if s == [] then [""]
    else
      var rest := SplitWords(s[1..]);
      if IsWordChar(s[0]) then [[s[0]] + rest[0]] + rest[1..]
      else if |s| > 1 && !IsWordChar(s[1]) then rest
      else [""] + rest
  }

  /** The word characters of `s`, in order. */
  function WordChars(s: string): string {
    if s == [] then [] else (if IsWordChar(s[0]) then [s[0]] else []) + WordChars(s[1..])
  }

  /** The concatenation of pieces. */
  function Concat(xs: seq<string>): string {
    if xs == [] then [] else xs[0] + Concat(xs[1..])
  }

  /** Splitting loses exactly the separators: the pieces put back together
      are the question's word characters, in order. */
  lemma {:induction false} SplitWordsKeepsWordChars(s: string)
    ensures Concat(SplitWords(s)) == WordChars(s)
  {
    if s != [] {
      var rest := SplitWords(s[1..]);
      SplitWordsKeepsWordChars(s[1..]);
      assert Concat(rest) == rest[0] + Concat(rest[1..]);
      if IsWordChar(s[0]) {
        var r := [[s[0]] + rest[0]] + rest[1..];
        assert r[1..] == rest[1..];
        assert Concat(r) == [s[0]] + rest[0] + Concat(rest[1..]);
      } else if |s| > 1 && !IsWordChar(s[1]) {
      } else {
        var r := [""] + rest;
        assert r[1..] == rest;
        assert Concat(r) == "" + Concat(rest);
        assert "" + Concat(rest) == Concat(rest);
      }
    }
  }

  /** A non-empty run of characters outside `[a-z0-9]`. */
  predicate IsSeparator(g: string) {
    g != [] && forall k :: 0 <= k < |g| ==> !IsWordChar(g[k])
  }

  /** `ps[0] + gs[0] + ps[1] + ... + gs[n-2] + ps[n-1]`: pieces put back
      with what stood between them. */
  function Interleave(ps: seq<string>, gs: seq<string>): string
    requires |ps| == |gs| + 1
  {
    if gs == [] then ps[0] else ps[0] + gs[0] + Interleave(ps[1..], gs[1..])
  }

  /** The split points: `s` is its pieces with a non-empty run of other
      characters between each two of them. As the pieces hold only word
      characters and the inner ones are non-empty, those runs are the
      maximal runs of other characters of `s`, and the pieces are the
      maximal runs of word characters, in order, with an empty first
      (last) piece when `s` starts (ends) with a separator. */
  lemma {:induction false} SplitWordsSeparators(s: string) returns (gs: seq<string>)
    ensures |gs| == |SplitWords(s)| - 1
    ensures forall i :: 0 <= i < |gs| ==> IsSeparator(gs[i])
    ensures Interleave(SplitWords(s), gs) == s
  {
    if s == [] {
      gs := [];
    } else {
      var rest := SplitWords(s[1..]);
      var tail := SplitWordsSeparators(s[1..]);
      assert s == [s[0]] + s[1..];
      if IsWordChar(s[0]) {
        gs := tail;
        InterleaveWordChar(s[0], rest, tail);
      } else if |s| > 1 && !IsWordChar(s[1]) {
        assert s[1..][0] == s[1] && rest[0] == "";
        assert tail != [];
        gs := [[s[0]] + tail[0]] + tail[1..];
        InterleaveLongerSeparator(s[0], rest, tail);
      } else {
        gs := [[s[0]]] + tail;
        InterleaveNewSeparator(s[0], rest, tail);
      }
    }
  }

  lemma InterleaveWordChar(c: char, ps: seq<string>, gs: seq<string>)
    requires |ps| == |gs| + 1
    ensures Interleave([[c] + ps[0]] + ps[1..], gs) == [c] + Interleave(ps, gs)
  {
    var qs := [[c] + ps[0]] + ps[1..];
    assert qs[0] == [c] + ps[0] && qs[1..] == ps[1..];
  }

  lemma InterleaveLongerSeparator(c: char, ps: seq<string>, gs: seq<string>)
    requires |ps| == |gs| + 1 && gs != [] && ps[0] == ""
    ensures Interleave(ps, [[c] + gs[0]] + gs[1..]) == [c] + Interleave(ps, gs)
  {
    var hs := [[c] + gs[0]] + gs[1..];
    var after := Interleave(ps[1..], gs[1..]);
    assert hs[0] == [c] + gs[0] && hs[1..] == gs[1..];
    assert Interleave(ps, hs) == [] + ([c] + gs[0]) + after;
    assert Interleave(ps, gs) == [] + gs[0] + after;
  }

  lemma InterleaveNewSeparator(c: char, ps: seq<string>, gs: seq<string>)
    requires |ps| == |gs| + 1
    ensures Interleave([""] + ps, [[c]] + gs) == [c] + Interleave(ps, gs)
  {
    var qs := [""] + ps;
    var hs := [[c]] + gs;
    assert qs[1..] == ps && hs[1..] == gs;
  }

  /** A string of word characters only is a single piece. */
  lemma {:induction false} SplitWordsOfWord(w: string)
    requires forall k :: 0 <= k < |w| ==> IsWordChar(w[k])
    ensures SplitWords(w) == [w]
  {
    if w != [] {
      SplitWordsOfWord(w[1..]);
      assert [w[0]] + w[1..] == w;
    }
  }

  /** The first piece is the longest prefix of word characters: it ends
      at the first separator and does not depend on what follows it. */
  lemma {:induction false} SplitWordsFirst(a: string, c: char, b: string)
    requires !IsWordChar(c)
    ensures SplitWords(a + [c] + b)[0] == SplitWords(a)[0]
  {
    if a == [] {
      assert a + [c] + b == [c] + b;
    } else {
      assert (a + [c] + b)[1..] == a[1..] + [c] + b;
      SplitWordsFirst(a[1..], c, b);
    }
  }

  predicate IsKeyword(w: string) {
    |w| >= 3
  }

  /** `[w for w in re.split(...) if len(w) >= 3]`. */
  function Keywords(q: string): (ks: seq<string>)
    ensures forall i :: 0 <= i < |ks| ==> |ks[i]| >= 3 && forall k :: 0 <= k < |ks[i]| ==> IsWordChar(ks[i][k])
    ensures forall i :: 0 <= i < |ks| ==> ks[i] in SplitWords(q)
    ensures forall w :: w in SplitWords(q) && |w| >= 3 ==> w in ks
    ensures IsSubsequence(ks, SplitWords(q))
  {
    var ws := SplitWords(q);
    var ks := Filter(ws, IsKeyword);
    assert forall i :: 0 <= i < |ks| ==> exists j :: 0 <= j < |ws| && ws[j] == ks[i];
    ks
  }

  /** A question of word characters only has itself as its one keyword
      when it is long enough, and none otherwise (the empty question
      included). */
  lemma KeywordsOfWord(w: string)
    requires forall k :: 0 <= k < |w| ==> IsWordChar(w[k])
    ensures Keywords(w) == if |w| >= 3 then [w] else []
  {
    SplitWordsOfWord(w);
  }

  lemma FilterSkipsEmpty(ws: seq<string>)
    ensures Filter([""] + ws, IsKeyword) == Filter(ws, IsKeyword)
  {
    FilterAppend([""], ws, IsKeyword);
  }

  /** A character outside `[a-z0-9]` splits the keywords in two: those of
      the text before it, then those of the text after it. With
      `KeywordsOfWord` this fixes the keywords of every question, their
      order and their repetitions included. */
  lemma {:induction false} KeywordsSplit(a: string, c: char, b: string)
    requires !IsWordChar(c)
    ensures Keywords(a + [c] + b) == Keywords(a) + Keywords(b)
  {
    if a == [] {
      assert a + [c] + b == [c] + b;
      KeywordsSeparatorStep(c, b);
    } else {
      var x := a[0];
      var t := a[1..] + [c] + b;
      assert a + [c] + b == [x] + t;
      assert a == [x] + a[1..];
      KeywordsSplit(a[1..], c, b);
      if IsWordChar(x) {
        SplitWordsFirst(a[1..], c, b);
        KeywordsWordStep(x, t);
        KeywordsWordStep(x, a[1..]);
        var R := SplitWords(t);
        var R' := SplitWords(a[1..]);
        PiecesCancel(R, R', Keywords(b));
        AppendAssoc(Filter([[x] + R'[0]], IsKeyword), Filter(R'[1..], IsKeyword), Keywords(b));
      } else {
        KeywordsSeparatorStep(x, t);
        KeywordsSeparatorStep(x, a[1..]);
      }
    }
  }

  /** A leading word character joins the first piece. */
  lemma KeywordsWordStep(x: char, t: string)
    requires IsWordChar(x)
    ensures var r := SplitWords(t);
            Keywords([x] + t) == Filter([[x] + r[0]], IsKeyword) + Filter(r[1..], IsKeyword)
  {
    var r := SplitWords(t);
    assert ([x] + t)[1..] == t;
    FilterAppend([[x] + r[0]], r[1..], IsKeyword);
  }

  /** A leading separator character only starts or extends a separator. */
  lemma KeywordsSeparatorStep(x: char, t: string)
    requires !IsWordChar(x)
    ensures Keywords([x] + t) == Keywords(t)
  {
    assert ([x] + t)[1..] == t;
    FilterSkipsEmpty(SplitWords(t));
  }

  /** Two piece lists with the same first piece whose keywords differ by
      a suffix differ by it after the first piece too. */
  lemma PiecesCancel(r: seq<string>, r': seq<string>, k: seq<string>)
    requires |r| >= 1 && |r'| >= 1 && r[0] == r'[0]
    requires Filter(r, IsKeyword) == Filter(r', IsKeyword) + k
    ensures Filter(r[1..], IsKeyword) == Filter(r'[1..], IsKeyword) + k
  {
    FilterFirst(r, IsKeyword);
    FilterFirst(r', IsKeyword);
    var p := Filter([r[0]], IsKeyword);
    assert [r'[0]] == [r[0]];
    PrefixCancel(p, Filter(r[1..], IsKeyword), Filter(r'[1..], IsKeyword), k);
  }

  /** `"%" + "%".join(ks) + "%"`. */
  function LikePattern(ks: seq<string>): string {
    "%" + Join(ks, "%") + "%"
  }

  lemma {:induction false} JoinSnoc(xs: seq<string>, x: string, sep: string)
    requires |xs| >= 1
    ensures Join(xs + [x], sep) == Join(xs, sep) + sep + x
    decreases |xs|
  {
    if |xs| == 1 {
      assert xs + [x] == [xs[0], x];
    } else {
      assert (xs + [x])[1..] == xs[1..] + [x];
      JoinSnoc(xs[1..], x, sep);
    }
  }

  /** The pattern of keywords free of `%` can be split back into its
      keywords, with the empty pieces before the first `%` and after the
      last one: the keywords appear in order, each matched by the `%`
      wildcards around it. */
  lemma LikePatternSplits(ks: seq<string>)
    requires |ks| >= 1
    requires forall i :: 0 <= i < |ks| ==> '%' !in ks[i]
    ensures SplitOn(LikePattern(ks), '%') == [""] + ks + [""]
  {
    var xs := [""] + ks + [""];
    JoinSnoc(ks, "", "%");
    assert xs == [""] + (ks + [""]);
    assert xs[1..] == ks + [""];
    assert Join(xs, "%") == "" + "%" + Join(ks + [""], "%");
    assert Join(xs, "%") == LikePattern(ks);
    forall x | x in xs ensures '%' !in x {
      if x != "" {
        var i :| 0 <= i < |ks| && ks[i] == x;
      }
    }
    SplitJoin(xs, '%');
  }

  /** The pattern keyword search sends to both queries: the keywords of
      the question, in order, between `%` wildcards. */
  lemma KeywordPatternSplits(q: string)
    requires Keywords(q) != []
    ensures SplitOn(LikePattern(Keywords(q)), '%') == [""] + Keywords(q) + [""]
  {
    var ks := Keywords(q);
    forall i | 0 <= i < |ks| ensures '%' !in ks[i] {
      assert forall k :: 0 <= k < |ks[i]| ==> ks[i][k] != '%';
    }
    LikePatternSplits(ks);
  }

  /** `[w for w in keywords if w in query.lower()] or ["why"]`: the
      rationale words present in the query, in list order, or `why` alone
      when there is none. */
  function WhyWords(query: string): (ws: seq<string>)
    ensures ws != []
    ensures forall i :: 0 <= i < |ws| ==> ws[i] in WhySearchKeywords
    ensures ws == ["why"] || forall i :: 0 <= i < |ws| ==> Contains(Lower(query), ws[i])
    ensures forall i :: 0 <= i < |WhySearchKeywords| && Contains(Lower(query), WhySearchKeywords[i]) ==>
              WhySearchKeywords[i] in ws
    ensures (forall i :: 0 <= i < |WhySearchKeywords| ==> !Contains(Lower(query), WhySearchKeywords[i])) ==>
              ws == ["why"]
    ensures IsSubsequence(ws, WhySearchKeywords)
  {
    var present := Filter(WhySearchKeywords, (w: string) => Contains(Lower(query), w));
    if present == [] then ["why"] else present
  }

  /** Reached from `ask`, `why_search` searches only for words the
      question holds: it holds a routing word, and every routing word is a
      rationale word, so the default is never needed. */
  lemma WhyRouteUsesQueryWords(question: string)
    requires RouteOf(Lower(question)) == WhySearch
    ensures forall i :: 0 <= i < |WhyWords(Lower(question))| ==> Contains(Lower(question), WhyWords(Lower(question))[i])
  {
    var q := Lower(question);
    var ws := WhyWords(q);
    LowerIdempotent(question);
    var i :| 0 <= i < |RoutingWords| && Contains(q, RoutingWords[i]);
    var j := RoutingWordIsWhyKeyword(i);
    assert Contains(Lower(q), WhySearchKeywords[j]);
  }

  /** Every routing word is one of the rationale words. */
  lemma RoutingWordIsWhyKeyword(i: nat) returns (j: nat)
    requires i < |RoutingWords|
    ensures j < |WhySearchKeywords| && WhySearchKeywords[j] == RoutingWords[i]
  {
    j := if i == 0 then 0 else if i == 1 then 2 else if i == 2 then 3 else 8;
  }

  /** The pattern of `why_search`. */
  function WhyPattern(query: string): string {
    LikePattern(WhyWords(query))
  }

  const PathClause: string := "f.path LIKE ?"

  function Repeat(x: string, n: nat): (r: seq<string>)
    ensures |r| == n
    ensures forall i :: 0 <= i < n ==> r[i] == x
  {
    if n == 0 then [] else [x] + Repeat(x, n - 1)
  }

  /** `" OR ".join(["f.path LIKE ?"] * n)`. */
  function EvolutionClauses(n: nat): string {
    Join(Repeat(PathClause, n), " OR ")
  }

  /** `[f"%{k}%" for k in keywords]`. */
  function EvolutionParams(ks: seq<string>): (ps: seq<string>)
    ensures |ps| == |ks|
    ensures forall i :: 0 <= i < |ks| ==> ps[i] == "%" + ks[i] + "%"
  {
    seq(|ks|, i requires 0 <= i < |ks| => "%" + ks[i] + "%")
  }

  /** One more clause puts `f.path LIKE ? OR ` in front. */
  lemma ClausesStep(n: nat)
    requires n >= 2
    ensures EvolutionClauses(n) == PathClause + " OR " + EvolutionClauses(n - 1)
  {
    var xs := Repeat(PathClause, n);
    assert xs[1..] == Repeat(PathClause, n - 1);
  }

  /** The number of occurrences of `c` in `s`. */
  function Occurrences(s: string, c: char): nat
    decreases |s|
  {
    if s == [] then 0 else Occurrences(s[..|s| - 1], c) + (if s[|s| - 1] == c then 1 else 0)
  }

  lemma {:induction false} OccurrencesAppend(a: string, b: string, c: char)
    ensures Occurrences(a + b, c) == Occurrences(a, c) + Occurrences(b, c)
    decreases |b|
  {
    if b != [] {
      assert (a + b)[..|a + b| - 1] == a + b[..|b| - 1];
      assert (a + b)[|a + b| - 1] == b[|b| - 1];
      OccurrencesAppend(a, b[..|b| - 1], c);
    } else {
      assert a + b == a;
    }
  }

  lemma {:induction false} OccurrencesNone(s: string, c: char)
    requires forall k :: 0 <= k < |s| ==> s[k] != c
    ensures Occurrences(s, c) == 0
    decreases |s|
  {
    if s != [] {
      OccurrencesNone(s[..|s| - 1], c);
    }
  }

  lemma ClauseHasOnePlaceholder()
    ensures Occurrences(PathClause, '?') == 1
    ensures Occurrences(PathClause + " OR ", '?') == 1
  {
    var head := "f.path LIKE ";
    assert PathClause == head + "?";
    OccurrencesNone(head, '?');
    OccurrencesNone(" OR ", '?');
    OccurrencesAppend(head, "?", '?');
    OccurrencesAppend(PathClause, " OR ", '?');
  }

  lemma {:induction false} ClausePlaceholders(n: nat)
    ensures Occurrences(EvolutionClauses(n), '?') == n
    decreases n
  {
    ClauseHasOnePlaceholder();
    if n >= 2 {
      ClausePlaceholders(n - 1);
      ClausesStep(n);
      OccurrencesAppend(PathClause + " OR ", EvolutionClauses(n - 1), '?');
    }
  }

  /** The `evolution` query has one `?` placeholder per parameter, one
      parameter per keyword. */
  lemma EvolutionPlaceholders(ks: seq<string>)
    ensures Occurrences(EvolutionClauses(|ks|), '?') == |EvolutionParams(ks)| == |ks|
  {
    ClausePlaceholders(|ks|);
  }

  predicate IsLineBoundary(c: char) {
    c as int in {0x0a, 0x0b, 0x0c, 0x0d, 0x1c, 0x1d, 0x1e, 0x85, 0x2028, 0x2029}
  }

  /** `m.splitlines()[0] if m else ''`: the text before the first line
      boundary. */
  function FirstLine(m: string): (r: string)
    ensures |r| <= |m| && r == m[..|r|]
    ensures forall k :: 0 <= k < |r| ==> !IsLineBoundary(r[k])
    ensures |r| == |m| || IsLineBoundary(m[|r|])
  {
    if m == [] || IsLineBoundary(m[0]) then "" else [m[0]] + FirstLine(m[1..])
  }

  /** `s[:n]`. */
  function Prefix(s: string, n: nat): (r: string)
    ensures |r| == if |s| <= n then |s| else n
    ensures r == s[..|r|]
  {
    if |s| <= n then s else s[..n]
  }

  /** The date column: the formatted date, or empty for a zero timestamp. */
  function DateText(date: int, formatDate: int -> string): string {
    if date != 0 then formatDate(date) else ""
  }

  /** One line of `_rows_to_str`. */
  function RowLine(r: CommitRow, formatDate: int -> string): string {
    DateText(r.authoredDate, formatDate) + " | " + Prefix(r.id, 10) + " | " + r.authorName
      + " <" + r.authorEmail + "> | " + FirstLine(r.message)
  }

  function RowLines(rows: seq<CommitRow>, formatDate: int -> string): (lines: seq<string>)
    ensures |lines| == |rows|
  {
    seq(|rows|, i requires 0 <= i < |rows| => RowLine(rows[i], formatDate))
  }

  /** What `_rows_to_str` returns. */
  function RowsText(rows: seq<CommitRow>, formatDate: int -> string): string {
    Join(RowLines(rows, formatDate), "\n")
  }

  /** `_rows_to_str`: builds the lines one row at a time, then joins them. */
  method RowsToStr(rows: seq<CommitRow>, formatDate: int -> string) returns (s: string)
    ensures s == RowsText(rows, formatDate)
  {
    var lines: seq<string> := [];
    for i := 0 to |rows|
      invariant lines == RowLines(rows[..i], formatDate)
    {
      lines := lines + [RowLine(rows[i], formatDate)];
    }
    assert rows[..|rows|] == rows;
    s := Join(lines, "\n");
  }

  /** A row whose id, author and formatted date hold no newline. */
  predicate Printable(r: CommitRow, formatDate: int -> string) {
    '\n' !in DateText(r.authoredDate, formatDate) && '\n' !in r.id && '\n' !in r.authorName && '\n' !in r.authorEmail
  }

  /** A printable row's line holds no newline: the message contributes
      only its first line. */
  lemma RowLineSingle(r: CommitRow, formatDate: int -> string)
    requires Printable(r, formatDate)
    ensures '\n' !in RowLine(r, formatDate)
  {
    var first := FirstLine(r.message);
    assert '\n' !in first by {
      assert forall k :: 0 <= k < |first| ==> first[k] != '\n';
    }
    var id := Prefix(r.id, 10);
    assert '\n' !in id by {
      assert forall k :: 0 <= k < |id| ==> id[k] == r.id[k];
    }
    assert '\n' !in " | " && '\n' !in " <" && '\n' !in "> | ";
  }

  /** With printable rows, the text has exactly one line per row, in row
      order: splitting it at newlines gives back the row lines. */
  lemma RowsTextLines(rows: seq<CommitRow>, formatDate: int -> string)
    requires |rows| >= 1
    requires forall i :: 0 <= i < |rows| ==> Printable(rows[i], formatDate)
    ensures SplitOn(RowsText(rows, formatDate), '\n') == RowLines(rows, formatDate)
  {
    var lines := RowLines(rows, formatDate);
    forall x | x in lines ensures '\n' !in x {
      var i :| 0 <= i < |lines| && lines[i] == x;
      RowLineSingle(rows[i], formatDate);
    }
    SplitJoin(lines, '\n');
  }

  /** The queries `ask` runs, each with its LIMIT, oldest commit first;
      they are outside this model. */
  datatype Queries = Queries(
    messageLike: (string, nat) -> seq<CommitRow>,
    pathLike: (string, nat) -> seq<CommitRow>,
    anyPathLike: (string, seq<string>, nat) -> seq<CommitRow>,
    lowerMessageLike: (string, nat) -> seq<CommitRow>)

  /** `evolution(conn, keywords, title)`. */
  function EvolutionAnswer(db: Queries, ks: seq<string>, title: string, formatDate: int -> string): (a: string)
    ensures |a| > |title| && a[..|title|] == title
    ensures var rows := db.anyPathLike(EvolutionClauses(|ks|), EvolutionParams(ks), 200);
      (rows == [] ==> a == title + ": no related commits found.") &&
      (rows != [] ==> a == title + ":\n" + RowsText(rows, formatDate))
  {
    var rows := db.anyPathLike(EvolutionClauses(|ks|), EvolutionParams(ks), 200);
    var a := if rows == [] then title + ": no related commits found." else title + ":\n" + RowsText(rows, formatDate);
    assert a == title + (a[|title|..]);
    a
  }

  /** `why_search(conn, query)`. */
  function WhySearchAnswer(db: Queries, query: string, formatDate: int -> string): (a: string)
    ensures var rows := db.lowerMessageLike(WhyPattern(query), 100);
      (rows == [] ==> a == NoRationaleMessage) && (rows != [] ==> a == RowsText(rows, formatDate))
  {
    var rows := db.lowerMessageLike(WhyPattern(query), 100);
    if rows == [] then NoRationaleMessage else RowsText(rows, formatDate)
  }

  /** The keyword search fallback of `ask`: messages first, then paths. */
  function KeywordAnswer(db: Queries, q: string, formatDate: int -> string): (a: string)
    ensures Keywords(q) == [] ==> a == NoKeywordsMessage
    ensures Keywords(q) != [] ==>
      var byMessage := db.messageLike(LikePattern(Keywords(q)), DefaultLimit);
      var byPath := db.pathLike(LikePattern(Keywords(q)), DefaultLimit);
      (byMessage != [] ==> a == RowsText(byMessage, formatDate)) &&
      (byMessage == [] && byPath != [] ==> a == RowsText(byPath, formatDate)) &&
      (byMessage == [] && byPath == [] ==> a == NoRelevantMessage)
  {
    var ks := Keywords(q);
    if ks == [] then NoKeywordsMessage
    else
      var pattern := LikePattern(ks);
      var byMessage := db.messageLike(pattern, DefaultLimit);
      if byMessage != [] then RowsText(byMessage, formatDate)
      else
        var byPath := db.pathLike(pattern, DefaultLimit);
        if byPath != [] then RowsText(byPath, formatDate) else NoRelevantMessage
  }

  /** `ask(db_path, question)`. A question naming an auth keyword is
      answered under the authentication title; one with a routing word and
      no auth keyword by the rationale search; any other question without
      a keyword of three or more characters gets the fixed hint. */
  function Ask(db: Queries, question: string, formatDate: int -> string): (answer: string)
    ensures (exists i :: 0 <= i < |AuthKeywords| && Contains(Lower(question), AuthKeywords[i])) ==>
              answer == EvolutionAnswer(db, AuthKeywords, AuthTitle, formatDate) &&
              |answer| > |AuthTitle| && answer[..|AuthTitle|] == AuthTitle
    ensures RouteOf(Lower(question)) == WhySearch ==> answer == WhySearchAnswer(db, Lower(question), formatDate)
    ensures RouteOf(Lower(question)) == KeywordSearch ==> answer == KeywordAnswer(db, Lower(question), formatDate)
    ensures RouteOf(Lower(question)) == KeywordSearch && Keywords(Lower(question)) == [] ==> answer == NoKeywordsMessage
  {
    var q := Lower(question);
    match RouteOf(q)
    case Evolution => EvolutionAnswer(db, AuthKeywords, AuthTitle, formatDate)
    case WhySearch => WhySearchAnswer(db, q, formatDate)
    case KeywordSearch => KeywordAnswer(db, q, formatDate)
  }
}

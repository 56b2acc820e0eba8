/** Feature references and the rationale marker taken from a commit message
    (`FEATURE_PATTERNS` and `WHY_KEYWORDS` of git_indexer.py). The three
    regular expressions are written out as matchers, `finditer` as the
    leftmost, non-overlapping scan, and the rationale test as a substring
    search over the lower-cased message. */
module Features {
  import opened Text
  import opened Db

  datatype Pattern = FixesIssue | ClosesIssue | TicketId

  /** `FEATURE_PATTERNS`, in list order. */
  const FeaturePatterns: seq<Pattern> := [FixesIssue, ClosesIssue, TicketId]

  /** `pat.pattern`, the text stored in the `type` column. */
  function PatternSource(p: Pattern): string {
    match p
    case FixesIssue => "fixe?s?\\s+#(?P<num>\\d+)"
    case ClosesIssue => "close[sd]?\\s+#(?P<num>\\d+)"
    case TicketId => "(?P<jira>[A-Z][A-Z0-9]+-\\d+)"
  }

  /** `\s` on a str pattern: the characters `str.isspace` accepts. */
  predicate IsSpace(c: char) {
    var n := c as int;
    || 9 <= n <= 13 || 28 <= n <= 32 || n == 0x85 || n == 0xA0 || n == 0x1680
    || 0x2000 <= n <= 0x200A || n == 0x2028 || n == 0x2029 || n == 0x202F
    || n == 0x205F || n == 0x3000
  }

  /** `\d`, restricted to the ASCII digits. */
  predicate IsDigit(c: char) {
    '0' <= c <= '9'
  }

  /** `[A-Z0-9]`. */
  predicate IsUpperOrDigit(c: char) {
    'A' <= c <= 'Z' || IsDigit(c)
  }

  /** Under `re.I`, `c` matches the lower-case pattern letter `l`: the ASCII
      pair, plus U+0130 and U+0131 for `i` and U+017F for `s`. */
  predicate FoldsTo(c: char, l: char) {
    || LowerChar(c) == l
    || (l == 'i' && (c as int == 0x130 || c as int == 0x131))
    || (l == 's' && c as int == 0x17F)
  }

  /** `s[i..]` begins with `word` under `re.I`. */
  predicate WordAt(s: string, i: nat, word: string) {
    i + |word| <= |s| && forall k :: 0 <= k < |word| ==> FoldsTo(s[i + k], word[k])
  }

  /** The character classes the three patterns use: `\s`, `\d`, `[A-Z0-9]`,
      and the optional letters `e?`, `s?` and `[sd]?` under `re.I`. */
  datatype CharClass = Space | Digit | UpperOrDigit | FoldE | FoldS | FoldSD

  predicate InClass(cc: CharClass, c: char) {
    match cc
    case Space => IsSpace(c)
    case Digit => IsDigit(c)
    case UpperOrDigit => IsUpperOrDigit(c)
    case FoldE => FoldsTo(c, 'e')
    case FoldS => FoldsTo(c, 's')
    case FoldSD => FoldsTo(c, 's') || FoldsTo(c, 'd')
  }

  /** The end of the longest run of class `cc` characters from `i`: what a
      greedy `+` or `*` consumes. */
  function RunEnd(s: string, i: nat, cc: CharClass): (j: nat)
    requires i <= |s|
    ensures i <= j <= |s|
    ensures forall k :: i <= k < j ==> InClass(cc, s[k])
    ensures j == |s| || !InClass(cc, s[j])
    decreases |s| - i
  {
    if i < |s| && InClass(cc, s[i]) then RunEnd(s, i + 1, cc) else i
  }

  /** A greedy `?` on one character of class `cc`. */
  function Opt(s: string, j: nat, cc: CharClass): (k: nat)
    requires j <= |s|
    ensures j <= k <= |s|
  {
    if j < |s| && InClass(cc, s[j]) then j + 1 else j
  }

  /** One match: its span and its named groups. */
  datatype Match = Match(start: nat, end: nat, num: Option<string>, jira: Option<string>)

  /** `fixe?s?` or `close[sd]?` at `i`: where the letters end. */
  function StemEnd(p: Pattern, s: string, i: nat): (r: Option<nat>)
    requires i <= |s|
    ensures r.Some? ==> i < r.value <= |s|
  {
    match p
    case FixesIssue =>
      if !WordAt(s, i, "fix") then None
      else Some(Opt(s, Opt(s, i + 3, FoldE), FoldS))
    case ClosesIssue =>
      if !WordAt(s, i, "close") then None
      else Some(Opt(s, i + 5, FoldSD))
    case TicketId => None
  }

  /** `\s+#(?P<num>\d+)` at `j`: the span of the digits. Greedy `\s+` and
      `\d+` never need to give characters back here, so the first
      candidate is the regex engine's answer. */
  function IssueNumberAt(s: string, j: nat): (r: Option<(nat, nat)>)
    requires j <= |s|
    ensures r.Some? ==> j < r.value.0 < r.value.1 <= |s|
    ensures r.Some? ==> s[r.value.0 - 1] == '#' && IsSpace(s[j])
    ensures r.Some? ==> forall k :: j <= k < r.value.0 - 1 ==> IsSpace(s[k])
    ensures r.Some? ==> forall k :: r.value.0 <= k < r.value.1 ==> IsDigit(s[k])
    ensures r.Some? ==> r.value.1 == |s| || !IsDigit(s[r.value.1])
  {
    var w := RunEnd(s, j, Space);
    if w == j || w == |s| || s[w] != '#' then None
    else
      var d := RunEnd(s, w + 1, Digit);
      if d == w + 1 then None else Some((w + 1, d))
  }

  /** `pat.match(s, i)`: the match of `p` that starts at `i`, if any. */
  function MatchAt(p: Pattern, s: string, i: nat): (r: Option<Match>)
    requires i <= |s|
    ensures r.Some? ==> r.value.start == i && i < r.value.end <= |s|
  {
    match p
    case TicketId =>
      if i < |s| && 'A' <= s[i] <= 'Z' then
        var u := RunEnd(s, i + 1, UpperOrDigit);
        if u == i + 1 || u == |s| || s[u] != '-' then None
        else
          var d := RunEnd(s, u + 1, Digit);
          if d == u + 1 then None else Some(Match(i, d, None, Some(s[i..d])))
      else None
    case _ =>
      match StemEnd(p, s, i)
      case None => None
      case Some(j) =>
        match IssueNumberAt(s, j)
        case None => None
        case Some((a, d)) => Some(Match(i, d, Some(s[a..d]), None))
  }

  /** What a match holds: for the issue-closing patterns, the stem at the
      start and a `num` group of digits right after `#` at the end; for the
      ticket pattern, a `jira` group that is the whole match. */
  lemma MatchShape(p: Pattern, s: string, i: nat)
    requires i <= |s| && MatchAt(p, s, i).Some?
    ensures var m := MatchAt(p, s, i).value;
      && (p != TicketId ==>
            && m.jira == None && m.num.Some?
            && var n := m.num.value;
               && 1 <= |n| < m.end - i
               && n == s[m.end - |n|..m.end]
               && s[m.end - |n| - 1] == '#'
               && (forall k :: 0 <= k < |n| ==> IsDigit(n[k])))
      && (p == TicketId ==>
            && m.num == None && m.jira == Some(s[i..m.end])
            && 'A' <= s[i] <= 'Z' && IsDigit(s[m.end - 1]))
      && (p == FixesIssue ==> WordAt(s, i, "fix"))
      && (p == ClosesIssue ==> WordAt(s, i, "close"))
  {
  }

  /** `s[i..j]` is spelt by `fixe?s?` (by `close[sd]?`) under `re.I`. */
  ghost predicate StemSpans(p: Pattern, s: string, i: nat, j: nat) {
    match p
    case FixesIssue =>
      && WordAt(s, i, "fix") && j <= |s|
      && (|| j == i + 3
          || (j == i + 4 && (FoldsTo(s[i + 3], 'e') || FoldsTo(s[i + 3], 's')))
          || (j == i + 5 && FoldsTo(s[i + 3], 'e') && FoldsTo(s[i + 4], 's')))
    case ClosesIssue =>
      && WordAt(s, i, "close") && j <= |s|
      && (j == i + 5 || (j == i + 6 && (FoldsTo(s[i + 5], 's') || FoldsTo(s[i + 5], 'd'))))
    case TicketId => false
  }

  /** `s[j..d]` is spelt by `\s+#\d+`, with the `#` at `w`. */
  ghost predicate NumberSpans(s: string, j: nat, w: nat, d: nat) {
    && j < w && w + 1 < d <= |s|
    && (forall k :: j <= k < w ==> IsSpace(s[k]))
    && s[w] == '#'
    && (forall k :: w + 1 <= k < d ==> IsDigit(s[k]))
  }

  /** `s[i..d]` is spelt by `[A-Z][A-Z0-9]+-\d+`, with the `-` at `u`. */
  ghost predicate TicketSpans(s: string, i: nat, u: nat, d: nat) {
    && i + 1 < u && u + 1 < d <= |s|
    && 'A' <= s[i] <= 'Z'
    && (forall k :: i + 1 <= k < u ==> IsUpperOrDigit(s[k]))
    && s[u] == '-'
    && (forall k :: u + 1 <= k < d ==> IsDigit(s[k]))
  }

  /** The regular expression of `p` spells some non-empty prefix of
      `s[i..]`: `pat.match(s, i)` succeeds. */
  ghost predicate MatchesAt(p: Pattern, s: string, i: nat) {
    if p == TicketId then exists u, d :: TicketSpans(s, i, u, d)
    else exists j, w, d :: StemSpans(p, s, i, j) && NumberSpans(s, j, w, d)
  }

  /** A greedy run stops exactly at the first character outside its class. */
  lemma RunEndAt(s: string, i: nat, cc: CharClass, e: nat)
    requires i <= e < |s| && !InClass(cc, s[e])
    requires forall k :: i <= k < e ==> InClass(cc, s[k])
    ensures RunEnd(s, i, cc) == e
  {
  }

  /** A greedy run goes at least as far as any run of its class. */
  lemma RunEndCovers(s: string, i: nat, cc: CharClass, d: nat)
    requires i <= d <= |s|
    requires forall k :: i <= k < d ==> InClass(cc, s[k])
    ensures RunEnd(s, i, cc) >= d
  {
  }

  /** No whitespace character folds to a letter of the stems. */
  lemma SpaceIsNoStemLetter(c: char)
    requires IsSpace(c)
    ensures !InClass(FoldE, c) && !InClass(FoldS, c) && !InClass(FoldSD, c)
  {
  }

  /** Greedy optional letters stop where a stem followed by whitespace ends. */
  lemma StemEndComplete(p: Pattern, s: string, i: nat, j: nat)
    requires i <= |s| && StemSpans(p, s, i, j) && j < |s| && IsSpace(s[j])
    ensures StemEnd(p, s, i) == Some(j)
  {
    SpaceIsNoStemLetter(s[j]);
  }

  lemma StemEndSound(p: Pattern, s: string, i: nat)
    requires i <= |s| && StemEnd(p, s, i).Some?
    ensures StemSpans(p, s, i, StemEnd(p, s, i).value)
  {
  }

  lemma IssueNumberComplete(s: string, j: nat, w: nat, d: nat)
    requires NumberSpans(s, j, w, d)
    ensures IssueNumberAt(s, j).Some? && IssueNumberAt(s, j).value.0 == w + 1
  {
    RunEndAt(s, j, Space, w);
    RunEndCovers(s, w + 1, Digit, d);
  }

  /** Whenever the regular expression of `p` spells a prefix of `s[i..]`,
      `MatchAt` finds a match there. */
  lemma MatchAtComplete(p: Pattern, s: string, i: nat)
    requires i <= |s| && MatchesAt(p, s, i)
    ensures MatchAt(p, s, i).Some?
  {
    if p == TicketId {
      var u: nat, d: nat :| TicketSpans(s, i, u, d);
      TicketComplete(s, i, u, d);
    } else {
      var j: nat, w: nat, d: nat :| StemSpans(p, s, i, j) && NumberSpans(s, j, w, d);
      IssueComplete(p, s, i, j, w, d);
    }
  }

  lemma TicketComplete(s: string, i: nat, u: nat, d: nat)
    requires TicketSpans(s, i, u, d)
    ensures MatchAt(TicketId, s, i).Some?
  {
    RunEndAt(s, i + 1, UpperOrDigit, u);
    RunEndCovers(s, u + 1, Digit, d);
  }

  lemma IssueComplete(p: Pattern, s: string, i: nat, j: nat, w: nat, d: nat)
    requires i <= |s| && StemSpans(p, s, i, j) && NumberSpans(s, j, w, d)
    ensures MatchAt(p, s, i).Some?
  {
    StemEndComplete(p, s, i, j);
    IssueNumberComplete(s, j, w, d);
  }

  /** What `MatchAt` finds is spelt by the regular expression of `p`, and
      its digits run as far as they go. */
  lemma MatchAtSound(p: Pattern, s: string, i: nat)
    requires i <= |s| && MatchAt(p, s, i).Some?
    ensures var e := MatchAt(p, s, i).value.end;
      && (p == TicketId ==> exists u :: TicketSpans(s, i, u, e))
      && (p != TicketId ==> exists j, w :: StemSpans(p, s, i, j) && NumberSpans(s, j, w, e))
      && (e == |s| || !IsDigit(s[e]))
  {
    var e := MatchAt(p, s, i).value.end;
    if p == TicketId {
      var u := RunEnd(s, i + 1, UpperOrDigit);
      assert TicketSpans(s, i, u, e);
    } else {
      var j := StemEnd(p, s, i).value;
      StemEndSound(p, s, i);
      var w := IssueNumberAt(s, j).value.0 - 1;
      assert NumberSpans(s, j, w, e);
    }
  }

  /** `MatchAt` succeeds exactly where the regular expression spells a
      prefix of `s[i..]`. */
  lemma MatchAtExact(p: Pattern, s: string, i: nat)
    requires i <= |s|
    ensures MatchAt(p, s, i).Some? <==> MatchesAt(p, s, i)
  {
    if MatchAt(p, s, i).Some? {
      MatchAtSound(p, s, i);
    }
    if MatchesAt(p, s, i) {
      MatchAtComplete(p, s, i);
    }
  }

  /** Position `j` lies inside one of the matches `ms`. */
  ghost predicate Covered(ms: seq<Match>, j: int) {
    exists k :: 0 <= k < |ms| && ms[k].start <= j < ms[k].end
  }

  /** A table of what a pattern matches at each position 0..n of a text of
      length n: a match found at `i` starts at `i` and ends after it,
      within the text. */
  ghost predicate Spans(t: seq<Option<Match>>) {
    forall i :: 0 <= i < |t| && t[i].Some? ==> t[i].value.start == i < t[i].value.end < |t|
  }

  /** `pat.match(s, i)` for every position `i` of `s`, end included. */
  function MatchTable(p: Pattern, s: string): (t: seq<Option<Match>>)
    ensures |t| == |s| + 1 && Spans(t)
    ensures forall i :: 0 <= i <= |s| ==> t[i] == MatchAt(p, s, i)
  {
    seq(|s| + 1, i requires 0 <= i <= |s| => MatchAt(p, s, i))
  }

  /** The `finditer` scan over a match table from position `from`: take the
      match at the current position and resume at its end, or move one
      position on. */
  function Scan(t: seq<Option<Match>>, from: nat): (ms: seq<Match>)
    requires Spans(t) && from < |t|
    ensures forall k :: 0 <= k < |ms| ==> from <= ms[k].start < ms[k].end < |t| && t[ms[k].start] == Some(ms[k])
    ensures forall k :: 0 < k < |ms| ==> ms[k - 1].end <= ms[k].start
    decreases |t| - from
  {
    if from == |t| - 1 then []
    else
      match t[from]
      case Some(m) =>
        var rest := Scan(t, m.end);
        assert forall k :: 0 < k < |rest| + 1 ==> ([m] + rest)[k] == rest[k - 1];
        [m] + rest
      case None => Scan(t, from + 1)
  }

  lemma CoveredCons(m: Match, rest: seq<Match>, j: int)
    ensures (m.start <= j < m.end || Covered(rest, j)) ==> Covered([m] + rest, j)
  {
    var ms := [m] + rest;
    if m.start <= j < m.end {
      assert ms[0] == m;
    } else if Covered(rest, j) {
      var k :| 0 <= k < |rest| && rest[k].start <= j < rest[k].end;
      assert ms[k + 1] == rest[k];
    }
  }

  /** The scan skips no match: every position with a match in the table
      lies inside one of the matches the scan takes. */
  lemma {:induction false} ScanLeftmost(t: seq<Option<Match>>, from: nat, j: nat)
    requires Spans(t) && from <= j < |t|
    ensures t[j].Some? ==> Covered(Scan(t, from), j)
    decreases |t| - from
  {
    if from < |t| - 1 {
      match t[from]
      case Some(m) =>
        if j >= m.end {
          ScanLeftmost(t, m.end, j);
        }
        CoveredCons(m, Scan(t, m.end), j);
      case None =>
        if j > from {
          ScanLeftmost(t, from + 1, j);
        }
    }
  }

  /** `pat.finditer(s)` from `from`: the matches it yields lie within the
      text after `from`, in order, and do not overlap. */
  function FindAll(p: Pattern, s: string, from: nat): (ms: seq<Match>)
    requires from <= |s|
    ensures forall k :: 0 <= k < |ms| ==> from <= ms[k].start < ms[k].end <= |s|
    ensures forall k :: 0 < k < |ms| ==> ms[k - 1].end <= ms[k].start
  {
    Scan(MatchTable(p, s), from)
  }

  /** Every match `finditer` yields is the match of the pattern at its
      start. */
  lemma FindAllMatches(p: Pattern, s: string, from: nat)
    requires from <= |s|
    ensures var ms := FindAll(p, s, from);
            forall k :: 0 <= k < |ms| ==> MatchAt(p, s, ms[k].start) == Some(ms[k])
  {
    var t := MatchTable(p, s);
    var ms := FindAll(p, s, from);
    forall k | 0 <= k < |ms|
      ensures MatchAt(p, s, ms[k].start) == Some(ms[k])
    {
      assert t[ms[k].start] == Some(ms[k]);
    }
  }

  /** Nothing is skipped: every position where a match starts lies inside
      one of the matches `finditer` yields, so each match it yields is the
      leftmost one left. */
  lemma FindAllLeftmost(p: Pattern, s: string, from: nat, j: nat)
    requires from <= j <= |s|
    ensures MatchAt(p, s, j).Some? ==> Covered(FindAll(p, s, from), j)
  {
    ScanLeftmost(MatchTable(p, s), from, j);
  }

  /** No text the regular expression spells is skipped: each position
      from which it spells a prefix lies inside a match `finditer` yields. */
  lemma FindAllMissesNothing(p: Pattern, s: string, j: nat)
    requires j <= |s| && MatchesAt(p, s, j)
    ensures Covered(FindAll(p, s, 0), j)
  {
    MatchAtComplete(p, s, j);
    FindAllLeftmost(p, s, 0, j);
  }

  /** `m.groupdict().get("num") or m.groupdict().get("jira") or m.group(0)`. */
  function Reference(s: string, m: Match): string
    requires m.start <= m.end <= |s|
  {
    if m.num.Some? && m.num.value != "" then m.num.value
    else if m.jira.Some? && m.jira.value != "" then m.jira.value
    else s[m.start..m.end]
  }

  /** The reference of an issue-closing match is its issue number: the
      non-empty run of digits after `#` that ends the match. For a ticket id
      it is the whole match. The `m.group(0)` fallback is never taken. */
  lemma ReferenceOfMatch(p: Pattern, s: string, i: nat)
    requires i <= |s| && MatchAt(p, s, i).Some?
    ensures var m := MatchAt(p, s, i).value;
            var r := Reference(s, m);
            && r != ""
            && (p == TicketId ==> r == s[m.start..m.end])
            && (p != TicketId ==> r == m.num.value && s[m.end - |r| - 1] == '#'
                                  && forall k :: 0 <= k < |r| ==> IsDigit(r[k]))
  {
    MatchShape(p, s, i);
  }

  /** One `features` row per match, in match order. */
  function MatchRows(hexsha: string, s: string, p: Pattern, ms: seq<Match>): (rows: seq<FeatureRow>)
    requires forall k :: 0 <= k < |ms| ==> ms[k].start <= ms[k].end <= |s|
    ensures |rows| == |ms|
  {
    seq(|ms|, k requires 0 <= k < |ms| => FeatureRow(hexsha, PatternSource(p), Reference(s, ms[k])))
  }

  function PatternRows(hexsha: string, s: string, p: Pattern): seq<FeatureRow> {
    MatchRows(hexsha, s, p, FindAll(p, s, 0))
  }

  /** The rows of the patterns `ps`, pattern by pattern. */
  function ReferenceRows(hexsha: string, s: string, ps: seq<Pattern>): seq<FeatureRow>
  {
    if ps == [] then []
    else ReferenceRows(hexsha, s, ps[..|ps| - 1]) + PatternRows(hexsha, s, ps[|ps| - 1])
  }

  /** `WHY_KEYWORDS`. */
  const WhyKeywords: seq<string> := ["why", "because", "reason", "motivation", "rfc", "design", "introduc", "decision"]

  /** The single `why_marker` row, present exactly when some keyword occurs
      in the lower-cased message. */
  function WhyRows(hexsha: string, msg: string): (rows: seq<FeatureRow>)
    ensures |rows| <= 1
    ensures |rows| == 1 <==> exists i :: 0 <= i < |WhyKeywords| && Contains(Lower(msg), WhyKeywords[i])
    ensures forall k :: 0 <= k < |rows| ==> rows[k] == FeatureRow(hexsha, "why_marker", "1")
  {
    if AnyContained(WhyKeywords, Lower(msg)) then [FeatureRow(hexsha, "why_marker", "1")] else []
  }

  /** Every `features` row of one commit: the pattern rows in pattern order,
      then the marker. */
  function FeatureRows(hexsha: string, msg: string): seq<FeatureRow> {
    ReferenceRows(hexsha, msg, FeaturePatterns) + WhyRows(hexsha, msg)
  }

  /** Every row of a commit names that commit, and each pattern row carries
      the pattern's source text and a non-empty reference. */
  lemma {:induction false} ReferenceRowsShape(hexsha: string, s: string, ps: seq<Pattern>)
    ensures forall row :: row in ReferenceRows(hexsha, s, ps) ==>
              row.commitId == hexsha && row.reference != "" &&
              exists i :: 0 <= i < |ps| && row.kind == PatternSource(ps[i])
  {
    if ps != [] {
      var p := ps[|ps| - 1];
      ReferenceRowsShape(hexsha, s, ps[..|ps| - 1]);
      var ms := FindAll(p, s, 0);
      FindAllMatches(p, s, 0);
      forall row | row in PatternRows(hexsha, s, p)
        ensures row.commitId == hexsha && row.reference != "" && row.kind == PatternSource(p)
      {
        var k :| 0 <= k < |ms| && row == MatchRows(hexsha, s, p, ms)[k];
        ReferenceOfMatch(p, s, ms[k].start);
      }
      forall row | row in ReferenceRows(hexsha, s, ps[..|ps| - 1])
        ensures exists i :: 0 <= i < |ps| && row.kind == PatternSource(ps[i])
      {
        var i :| 0 <= i < |ps| - 1 && row.kind == PatternSource(ps[..|ps| - 1][i]);
        assert ps[..|ps| - 1][i] == ps[i];
      }
      assert PatternSource(p) == PatternSource(ps[|ps| - 1]);
    }
  }
}

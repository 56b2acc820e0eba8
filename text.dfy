/** The handful of Python string and sequence built-ins the indexer and the
    question router rely on: `str.lower`/`str.upper` (ASCII letters only),
    `k in s` on strings, `any(k in s for k in ks)`, `sep.join(xs)`, `sum`,
    and list comprehensions with a filter. */
module Text {

  datatype Option<T> = None | Some(value: T)

  function LowerChar(c: char): char {
    if 'A' <= c <= 'Z' then (c as int + 32) as char else c
  }

  function UpperChar(c: char): char {
    if 'a' <= c <= 'z' then (c as int - 32) as char else c
  }

  /** `s.lower()`, restricted to the ASCII letters. */
  function Lower(s: string): (r: string)
    ensures |r| == |s|
    ensures forall i :: 0 <= i < |s| ==> r[i] == LowerChar(s[i])
  {
    if s == [] then [] else [LowerChar(s[0])] + Lower(s[1..])
  }

  /** `s.upper()`, restricted to the ASCII letters. */
  function Upper(s: string): (r: string)
    ensures |r| == |s|
    ensures forall i :: 0 <= i < |s| ==> r[i] == UpperChar(s[i])
  {
    if s == [] then [] else [UpperChar(s[0])] + Upper(s[1..])
  }

  /** Lower-casing twice is lower-casing once (`why_search` lower-cases a
      query that `ask` has already lower-cased). */
  lemma {:induction false} LowerIdempotent(s: string)
    ensures Lower(Lower(s)) == Lower(s)
  {
    var l := Lower(s);
    assert forall i :: 0 <= i < |s| ==> Lower(l)[i] == LowerChar(LowerChar(s[i])) == l[i];
  }

  /** `k` occurs in `s` starting at index `i`. */
  ghost predicate OccursAt(s: string, k: string, i: int) {
    0 <= i && i + |k| <= |s| && s[i..i + |k|] == k
  }

  /** Python's `k in s` for strings. */
  function Contains(s: string, k: string): (r: bool)
    ensures r <==> exists i :: OccursAt(s, k, i)
    decreases |s|
  {
    if |k| > |s| then false
    else if s[..|k|] == k then (assert OccursAt(s, k, 0); true)
    else
      var rest := Contains(s[1..], k);
      assert !OccursAt(s, k, 0);
      assert forall i :: OccursAt(s[1..], k, i) <==> OccursAt(s, k, i + 1) by {
        forall i ensures OccursAt(s[1..], k, i) <==> OccursAt(s, k, i + 1) {
          if 0 <= i && i + |k| <= |s| - 1 {
            assert s[1..][i..i + |k|] == s[i + 1..i + 1 + |k|];
          }
        }
      }
      assert (exists i :: OccursAt(s, k, i)) ==> exists i :: OccursAt(s[1..], k, i) by {
        if exists i :: OccursAt(s, k, i) {
          var i :| OccursAt(s, k, i);
          assert i >= 1;
          assert OccursAt(s[1..], k, i - 1);
        }
      }
      rest
  }

  /** `any(k in s for k in ks)`. */
  function AnyContained(ks: seq<string>, s: string): (r: bool)
    ensures r <==> exists i :: 0 <= i < |ks| && Contains(s, ks[i])
  {
    if ks == [] then false
    else if Contains(s, ks[0]) then true
    else
      var rest := AnyContained(ks[1..], s);
      assert rest ==> exists i :: 0 <= i < |ks| && Contains(s, ks[i]) by {
        if rest {
          var i :| 0 <= i < |ks| - 1 && Contains(s, ks[1..][i]);
          assert Contains(s, ks[i + 1]);
        }
      }
      assert (exists i :: 0 <= i < |ks| && Contains(s, ks[i])) ==> rest by {
        if exists i :: 0 <= i < |ks| && Contains(s, ks[i]) {
          var i :| 0 <= i < |ks| && Contains(s, ks[i]);
          assert i > 0 && ks[1..][i - 1] == ks[i];
        }
      }
      rest
  }

  /** `ys` is what remains of `xs` after deleting some of its elements:
      the elements of `ys` appear in `xs` in the same order. */
  ghost predicate IsSubsequence<T>(ys: seq<T>, xs: seq<T>)
    decreases |xs|
  {
    || ys == []
    || (&& xs != []
        && ((ys[0] == xs[0] && IsSubsequence(ys[1..], xs[1..])) || IsSubsequence(ys, xs[1..])))
  }

  /** `[x for x in xs if keep(x)]`. */
  function Filter<T>(xs: seq<T>, keep: T -> bool): (r: seq<T>)
    ensures |r| <= |xs|
    ensures forall i :: 0 <= i < |r| ==> r[i] in xs && keep(r[i])
    ensures forall i :: 0 <= i < |xs| && keep(xs[i]) ==> xs[i] in r
    ensures IsSubsequence(r, xs)
    ensures |xs| == 1 ==> r == if keep(xs[0]) then xs else []
  {
    if xs == [] then []
    else
      var rest := Filter(xs[1..], keep);
      if keep(xs[0]) then
        assert ([xs[0]] + rest)[1..] == rest;
        [xs[0]] + rest
      else rest
  }

  /** Filtering a concatenation filters each part, keeping the parts in
      order; with the one-element case this fixes the order and the
      multiplicity of every element kept. */
  lemma {:induction false} FilterAppend<T>(xs: seq<T>, ys: seq<T>, keep: T -> bool)
    ensures Filter(xs + ys, keep) == Filter(xs, keep) + Filter(ys, keep)
  {
    if xs == [] {
      assert xs + ys == ys;
    } else {
      assert (xs + ys)[1..] == xs[1..] + ys;
      FilterAppend(xs[1..], ys, keep);
    }
  }

  /** Filtering keeps or drops the first element, then filters the rest. */
  lemma FilterFirst<T>(xs: seq<T>, keep: T -> bool)
    requires xs != []
    ensures Filter(xs, keep) == Filter([xs[0]], keep) + Filter(xs[1..], keep)
  {
    assert xs == [xs[0]] + xs[1..];
    FilterAppend([xs[0]], xs[1..], keep);
  }

  /** Concatenation is associative; stated once so that proofs over
      sequences of sequences need not rediscover it. */
  lemma AppendAssoc<T>(a: seq<T>, b: seq<T>, c: seq<T>)
    ensures (a + b) + c == a + (b + c)
  {
  }

  /** A common prefix cancels: `p + x == (p + y) + k` leaves `x == y + k`. */
  lemma PrefixCancel<T>(p: seq<T>, x: seq<T>, y: seq<T>, k: seq<T>)
    requires p + x == (p + y) + k
    ensures x == y + k
  {
    assert (p + y) + k == p + (y + k);
    assert x == (p + x)[|p|..];
    assert y + k == (p + (y + k))[|p|..];
  }

  /** `sep.join(xs)`. */
  function Join(xs: seq<string>, sep: string): string {
    if xs == [] then ""
    else if |xs| == 1 then xs[0]
    else xs[0] + sep + Join(xs[1..], sep)
  }

  /** `s.split(c)`: the pieces between occurrences of `c`; used as the
      inverse of `Join`. */
  function SplitOn(s: string, c: char): (r: seq<string>)
    ensures |r| >= 1
  {
    if s == [] then [""]
    else
      var rest := SplitOn(s[1..], c);
      if s[0] == c then [""] + rest else [[s[0]] + rest[0]] + rest[1..]
  }

  lemma {:induction false} SplitOnPrefix(a: string, b: string, c: char)
    requires c !in a
    ensures SplitOn(a + b, c) == [a + SplitOn(b, c)[0]] + SplitOn(b, c)[1..]
  {
    if a != [] {
      assert (a + b)[1..] == a[1..] + b;
      SplitOnPrefix(a[1..], b, c);
      assert [a[0]] + (a[1..] + SplitOn(b, c)[0]) == a + SplitOn(b, c)[0];
    } else {
      var r := SplitOn(b, c);
      assert a + b == b && a + r[0] == r[0];
      assert [r[0]] + r[1..] == r;
    }
  }

  /** Joining with a separator that no piece contains can be undone by
      splitting on it: `"%".join(ks)` and `"\n".join(lines)` lose nothing. */
  lemma {:induction false} SplitJoin(xs: seq<string>, c: char)
    requires |xs| >= 1
    requires forall x :: x in xs ==> c !in x
    ensures SplitOn(Join(xs, [c]), c) == xs
  {
    if |xs| == 1 {
      SplitOnPrefix(xs[0], "", c);
      assert xs[0] + "" == xs[0];
    } else {
      var tail := Join(xs[1..], [c]);
      SplitJoin(xs[1..], c);
      assert Join(xs, [c]) == xs[0] + ([c] + tail);
      SplitOnPrefix(xs[0], [c] + tail, c);
      assert ([c] + tail)[1..] == tail;
      assert SplitOn([c] + tail, c) == [""] + xs[1..];
      assert xs[0] + "" == xs[0];
      assert [xs[0]] + xs[1..] == xs;
    }
  }

  /** Python's `sum`. */
  function Sum(xs: seq<int>): int {
    if xs == [] then 0 else xs[0] + Sum(xs[1..])
  }

  /** A sum of values that are each at least 1 is at least their count. */
  lemma {:induction false} SumAtLeastCount(xs: seq<int>)
    requires forall i :: 0 <= i < |xs| ==> xs[i] >= 1
    ensures Sum(xs) >= |xs|
  {
    if xs != [] {
      SumAtLeastCount(xs[1..]);
    }
  }
}

/**
 * The JavaScript string operations the answer parser relies on, over
 * strings as sequences of characters: `includes`, first-occurrence search,
 * `split(sep)[0]`, `split(sep)[1]` and `replace` with a string pattern
 * (which replaces only the first occurrence).
 */
module Text {
  import opened Wrappers

  /** An ASCII digit: `\d` in a JavaScript regular expression, and what a number prints as. */
  predicate IsDigit(ch: char) { '0' <= ch <= '9' }

  predicate AllDigits(s: string) { forall i :: 0 <= i < |s| ==> IsDigit(s[i]) }

  /** `pat` occurs in `s` starting at index `i`. */
  predicate OccursAt(s: string, pat: string, i: nat) {
    i + |pat| <= |s| && s[i..i + |pat|] == pat
  }

  /** `s.includes(pat)`. */
  predicate Contains(s: string, pat: string) {
    exists i :: 0 <= i <= |s| && OccursAt(s, pat, i)
  }

  /** A pattern whose first character occurs nowhere else in it (all the sentinel tokens are like this). */
  predicate LeadUnique(pat: string) {
    |pat| > 0 && forall i :: 0 < i < |pat| ==> pat[i] != pat[0]
  }

  /** An occurrence at `j + 1` in `s` is an occurrence at `j` in `s[1..]`. */
  lemma OccursShiftAt(s: string, pat: string, j: nat)
    requires s != []
    ensures OccursAt(s, pat, j + 1) <==> OccursAt(s[1..], pat, j)
  {
    if j + 1 + |pat| <= |s| {
      assert s[1..][j..j + |pat|] == s[j + 1..j + 1 + |pat|];
    }
  }

  lemma OccursShift(s: string, pat: string)
    requires s != []
    ensures forall j: nat :: OccursAt(s[1..], pat, j) ==> OccursAt(s, pat, j + 1)
    ensures forall j: nat :: 0 < j && OccursAt(s, pat, j) ==> OccursAt(s[1..], pat, j - 1)
  {
    forall j: nat ensures OccursAt(s[1..], pat, j) ==> OccursAt(s, pat, j + 1) {
      OccursShiftAt(s, pat, j);
    }
    forall j: nat | 0 < j ensures OccursAt(s, pat, j) ==> OccursAt(s[1..], pat, j - 1) {
      OccursShiftAt(s, pat, j - 1);
    }
  }

  /** The index of the first occurrence of `pat` in `s` (`s.indexOf(pat)`, with -1 as `None`). */
  function IndexOf(s: string, pat: string): (r: Option<nat>)
    ensures r.Some? ==> r.value + |pat| <= |s|
    decreases |s|
  {
    if OccursAt(s, pat, 0) then Some(0)
    else if s == [] then None
    else
      match IndexOf(s[1..], pat)
      case None => None
      case Some(k) => Some(k + 1)
  }

  /**
   * `IndexOf` finds an index exactly when `pat` occurs, and the index it
   * finds is an occurrence with none before it.
   */
  lemma {:induction false} IndexOfSpec(s: string, pat: string)
    ensures IndexOf(s, pat).Some? <==> Contains(s, pat)
    ensures IndexOf(s, pat).Some? ==>
      OccursAt(s, pat, IndexOf(s, pat).value) && forall j: nat :: j < IndexOf(s, pat).value ==> !OccursAt(s, pat, j)
    ensures IndexOf(s, pat).None? ==> forall j: nat :: !OccursAt(s, pat, j)
    decreases |s|
  {
    if OccursAt(s, pat, 0) {
    } else if s == [] {
    } else {
      IndexOfSpec(s[1..], pat);
      OccursShift(s, pat);
    }
  }

  /** `s.split(sep)[0]`: the text before the first occurrence of `sep`, or all of `s`. */
  function SplitHead(s: string, sep: string): (r: string)
    requires sep != []
    ensures |r| <= |s| && r == s[..|r|]
  {
    match IndexOf(s, sep)
    case None => s
    case Some(i) => s[..i]
  }

  /** The head is cut exactly at the first separator, and is everything when there is none. */
  lemma SplitHeadSpec(s: string, sep: string)
    requires sep != []
    ensures Contains(s, sep) ==>
      OccursAt(s, sep, |SplitHead(s, sep)|) && forall j: nat :: j < |SplitHead(s, sep)| ==> !OccursAt(s, sep, j)
    ensures !Contains(s, sep) ==> SplitHead(s, sep) == s
  {
    IndexOfSpec(s, sep);
  }

  /**
   * `s.split(sep)[1]`: `undefined` (None) when `sep` does not occur; otherwise the
   * text between the first and the second occurrence, or to the end of `s`.
   */
  function SplitSecond(s: string, sep: string): (r: Option<string>)
    requires sep != []
    ensures r.Some? <==> Contains(s, sep)
  {
    IndexOfSpec(s, sep);
    match IndexOf(s, sep)
    case None => None
    case Some(i) => Some(SplitHead(s[i + |sep|..], sep))
  }

  /** `s.replace(pat, rep)` with a string pattern: only the first occurrence is replaced. */
  function ReplaceFirst(s: string, pat: string, rep: string): string {
    match IndexOf(s, pat)
    case None => s
    case Some(i) => s[..i] + rep + s[i + |pat|..]
  }

  /** Without an occurrence `replace` returns the text unchanged. */
  lemma ReplaceFirstWithout(s: string, pat: string, rep: string)
    requires !Contains(s, pat)
    ensures ReplaceFirst(s, pat, rep) == s
  {
    IndexOfSpec(s, pat);
  }

  /** Appending text does not change whether `pat` occurs at a position that fits in the prefix. */
  lemma OccursInPrefix(s: string, t: string, pat: string, j: nat)
    requires j + |pat| <= |s|
    ensures OccursAt(s + t, pat, j) <==> OccursAt(s, pat, j)
  {
    assert (s + t)[j..j + |pat|] == s[j..j + |pat|];
  }

  /** The first occurrence is pinned down by occurring at `i` and nowhere before it. */
  lemma IndexOfIs(s: string, pat: string, i: nat)
    requires OccursAt(s, pat, i)
    requires forall j: nat :: j < i ==> !OccursAt(s, pat, j)
    ensures IndexOf(s, pat) == Some(i)
  {
    IndexOfSpec(s, pat);
    assert Contains(s, pat);
  }

  /** Once found, the first occurrence stays where it is however much text is appended. */
  lemma IndexOfExtend(s: string, t: string, pat: string)
    requires Contains(s, pat)
    ensures IndexOf(s + t, pat) == IndexOf(s, pat)
  {
    IndexOfSpec(s, pat);
    var i := IndexOf(s, pat).value;
    OccursInPrefix(s, t, pat, i);
    forall j: nat | j < i ensures !OccursAt(s + t, pat, j) {
      OccursInPrefix(s, t, pat, j);
    }
    IndexOfIs(s + t, pat, i);
  }

  lemma ContainsExtend(s: string, t: string, pat: string)
    requires Contains(s, pat)
    ensures Contains(s + t, pat)
  {
    IndexOfExtend(s, t, pat);
    IndexOfSpec(s, pat);
    IndexOfSpec(s + t, pat);
  }

  /** A string lacking the first character of `pat` cannot contain `pat`. */
  lemma NotContainsWithoutLead(x: string, pat: string)
    requires pat != [] && pat[0] !in x
    ensures !Contains(x, pat)
  {
    forall i: nat | i + |pat| <= |x| ensures !OccursAt(x, pat, i) {
      assert x[i..i + |pat|][0] == x[i];
    }
  }

  /**
   * A token `t` whose only copy of `pat`'s first character is its own first
   * character, and whose second character differs from `pat`'s, cannot start
   * an occurrence of `pat`; so `pat` occurs in `t + x` only if it occurs in `x`.
   */
  lemma {:induction false} NotContainsAfterLead(t: string, x: string, pat: string)
    requires |t| >= 2 && |pat| >= 2 && t[0] == pat[0] && t[1] != pat[1]
    requires forall i :: 0 < i < |t| ==> t[i] != pat[0]
    requires !Contains(x, pat)
    ensures !Contains(t + x, pat)
  {
    var s := t + x;
    forall j: nat | j + |pat| <= |s| ensures !OccursAt(s, pat, j) {
      if j == 0 {
        assert s[j..j + |pat|][1] == t[1];
      } else if j < |t| {
        assert s[j..j + |pat|][0] == t[j];
      } else {
        var k := j - |t|;
        assert s[j..j + |pat|] == x[k..k + |pat|];
        assert !OccursAt(x, pat, k);
      }
    }
  }

  /**
   * When `y` starts with the first character of a pattern that cannot overlap
   * itself, no occurrence of the pattern straddles the join of `x + y`.
   */
  lemma {:induction false} NotContainsAcrossLead(x: string, y: string, pat: string)
    requires LeadUnique(pat) && y != [] && y[0] == pat[0]
    requires !Contains(x, pat) && !Contains(y, pat)
    ensures !Contains(x + y, pat)
  {
    var s := x + y;
    forall j: nat | j + |pat| <= |s| ensures !OccursAt(s, pat, j) {
      if j + |pat| <= |x| {
        assert s[j..j + |pat|] == x[j..j + |pat|];
        assert !OccursAt(x, pat, j);
      } else if j < |x| {
        assert s[j..j + |pat|][|x| - j] == y[0];
      } else {
        var k := j - |x|;
        assert s[j..j + |pat|] == y[k..k + |pat|];
        assert !OccursAt(y, pat, k);
      }
    }
  }

  /**
   * When `pre` does not contain `pat`, and `pat` cannot overlap itself, the first
   * occurrence of `pat` in `pre + pat + post` is the one right after `pre`.
   */
  lemma {:induction false} FirstOccurrence(pre: string, pat: string, post: string)
    requires LeadUnique(pat) && !Contains(pre, pat)
    ensures IndexOf(pre + pat + post, pat) == Some(|pre|)
  {
    var s := pre + pat + post;
    assert s[|pre|..|pre| + |pat|] == pat;
    forall j: nat | j < |pre| ensures !OccursAt(s, pat, j) {
      if j + |pat| <= |pre| {
        assert s == pre + (pat + post);
        OccursInPrefix(pre, pat + post, pat, j);
      } else {
        // an occurrence starting inside `pre` would put pat[0] at a later position of pat
        assert s[j..j + |pat|][|pre| - j] == s[|pre|] == pat[0] != pat[|pre| - j];
      }
    }
    IndexOfIs(s, pat, |pre|);
  }

  lemma SplitHeadAt(pre: string, sep: string, post: string)
    requires LeadUnique(sep) && !Contains(pre, sep)
    ensures Contains(pre + sep + post, sep)
    ensures SplitHead(pre + sep + post, sep) == pre
  {
    FirstOccurrence(pre, sep, post);
    IndexOfSpec(pre + sep + post, sep);
    assert (pre + sep + post)[..|pre|] == pre;
  }

  lemma SplitSecondAt(pre: string, sep: string, post: string)
    requires LeadUnique(sep) && !Contains(pre, sep)
    ensures SplitSecond(pre + sep + post, sep) == Some(SplitHead(post, sep))
  {
    FirstOccurrence(pre, sep, post);
    assert (pre + sep + post)[|pre| + |sep|..] == post;
  }

  lemma ReplaceFirstAt(pre: string, pat: string, post: string, rep: string)
    requires LeadUnique(pat) && !Contains(pre, pat)
    ensures ReplaceFirst(pre + pat + post, pat, rep) == pre + rep + post
  {
    FirstOccurrence(pre, pat, post);
    var s := pre + pat + post;
    assert s[..|pre|] == pre;
    assert s[|pre| + |pat|..] == post;
  }


  /** A search result moved `n` places to the right. */
  function ShiftIndex(r: Option<nat>, n: nat): Option<nat> {
    match r
    case None => None
    case Some(k) => Some(n + k)
  }

  /** Searching `x + y` where `x` lacks the pattern's first character searches `y`. */
  lemma {:induction false} IndexOfSkipsPrefix(x: string, y: string, pat: string)
    requires pat != [] && pat[0] !in x
    ensures IndexOf(x + y, pat) == ShiftIndex(IndexOf(y, pat), |x|)
    decreases |x|
  {
    if x == [] {
      assert x + y == y;
    } else {
      var s := x + y;
      if |pat| <= |s| {
        assert s[..|pat|][0] == x[0];
      }
      assert !OccursAt(s, pat, 0);
      assert s[1..] == x[1..] + y;
      IndexOfSkipsPrefix(x[1..], y, pat);
    }
  }

  /** `replace` at a known first occurrence, stated without the search. */
  lemma {:induction false} ReplaceFirstAtShifted(x: string, y: string, pat: string, rep: string, k: nat)
    requires IndexOf(x + y, pat) == Some(|x| + k)
    ensures |x| + k + |pat| <= |x + y|
    ensures ReplaceFirst(x + y, pat, rep) == (x + y)[..|x| + k] + rep + (x + y)[|x| + k + |pat|..]
  {
    ReplaceFirstAtIndex(x + y, pat, rep, |x| + k);
  }

  /** A prefix without the pattern's first character is left alone by `replace`. */
  lemma ReplaceFirstSkipsPrefix(x: string, y: string, pat: string, rep: string)
    requires pat != [] && pat[0] !in x
    ensures ReplaceFirst(x + y, pat, rep) == x + ReplaceFirst(y, pat, rep)
  {
    IndexOfSkipsPrefix(x, y, pat);
    match IndexOf(y, pat)
    case Some(k) => SkipsPrefixAt(x, y, pat, rep, k);
    case None => SkipsPrefixMiss(x, y, pat, rep);
  }

  lemma {:induction false} SkipsPrefixAt(x: string, y: string, pat: string, rep: string, k: nat)
    requires IndexOf(y, pat) == Some(k) && IndexOf(x + y, pat) == Some(|x| + k)
    ensures ReplaceFirst(x + y, pat, rep) == x + ReplaceFirst(y, pat, rep)
  {
    ReplaceFirstAtShifted(x, y, pat, rep, k);
    ReplaceFirstAtIndex(y, pat, rep, k);
    SpliceAfterPrefix(x, y, k, |pat|, rep);
  }

  lemma {:induction false} SkipsPrefixMiss(x: string, y: string, pat: string, rep: string)
    requires IndexOf(y, pat).None? && IndexOf(x + y, pat).None?
    ensures ReplaceFirst(x + y, pat, rep) == x + ReplaceFirst(y, pat, rep)
  {
    ReplaceFirstAbsent(y, pat, rep);
    ReplaceFirstAbsent(x + y, pat, rep);
  }

  // The next three lemmas each take one unfolding or regrouping step on their own, which keeps the solver's work in their callers small.

  lemma {:induction false} ReplaceFirstAbsent(s: string, pat: string, rep: string)
    requires IndexOf(s, pat).None?
    ensures ReplaceFirst(s, pat, rep) == s
  {
  }

  lemma {:induction false} ReplaceFirstAtIndex(s: string, pat: string, rep: string, k: nat)
    requires IndexOf(s, pat) == Some(k)
    ensures k + |pat| <= |s|
    ensures ReplaceFirst(s, pat, rep) == s[..k] + rep + s[k + |pat|..]
  {
  }

  lemma {:induction false} SpliceAfterPrefix(x: string, y: string, k: nat, n: nat, rep: string)
    requires k + n <= |y|
    ensures (x + y)[..|x| + k] + rep + (x + y)[|x| + k + n..] == x + (y[..k] + rep + y[k + n..])
  {
    assert (x + y)[..|x| + k] == x + y[..k];
    assert (x + y)[|x| + k + n..] == y[k + n..];
  }

  /** `chunks` joined in arrival order (the running `sink += chunk`). */
  function Concat(chunks: seq<string>): string {
    if chunks == [] then "" else Concat(chunks[..|chunks| - 1]) + chunks[|chunks| - 1]
  }

  lemma {:induction false} ConcatSplit(chunks: seq<string>, k: nat)
    requires k <= |chunks|
    ensures Concat(chunks) == Concat(chunks[..k]) + Concat(chunks[k..])
    decreases |chunks|
  {
    if k < |chunks| {
      var init := chunks[..|chunks| - 1];
      ConcatSplit(init, k);
      assert init[..k] == chunks[..k];
      var tail := chunks[k..];
      assert tail[..|tail| - 1] == init[k..];
      assert tail[|tail| - 1] == chunks[|chunks| - 1];
    } else {
      assert chunks[..k] == chunks;
      assert chunks[k..] == [];
    }
  }
}

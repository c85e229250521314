/**
 * `markdownParse` of the web-rag answer view: four global regular-expression
 * replacements that normalise citation markers, then a replacement of the
 * first newline by the two characters backslash and 'n'.
 *
 * A global `replace` scans left to right: where the expression matches at the
 * current position the match is replaced and scanning resumes after it,
 * otherwise the character is copied. `ReplaceAll` is that scanner and
 * `Match` says, for one rule, whether and how the expression matches at the
 * start of the remaining text.
 */
module Markdown {
  import opened Wrappers
  import opened Text

  /** The four expressions, in the order they are applied. */
  datatype Rule =
    | CollapseOpening  // /\[\[([cC])itation/g            -> "[citation"
    | CollapseClosing  // /[cC]itation:(\d+)]]/g           -> "citation:$1]"
    | UnwrapDouble     // /\[\[([cC]itation:\d+)]](?!])/g  -> "[$1]"
    | ToLink           // /\[[cC]itation:(\d+)]/g          -> "[citation]($1)"

  /** A match at the start of the remaining text: how much it consumes and what replaces it. */
  datatype Hit = Hit(len: nat, output: string)

  predicate IsC(ch: char) { ch == 'c' || ch == 'C' }


  /** `[cC]itation` starts at `t[i]`. */
  predicate CitationWordAt(t: string, i: nat) {
    i + 8 <= |t| && IsC(t[i]) && t[i + 1..i + 8] == "itation"
  }

  /** The length of the longest run of digits at the start of `t` (what a greedy `\d+` takes). */
  function DigitRun(t: string): (n: nat)
    ensures n <= |t| && AllDigits(t[..n])
    ensures n < |t| ==> !IsDigit(t[n])
  {
    if t != [] && IsDigit(t[0]) then
      var n := 1 + DigitRun(t[1..]);
      assert t[..n] == [t[0]] + t[1..][..n - 1];
      n
    else 0
  }

  /** The characters at which a match of `r` can begin. */
  predicate CanLead(r: Rule, ch: char) {
    if r.CollapseClosing? then IsC(ch) else ch == '['
  }

  /** Does the expression of `r` match at the start of `t`? */
  function Match(r: Rule, t: string): (h: Option<Hit>)
    ensures h.Some? ==> 0 < h.value.len <= |t| && CanLead(r, t[0])
  {
    match r
    case CollapseOpening =>
      if CitationWordAt(t, 2) && t[0] == '[' && t[1] == '[' then Some(Hit(10, "[citation")) else None
    case CollapseClosing =>
      if CitationWordAt(t, 0) && 9 <= |t| && t[8] == ':' then
        var d := DigitRun(t[9..]);
        if 0 < d && 11 + d <= |t| && t[9 + d] == ']' && t[10 + d] == ']'
        then Some(Hit(11 + d, "citation:" + t[9..9 + d] + "]"))
        else None
      else None
    case UnwrapDouble =>
      if CitationWordAt(t, 2) && t[0] == '[' && t[1] == '[' && 11 <= |t| && t[10] == ':' then
        var d := DigitRun(t[11..]);
        if 0 < d && 13 + d <= |t| && t[11 + d] == ']' && t[12 + d] == ']' && !(13 + d < |t| && t[13 + d] == ']')
        then Some(Hit(13 + d, "[" + t[2..11 + d] + "]"))
        else None
      else None
    case ToLink =>
      if CitationWordAt(t, 1) && t[0] == '[' && 10 <= |t| && t[9] == ':' then
        var d := DigitRun(t[10..]);
        if 0 < d && 11 + d <= |t| && t[10 + d] == ']'
        then Some(Hit(11 + d, "[citation](" + t[10..10 + d] + ")"))
        else None
      else None
  }

  /** `s.replace(<expression of r>, <replacement of r>)` with the global flag. */
  function ReplaceAll(r: Rule, s: string): string
    decreases |s|
  {
    if s == [] then []
    else match Match(r, s)
      case Some(h) => h.output + ReplaceAll(r, s[h.len..])
      case None => [s[0]] + ReplaceAll(r, s[1..])
  }

  /** The four citation rewrites of `markdownParse`, applied in order. */
  function NormaliseCitations(text: string): string {
    var s1 := ReplaceAll(CollapseOpening, text);
    var s2 := ReplaceAll(CollapseClosing, s1);
    var s3 := ReplaceAll(UnwrapDouble, s2);
    ReplaceAll(ToLink, s3)
  }

  /** `markdownParse(text)`: the citation rewrites, then the first newline escaped. */
  function MarkdownParse(text: string): string {
    ReplaceFirst(NormaliseCitations(text), "\n", "\\n")
  }

  /** No character of `p` can begin a match of `r`. */
  predicate Inert(r: Rule, p: string) {
    forall i :: 0 <= i < |p| ==> !CanLead(r, p[i])
  }

  /** Text that `r` cannot touch is copied, and scanning carries on after it. */
  lemma {:induction false} ReplaceAllInertPrefix(r: Rule, p: string, t: string)
    requires Inert(r, p)
    ensures ReplaceAll(r, p + t) == p + ReplaceAll(r, t)
    decreases |p|
  {
    if p != [] {
      assert (p + t)[1..] == p[1..] + t;
      ReplaceAllInertPrefix(r, p[1..], t);
    } else {
      assert p + t == t;
    }
  }

  lemma ReplaceAllInert(r: Rule, p: string)
    requires Inert(r, p)
    ensures ReplaceAll(r, p) == p
  {
    ReplaceAllInertPrefix(r, p, "");
    assert p + "" == p;
  }

  /** Where `r` matches nowhere, the text is unchanged. */
  lemma {:induction false} ReplaceAllNoMatch(r: Rule, t: string)
    requires forall i :: 0 <= i < |t| ==> Match(r, t[i..]).None?
    ensures ReplaceAll(r, t) == t
    decreases |t|
  {
    if t != [] {
      assert Match(r, t[0..]).None? && t[0..] == t;
      forall i | 0 <= i < |t[1..]| ensures Match(r, t[1..][i..]).None? {
        assert t[1..][i..] == t[i + 1..];
      }
      ReplaceAllNoMatch(r, t[1..]);
    }
  }

  lemma {:induction false} InertConcat(r: Rule, a: string, b: string)
    requires Inert(r, a) && Inert(r, b)
    ensures Inert(r, a + b)
  {
    forall i | 0 <= i < |a + b| ensures !CanLead(r, (a + b)[i]) {
      if i < |a| {
        assert (a + b)[i] == a[i];
      } else {
        assert (a + b)[i] == b[i - |a|];
      }
    }
  }

  /** A greedy `\d+` over `n` stops where `n` ends when a non-digit follows. */
  lemma DigitRunOf(n: string, rest: string)
    requires AllDigits(n) && rest != [] && !IsDigit(rest[0])
    ensures DigitRun(n + rest) == |n|
  {
    var t := n + rest;
    forall j | 0 <= j < |n| ensures IsDigit(t[j]) {
      assert t[j] == n[j];
    }
    assert t[|n|] == rest[0];
  }

  /** A citation marker as the model writes it: `[[citation:N]]` or `[[Citation:N]]`. */
  function Marker(c: char, n: string): string {
    "[[" + [c] + "itation:" + n + "]]"
  }

  /** The normalised form `[citation](N)`. */
  function Link(n: string): string {
    "[citation](" + n + ")"
  }

  /** The tail of citation-free text is citation-free. */
  lemma {:induction false} CitationFreeTail(p: string)
    requires p != [] && CitationFree(p)
    ensures CitationFree(p[1..])
  {
    OccursShift(p, "citation");
    OccursShift(p, "Citation");
  }

  /**
   * Rule 2 does not match at the start of non-empty citation-free text followed
   * by '[': a `citation` word inside the text is excluded, and one running past
   * its end would need the '[' to be a letter of `itation`.
   */
  lemma {:induction false} ClosingUnmatchedAt(p: string, t: string)
    requires CitationFree(p) && p != [] && t != [] && t[0] == '['
    ensures Match(CollapseClosing, p + t).None?
  {
    var u := p + t;
    if 8 <= |p| {
      assert p[0..] == p;
      assert u[0] == p[0] && u[1..8] == p[1..8];
      if CitationWordAt(p, 0) {
        CitationWordIsKeyword(p, 0);
      }
    } else if 8 <= |u| {
      assert u[1..8][|p| - 1] == '[';
    }
  }

  /** Rule 2 copies citation-free text that is followed by '[', and scanning carries on after it. */
  lemma {:induction false} ClosingSkipsCitationFree(p: string, t: string)
    requires CitationFree(p) && t != [] && t[0] == '['
    ensures ReplaceAll(CollapseClosing, p + t) == p + ReplaceAll(CollapseClosing, t)
    decreases |p|
  {
    if p != [] {
      ClosingUnmatchedAt(p, t);
      assert (p + t)[1..] == p[1..] + t;
      assert ReplaceAll(CollapseClosing, p + t) == [p[0]] + ReplaceAll(CollapseClosing, p[1..] + t);
      CitationFreeTail(p);
      ClosingSkipsCitationFree(p[1..], t);
      assert [p[0]] + (p[1..] + ReplaceAll(CollapseClosing, t)) == p + ReplaceAll(CollapseClosing, t);
    } else {
      assert p + t == t;
    }
  }

  /** The characters of a marker after its `citation` word hold no '['. */
  lemma {:induction false} MarkerPartsInert(r: Rule, n: string)
    requires !r.CollapseClosing? && AllDigits(n)
    ensures Inert(r, ":" + n + "]]") && Inert(r, "citation:" + n + "]")
  {
    assert Inert(r, n);
    InertConcat(r, ":", n);
    InertConcat(r, ":" + n, "]]");
    InertConcat(r, "citation:", n);
    InertConcat(r, "citation:" + n, "]");
  }

  lemma {:induction false} MarkerMatch1(c: char, n: string, q: string)
    requires IsC(c)
    ensures Match(CollapseOpening, Marker(c, n) + q) == Some(Hit(10, "[citation"))
    ensures (Marker(c, n) + q)[10..] == (":" + n + "]]") + q
  {
    var t := Marker(c, n) + q;
    assert t[..10] == "[[" + [c] + "itation";
    assert t[3..10] == "itation";
  }

  /** Rule 1 on a marker and whatever follows it. */
  lemma {:induction false} MarkerTail1(c: char, n: string, q: string)
    requires IsC(c) && AllDigits(n)
    ensures ReplaceAll(CollapseOpening, Marker(c, n) + q) == "[citation:" + n + "]]" + ReplaceAll(CollapseOpening, q)
  {
    var rest := ":" + n + "]]";
    MarkerMatch1(c, n, q);
    MarkerPartsInert(CollapseOpening, n);
    ReplaceAllInertPrefix(CollapseOpening, rest, q);
    assert "[citation" + (rest + ReplaceAll(CollapseOpening, q)) == "[citation:" + n + "]]" + ReplaceAll(CollapseOpening, q);
  }

  /** Rule 1 turns the opening `[[c` of the marker into `[c` and leaves the rest to the scan. */
  lemma {:induction false} MarkerStep1(p: string, c: char, n: string, q: string)
    requires '[' !in p && IsC(c) && AllDigits(n)
    ensures ReplaceAll(CollapseOpening, p + (Marker(c, n) + q)) == p + ("[citation:" + n + "]]" + ReplaceAll(CollapseOpening, q))
  {
    ReplaceAllInertPrefix(CollapseOpening, p, Marker(c, n) + q);
    MarkerTail1(c, n, q);
  }

  lemma {:induction false} MarkerMatch2(n: string, q: string)
    requires n != [] && AllDigits(n)
    ensures Match(CollapseClosing, "citation:" + n + "]]" + q) == Some(Hit(11 + |n|, "citation:" + n + "]"))
    ensures ("citation:" + n + "]]" + q)[11 + |n|..] == q
  {
    var x := "citation:" + n + "]]" + q;
    assert x[1..8] == "itation" && x[8] == ':';
    assert x[9..] == n + ("]]" + q);
    DigitRunOf(n, "]]" + q);
    assert x[9 + |n|] == ']' && x[10 + |n|] == ']';
    assert x[9..9 + |n|] == n;
  }

  /** Rule 2 on `citation:N]]` and whatever follows it. */
  lemma {:induction false} MarkerTail2(n: string, q: string)
    requires n != [] && AllDigits(n)
    ensures ReplaceAll(CollapseClosing, "citation:" + n + "]]" + q) == "citation:" + n + "]" + ReplaceAll(CollapseClosing, q)
  {
    MarkerMatch2(n, q);
  }

  /** Citation-free text and the '[' after it are copied by rule 2. */
  lemma {:induction false} BracketPrefix(p: string, rest: string)
    requires CitationFree(p)
    ensures ReplaceAll(CollapseClosing, p + ("[" + rest)) == p + ("[" + ReplaceAll(CollapseClosing, rest))
  {
    ClosingSkipsCitationFree(p, "[" + rest);
    ReplaceAllInertPrefix(CollapseClosing, "[", rest);
  }

  /** Rule 2 turns `citation:N]]` into `citation:N]`. */
  lemma {:induction false} MarkerStep2(p: string, n: string, q: string)
    requires CitationFree(p) && n != [] && AllDigits(n)
    ensures ReplaceAll(CollapseClosing, p + ("[citation:" + n + "]]" + q)) == p + ("[citation:" + n + "]" + ReplaceAll(CollapseClosing, q))
  {
    BracketLiteral(n, q, ReplaceAll(CollapseClosing, q));
    BracketPrefix(p, "citation:" + n + "]]" + q);
    MarkerTail2(n, q);
  }

  /**
   * Moving the marker's '[' out of and back into the literal, apart from any
   * rewriting; a lemma of its own so that the solver's work in `MarkerStep2` stays small.
   */
  lemma BracketLiteral(n: string, q: string, q': string)
    ensures "[citation:" + n + "]]" + q == "[" + ("citation:" + n + "]]" + q)
    ensures "[" + ("citation:" + n + "]" + q') == "[citation:" + n + "]" + q'
  {
  }

  /** `[citation:N]` does not start with `[[`, so rule 3 does not match there. */
  lemma {:induction false} SingleBracketSplit(n: string, q: string)
    ensures Match(UnwrapDouble, "[citation:" + n + "]" + q).None?
    ensures ("[citation:" + n + "]" + q)[0] == '['
    ensures ("[citation:" + n + "]" + q)[1..] == "citation:" + n + "]" + q
  {
    var y := "[citation:" + n + "]" + q;
    assert y[1] == 'c';
  }

  /** Rule 3 on `[citation:N]`: no `[[` there, so only what follows can change. */
  lemma {:induction false} MarkerTail3(n: string, q: string)
    requires AllDigits(n)
    ensures ReplaceAll(UnwrapDouble, "[citation:" + n + "]" + q) == "[citation:" + n + "]" + ReplaceAll(UnwrapDouble, q)
  {
    var y := "[citation:" + n + "]" + q;
    var rest := "citation:" + n + "]";
    SingleBracketSplit(n, q);
    MarkerPartsInert(UnwrapDouble, n);
    ReplaceAllInertPrefix(UnwrapDouble, rest, q);
    assert [y[0]] + (rest + ReplaceAll(UnwrapDouble, q)) == "[citation:" + n + "]" + ReplaceAll(UnwrapDouble, q);
  }

  /** Rule 3 leaves the single-bracket citation produced by rules 1 and 2 alone. */
  lemma {:induction false} MarkerStep3(p: string, n: string, q: string)
    requires '[' !in p && AllDigits(n)
    ensures ReplaceAll(UnwrapDouble, p + ("[citation:" + n + "]" + q)) == p + ("[citation:" + n + "]" + ReplaceAll(UnwrapDouble, q))
  {
    ReplaceAllInertPrefix(UnwrapDouble, p, "[citation:" + n + "]" + q);
    MarkerTail3(n, q);
  }

  lemma {:induction false} MarkerMatch4(n: string, q: string)
    requires n != [] && AllDigits(n)
    ensures Match(ToLink, "[citation:" + n + "]" + q) == Some(Hit(11 + |n|, Link(n)))
    ensures ("[citation:" + n + "]" + q)[11 + |n|..] == q
  {
    var z := "[citation:" + n + "]" + q;
    assert z[2..9] == "itation" && z[9] == ':';
    assert z[10..] == n + ("]" + q);
    DigitRunOf(n, "]" + q);
    assert z[10 + |n|] == ']';
    assert z[10..10 + |n|] == n;
  }

  /** Rule 4 on `[citation:N]` and whatever follows it. */
  lemma {:induction false} MarkerTail4(n: string, q: string)
    requires n != [] && AllDigits(n)
    ensures ReplaceAll(ToLink, "[citation:" + n + "]" + q) == Link(n) + ReplaceAll(ToLink, q)
  {
    MarkerMatch4(n, q);
  }

  /** Rule 4 turns `[citation:N]` into `[citation](N)`. */
  lemma {:induction false} MarkerStep4(p: string, n: string, q: string)
    requires '[' !in p && n != [] && AllDigits(n)
    ensures ReplaceAll(ToLink, p + ("[citation:" + n + "]" + q)) == p + (Link(n) + ReplaceAll(ToLink, q))
  {
    ReplaceAllInertPrefix(ToLink, p, "[citation:" + n + "]" + q);
    MarkerTail4(n, q);
  }

  /**
   * The four rewrites take a marker after citation-free text to its link,
   * and go on with whatever follows as if it stood alone.
   */
  lemma MarkerToLink(p: string, c: char, n: string, q: string)
    requires IsC(c) && n != [] && AllDigits(n) && CitationFree(p)
    ensures NormaliseCitations(p + Marker(c, n) + q) == p + Link(n) + NormaliseCitations(q)
  {
    var q1 := ReplaceAll(CollapseOpening, q);
    var q2 := ReplaceAll(CollapseClosing, q1);
    var q3 := ReplaceAll(UnwrapDouble, q2);
    assert p + Marker(c, n) + q == p + (Marker(c, n) + q);
    MarkerStep1(p, c, n, q);
    MarkerStep2(p, n, q1);
    MarkerStep3(p, n, q2);
    MarkerStep4(p, n, q3);
    assert p + (Link(n) + ReplaceAll(ToLink, q3)) == p + Link(n) + ReplaceAll(ToLink, q3);
  }

  /** Text before a citation marker, the marker's first letter and its number. */
  datatype Cited = Cited(before: string, c: char, n: string)

  /** Every marker is `[[citation:N]]` or `[[Citation:N]]` after citation-free text. */
  predicate WellCited(segs: seq<Cited>) {
    forall k :: 0 <= k < |segs| ==> CitationFree(segs[k].before) && IsC(segs[k].c) && segs[k].n != [] && AllDigits(segs[k].n)
  }

  /** An answer with markers: each segment's text and marker in turn, then `tail`. */
  function WithMarkers(segs: seq<Cited>, tail: string): string
    decreases |segs|
  {
    if segs == [] then tail
    else segs[0].before + Marker(segs[0].c, segs[0].n) + WithMarkers(segs[1..], tail)
  }

  /** The same answer with every marker written as its link. */
  function WithLinks(segs: seq<Cited>, tail: string): string
    decreases |segs|
  {
    if segs == [] then tail
    else segs[0].before + Link(segs[0].n) + WithLinks(segs[1..], tail)
  }

  /** Every citation marker of an answer is rewritten to its link, and nothing else changes. */
  lemma {:induction false} MarkersToLinks(segs: seq<Cited>, tail: string)
    requires WellCited(segs) && CitationFree(tail)
    ensures NormaliseCitations(WithMarkers(segs, tail)) == WithLinks(segs, tail)
    decreases |segs|
  {
    if segs == [] {
      CitationFreeUntouched(tail);
    } else {
      assert WellCited(segs[1..]) by {
        forall k | 0 <= k < |segs[1..]| ensures segs[1..][k] == segs[k + 1] {
        }
      }
      MarkerToLink(segs[0].before, segs[0].c, segs[0].n, WithMarkers(segs[1..], tail));
      MarkersToLinks(segs[1..], tail);
    }
  }

  /** A link to digits has no newline, so a newline-free text before it stays newline-free. */
  lemma {:induction false} LinkHasNoNewline(p: string, n: string)
    requires '\n' !in p && AllDigits(n)
    ensures '\n' !in p + Link(n)
  {
    assert forall i :: 0 <= i < |n| ==> n[i] != '\n';
    assert '\n' !in n;
  }

  /**
   * `markdownParse` of a marker between citation-free texts: the marker
   * becomes its link and the first newline after it is escaped.
   */
  lemma CitationMarkerNormalised(p: string, c: char, n: string, q: string)
    requires IsC(c) && n != [] && AllDigits(n)
    requires CitationFree(p) && CitationFree(q) && '\n' !in p
    ensures MarkdownParse(p + Marker(c, n) + q) == p + Link(n) + ReplaceFirst(q, "\n", "\\n")
  {
    MarkerToLink(p, c, n, q);
    CitationFreeUntouched(q);
    LinkHasNoNewline(p, n);
    ReplaceFirstSkipsPrefix(p + Link(n), q, "\n", "\\n");
  }

  /** Text with no '[' and neither `citation` nor `Citation` in it. */
  predicate CitationFree(t: string) {
    '[' !in t && !Contains(t, "citation") && !Contains(t, "Citation")
  }

  lemma {:induction false} CitationWordIsKeyword(t: string, i: nat)
    requires i < |t| && CitationWordAt(t[i..], 0)
    ensures OccursAt(t, "citation", i) || OccursAt(t, "Citation", i)
  {
    assert t[i..][1..8] == t[i + 1..i + 8];
    assert t[i..i + 8] == [t[i]] + t[i + 1..i + 8];
  }

  /** None of the four rules changes citation-free text. */
  lemma {:induction false} CitationFreeUntouched(t: string)
    requires CitationFree(t)
    ensures NormaliseCitations(t) == t
  {
    ReplaceAllInert(CollapseOpening, t);
    forall i | 0 <= i < |t| ensures Match(CollapseClosing, t[i..]).None? {
      if CitationWordAt(t[i..], 0) {
        CitationWordIsKeyword(t, i);
      }
    }
    ReplaceAllNoMatch(CollapseClosing, t);
    ReplaceAllInert(UnwrapDouble, t);
    ReplaceAllInert(ToLink, t);
  }

  /** Text with no '[', no `citation`/`Citation` and no newline is returned unchanged. */
  lemma PlainTextUnchanged(t: string)
    requires CitationFree(t) && '\n' !in t
    ensures MarkdownParse(t) == t
  {
    CitationFreeUntouched(t);
    NotContainsWithoutLead(t, "\n");
    ReplaceFirstWithout(t, "\n", "\\n");
  }

  /** Only the first newline is replaced by the two characters backslash and 'n'. */
  lemma FirstNewlineOnly(a: string, b: string)
    requires CitationFree(a + "\n" + b) && '\n' !in a
    ensures MarkdownParse(a + "\n" + b) == a + "\\n" + b
  {
    CitationFreeUntouched(a + "\n" + b);
    NotContainsWithoutLead(a, "\n");
    ReplaceFirstAt(a, "\n", b, "\\n");
  }
}

/**
 * The full-line media pattern of `parse_markdown`:
 *
 *   ^(\s*)(!?\[)(\s*)((?:\n|.)*?)(\s*)(\])(\s*\(\s*(.*?)\s*\)\s*)$   (DOTALL, fullmatch)
 *
 * A line matches when it splits into seven parts: leading whitespace, the
 * opening `[` or `![`, whitespace, the alt text, whitespace, `]`, and a target
 * clause `(...)` with optional whitespace around it. Among all such splits
 * Python's backtracking picks the one with the longest whitespace after the
 * opening bracket and, for that, the shortest alt text (the lazy group 4).
 */
module MediaLink {
  import opened Wrappers
  import opened Lines

  /** Regex groups 1 to 7 (components 0 to 6 of `match.groups()`). */
  datatype MediaParts = MediaParts(
    lead: string, open: string, ws1: string, alt: string, ws2: string, close: string, target: string)

  function Concat(p: MediaParts): string {
    p.lead + (p.open + (p.ws1 + (p.alt + (p.ws2 + (p.close + p.target)))))
  }

  /**
   * Group 7, `\s*\(\s*(.*?)\s*\)\s*`: whitespace, `(`, anything, `)`,
   * whitespace. Since the parentheses are not whitespace this is the same as
   * saying that the clause, stripped, starts with `(`, ends with `)` and has
   * at least those two characters.
   */
  predicate IsTargetClause(t: string) {
    var a := LeadingSpaces(t);
    var b := TrailingSpaces(t);
    a + 2 <= |t| - b && t[a] == '(' && t[|t| - 1 - b] == ')'
  }

  /** `p` is one way for the whole of `line` to match the media pattern. */
  predicate IsMediaDecomp(line: string, p: MediaParts) {
    && line == Concat(p)
    && AllSpace(p.lead)
    && (p.open == "[" || p.open == "![")
    && AllSpace(p.ws1)
    && AllSpace(p.ws2)
    && p.close == "]"
    && IsTargetClause(p.target)
  }

  /** The rest of the line after the alt text matches `(\s*)(\])(group 7)$`. */
  predicate ClosesAt(t: string) {
    var n := LeadingSpaces(t);
    n < |t| && t[n] == ']' && IsTargetClause(t[n + 1..])
  }

  /** Group 4 may end at position `q` of `body`. */
  predicate ClosesFrom(body: string, q: nat)
    requires q <= |body|
  {
    ClosesAt(body[q..])
  }

  /** The lazy group 4: the first end position, from `p` on, after which the line can close. */
  function FindAltEnd(body: string, p: nat): (r: Option<nat>)
    requires p <= |body|
    ensures r.Some? ==> p <= r.value <= |body| && ClosesFrom(body, r.value)
    ensures r.Some? ==> forall q :: p <= q < r.value ==> !ClosesFrom(body, q)
    ensures r.None? ==> forall q :: p <= q <= |body| ==> !ClosesFrom(body, q)
    decreases |body| - p
  {
    if ClosesFrom(body, p) then Some(p)
    else if p == |body| then None
    else FindAltEnd(body, p + 1)
  }

  /** The opening bracket `!?\[` at the start of `s`, or "" when there is none. */
  function OpenBracket(s: string): string {
    if |s| >= 2 && s[0] == '!' && s[1] == '[' then "!["
    else if |s| >= 1 && s[0] == '[' then "["
    else ""
  }

  /**
   * The seven groups once the leading whitespace `lead`, the bracket `open`
   * and the whitespace run of length `n3` at the start of the remainder `r2`
   * are known, and the alt text is to end at position `p` after that run.
   */
  function PartsAt(lead: string, open: string, r2: string, n3: nat, p: nat): MediaParts
    requires n3 <= |r2| && p <= |r2| - n3 && ClosesFrom(r2[n3..], p)
  {
    var body := r2[n3..];
    var tail := body[p..];
    var n5 := LeadingSpaces(tail);
    MediaParts(lead, open, r2[..n3], body[..p], tail[..n5], "]", tail[n5 + 1..])
  }

  /** The opening bracket that follows the leading whitespace of `line`. */
  function Bracket(line: string): string {
    OpenBracket(line[LeadingSpaces(line)..])
  }

  /** What follows the leading whitespace and the opening bracket. */
  function AfterBracket(line: string): string {
    var r1 := line[LeadingSpaces(line)..];
    r1[|OpenBracket(r1)|..]
  }

  /** `media_pattern.fullmatch(line)`, giving the groups Python's matcher picks. */
  function MatchMedia(line: string): Option<MediaParts> {
    if Bracket(line) == "" then None
    else
      var r2 := AfterBracket(line);
      var n3 := LeadingSpaces(r2);
      match FindAltEnd(r2[n3..], 0)
      case None => None
      case Some(p) => Some(PartsAt(line[..LeadingSpaces(line)], Bracket(line), r2, n3, p))
  }

  /** Cutting a string at `k` and gluing the halves gives it back. */
  lemma SplitAt(s: string, k: nat)
    requires k <= |s|
    ensures s == s[..k] + s[k..]
  {
  }

  lemma ConsAt(s: string, k: nat)
    requires k < |s|
    ensures s[k..] == [s[k]] + s[k + 1..]
  {
  }

  lemma OpenBracketPrefix(s: string)
    ensures OpenBracket(s) == "" || OpenBracket(s) == "[" || OpenBracket(s) == "!["
    ensures s == OpenBracket(s) + s[|OpenBracket(s)|..]
  {
  }

  /** The groups built by PartsAt concatenate to the line and have the shapes the pattern asks for. */
  lemma PartsAtSound(lead: string, open: string, r2: string, n3: nat, p: nat)
    requires n3 <= |r2| && p <= |r2| - n3 && ClosesFrom(r2[n3..], p)
    requires AllSpace(lead) && (open == "[" || open == "![") && AllSpace(r2[..n3])
    ensures IsMediaDecomp(lead + (open + r2), PartsAt(lead, open, r2, n3, p))
  {
    var body := r2[n3..];
    var tail := body[p..];
    var n5 := LeadingSpaces(tail);
    ConsAt(tail, n5);
    SplitAt(tail, n5);
    SplitAt(body, p);
    SplitAt(r2, n3);
  }

  /** What a match yields is a decomposition of the line: components 0..6 concatenate to it. */
  lemma MatchMediaSound(line: string)
    requires MatchMedia(line).Some?
    ensures IsMediaDecomp(line, MatchMedia(line).value)
  {
    var n1 := LeadingSpaces(line);
    var r2 := AfterBracket(line);
    var n3 := LeadingSpaces(r2);
    var p := FindAltEnd(r2[n3..], 0).value;
    OpenBracketPrefix(line[n1..]);
    SplitAt(line, n1);
    PartsAtSound(line[..n1], Bracket(line), r2, n3, p);
  }

  /** Any decomposition starts with all of the line's leading whitespace and the same bracket. */
  lemma DecompPrefix(line: string, q: MediaParts)
    requires IsMediaDecomp(line, q)
    ensures LeadingSpaces(line) == |q.lead|
    ensures Bracket(line) == q.open
    ensures AfterBracket(line) == q.ws1 + (q.alt + (q.ws2 + ("]" + q.target)))
  {
    var r2 := q.ws1 + (q.alt + (q.ws2 + ("]" + q.target)));
    var r1 := q.open + r2;
    assert line[|q.lead|..] == r1;
    assert r1[0] == q.open[0];
    LeadingSpacesPrefix(q.lead, r1);
    assert q.open == "![" ==> r1[1] == '[';
  }

  /** Whitespace from `x` up to a `]` at `c`, then a target clause: the rest closes at `x`. */
  lemma ClosesAfterSpace(s: string, x: nat, c: nat)
    requires x <= c < |s|
    requires forall k :: x <= k < c ==> IsSpace(s[k])
    requires s[c] == ']' && IsTargetClause(s[c + 1..])
    ensures ClosesAt(s[x..])
  {
    var t := s[x..];
    var w := s[x..c];
    assert t == w + s[c..];
    assert s[c..][0] == ']';
    LeadingSpacesPrefix(w, s[c..]);
    assert t[c - x] == ']';
    assert t[c - x + 1..] == s[c + 1..];
  }

  /** Facts about the part after the opening bracket of a decomposition. */
  lemma AfterOpen(q: MediaParts, r2: string)
    requires r2 == q.ws1 + (q.alt + (q.ws2 + ("]" + q.target)))
    requires AllSpace(q.ws1) && AllSpace(q.ws2)
    ensures var e := |q.ws1| + |q.alt|; var c := e + |q.ws2|;
      && c < |r2| && r2[c] == ']' && r2[c + 1..] == q.target
      && (forall k :: e <= k < c ==> IsSpace(r2[k]))
      && (forall k :: 0 <= k < |q.ws1| ==> IsSpace(r2[k]))
  {
    var r3 := q.alt + (q.ws2 + ("]" + q.target));
    var r4 := q.ws2 + ("]" + q.target);
    var e := |q.ws1| + |q.alt|;
    assert r2[|q.ws1|..] == r3;
    assert r3[|q.alt|..] == r4;
    assert r2[e..] == r4;
    forall k | e <= k < e + |q.ws2| ensures IsSpace(r2[k]) {
      assert r2[k] == r4[k - e] == q.ws2[k - e];
    }
    forall k | 0 <= k < |q.ws1| ensures IsSpace(r2[k]) {
      assert r2[k] == q.ws1[k];
    }
    assert r4[|q.ws2|..] == "]" + q.target;
    assert r2[e + |q.ws2|..] == "]" + q.target;
  }

  /**
   * Where any decomposition `q` lets group 4 end, measured after the maximal
   * whitespace that follows the bracket.
   */
  lemma DecompCloses(line: string, q: MediaParts) returns (x: nat)
    requires IsMediaDecomp(line, q)
    ensures LeadingSpaces(line) == |q.lead| && line[..|q.lead|] == q.lead
    ensures Bracket(line) == q.open
    ensures var r2 := AfterBracket(line); var n3 := LeadingSpaces(r2);
      && |q.ws1| <= n3
      && x <= |r2| - n3 && ClosesFrom(r2[n3..], x)
      && (q.ws1 == r2[..n3] ==> x == |q.alt|)
  {
    DecompPrefix(line, q);
    x := AltEnd(q, AfterBracket(line));
    SplitAt(line, |q.lead|);
  }

  /** The same, once the part after the bracket is known. */
  lemma AltEnd(q: MediaParts, r2: string) returns (x: nat)
    requires r2 == q.ws1 + (q.alt + (q.ws2 + ("]" + q.target)))
    requires AllSpace(q.ws1) && AllSpace(q.ws2) && IsTargetClause(q.target)
    ensures var n3 := LeadingSpaces(r2);
      && |q.ws1| <= n3
      && x <= |r2| - n3 && ClosesFrom(r2[n3..], x)
      && (q.ws1 == r2[..n3] ==> x == |q.alt|)
  {
    AfterOpen(q, r2);
    var e := |q.ws1| + |q.alt|;
    var c := e + |q.ws2|;
    assert |q.ws1| <= e <= c < |r2|;
    assert forall k :: 0 <= k < |q.ws1| ==> IsSpace(r2[k]);
    assert forall k :: e <= k < c ==> IsSpace(r2[k]);
    assert r2[c] == ']';
    SameTarget(q.target, r2[c + 1..]);
    x := ClosesAfterRun(r2, |q.ws1|, e, c);
  }

  /** Hides the target clause's definition from the proof of AltEnd, which only needs it carried over. */
  lemma SameTarget(a: string, b: string)
    requires a == b && IsTargetClause(a)
    ensures IsTargetClause(b)
  {
  }

  /**
   * A whitespace run of length `w1` at the start of `r2`, a whitespace run
   * from `e` up to a `]` at `c`, then a target clause: after the maximal
   * leading whitespace the alt text may end at `x`.
   */
  lemma ClosesAfterRun(r2: string, w1: nat, e: nat, c: nat) returns (x: nat)
    requires w1 <= e <= c < |r2|
    requires forall k :: 0 <= k < w1 ==> IsSpace(r2[k])
    requires forall k :: e <= k < c ==> IsSpace(r2[k])
    requires r2[c] == ']' && IsTargetClause(r2[c + 1..])
    ensures var n3 := LeadingSpaces(r2);
      && w1 <= n3 <= c
      && x <= |r2| - n3 && ClosesFrom(r2[n3..], x)
      && (n3 <= e ==> x == e - n3)
  {
    var n3 := LeadingSpaces(r2);
    LeadingSpacesAtLeast(r2, w1);
    LeadingSpacesAtMost(r2, c);
    var y := if e >= n3 then e else n3;
    ClosesAfterSpace(r2, y, c);
    SuffixOfSuffix(r2, n3, y);
    x := y - n3;
  }

  lemma SuffixOfSuffix(s: string, a: nat, b: nat)
    requires a <= b <= |s|
    ensures s[a..][b - a..] == s[b..]
  {
  }

  /**
   * A line that splits into the seven parts in some way is recognised as
   * media, and the split Python picks has the same leading whitespace and
   * bracket as any other split, whitespace after the bracket at least as
   * long, and, for the same whitespace, an alt text no longer.
   */
  lemma MatchMediaLazy(line: string, q: MediaParts)
    requires IsMediaDecomp(line, q)
    ensures MatchMedia(line).Some?
    ensures var p := MatchMedia(line).value;
      && p.lead == q.lead && p.open == q.open
      && |q.ws1| <= |p.ws1|
      && (p.ws1 == q.ws1 ==> |p.alt| <= |q.alt|)
  {
    var x := DecompCloses(line, q);
    MatchWithin(line, x);
  }

  /** If the alt text may end at `x`, the match exists and its alt text ends no later. */
  lemma MatchWithin(line: string, x: nat)
    requires Bracket(line) != ""
    requires var r2 := AfterBracket(line); var n3 := LeadingSpaces(r2);
      x <= |r2| - n3 && ClosesFrom(r2[n3..], x)
    ensures MatchMedia(line).Some?
    ensures var p := MatchMedia(line).value;
      && p.lead == line[..LeadingSpaces(line)] && p.open == Bracket(line)
      && p.ws1 == AfterBracket(line)[..LeadingSpaces(AfterBracket(line))]
      && |p.alt| <= x
  {
    var r2 := AfterBracket(line);
    var n3 := LeadingSpaces(r2);
    FindAltEndFirst(r2[n3..], x);
    var p := FindAltEnd(r2[n3..], 0).value;
    PartsAtShape(line[..LeadingSpaces(line)], Bracket(line), r2, n3, p);
  }

  /** The lazy search stops no later than any position where the line can close. */
  lemma FindAltEndFirst(body: string, x: nat)
    requires x <= |body| && ClosesFrom(body, x)
    ensures FindAltEnd(body, 0).Some? && FindAltEnd(body, 0).value <= x
  {
  }

  lemma PartsAtShape(lead: string, open: string, r2: string, n3: nat, p: nat)
    requires n3 <= |r2| && p <= |r2| - n3 && ClosesFrom(r2[n3..], p)
    ensures var parts := PartsAt(lead, open, r2, n3, p);
      parts.lead == lead && parts.open == open && parts.ws1 == r2[..n3] && |parts.alt| == p
  {
  }

  /** One character of leading whitespace does not change whether the rest closes. */
  lemma ClosesAtSpace(t: string)
    requires t != [] && IsSpace(t[0])
    ensures ClosesAt(t) == ClosesAt(t[1..])
  {
    var u := t[1..];
    var n := LeadingSpaces(u);
    assert LeadingSpaces(t) == n + 1;
    if n < |u| {
      assert t[n + 1] == u[n];
      assert t[n + 2..] == u[n + 1..];
    }
  }

  /** The shortest alt text, started after maximal whitespace, has no whitespace at either end. */
  lemma ShortestAltIsStripped(body: string, p: nat)
    requires p <= |body| && ClosesFrom(body, p)
    requires forall q :: 0 <= q < p ==> !ClosesFrom(body, q)
    requires body != [] ==> !IsSpace(body[0])
    ensures Strip(body[..p]) == body[..p]
  {
    var alt := body[..p];
    if p > 0 && IsSpace(alt[p - 1]) {
      assert !ClosesFrom(body, p - 1);
      assert body[p - 1..][1..] == body[p..];
      ClosesAtSpace(body[p - 1..]);
      assert false;
    }
    StripNoEdgeSpace(alt);
  }

  /** The alt text Python captures has no whitespace at either end, so stripping it is a no-op. */
  lemma MatchedAltIsStripped(line: string)
    requires MatchMedia(line).Some?
    ensures Strip(MatchMedia(line).value.alt) == MatchMedia(line).value.alt
  {
    var r2 := AfterBracket(line);
    var n3 := LeadingSpaces(r2);
    var body := r2[n3..];
    var p := FindAltEnd(body, 0).value;
    assert body != [] ==> body[0] == r2[n3];
    ShortestAltIsStripped(body, p);
  }
}

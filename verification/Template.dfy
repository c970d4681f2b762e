/**
 Message template rendering: every `{{name}}` in a body is replaced by the value of
 `name`, or kept when the name has no value.

 `Render` is the left-to-right scan. `Occurs` is the language-level meaning of a
 placeholder, independent of any scan; the theorems connect the two and say when two
 renderings compose.
 */
module Template {

  type Variables = map<string, string>

  /** The class `\w` of the pattern: ASCII letters, digits and underscore. */
  predicate IsWord(c: char) {
    'a' <= c <= 'z' || 'A' <= c <= 'Z' || '0' <= c <= '9' || c == '_'
  }

  predicate AllWord(s: string) {
    forall k :: 0 <= k < |s| ==> IsWord(s[k])
  }

  /** Two opening braces, one or more word characters, two closing braces. */
  predicate IsPlaceholder(p: string) {
    && |p| >= 5
    && p[0] == '{' && p[1] == '{'
    && p[|p| - 2] == '}' && p[|p| - 1] == '}'
    && AllWord(p[2..|p| - 2])
  }

  /** `s[i..j]` is a placeholder. */
  predicate Occurs(s: string, i: int, j: int) {
    0 <= i <= j <= |s| && IsPlaceholder(s[i..j])
  }

  /** Length of the longest prefix of word characters. */
  function WordRun(s: string): (n: nat)
    ensures n <= |s| && AllWord(s[..n])
    ensures n < |s| ==> !IsWord(s[n])
  {
    if s == "" || !IsWord(s[0]) then 0 else 1 + WordRun(s[1..])
  }

  /** Length of the placeholder that starts `s`, or 0. */
  function MatchLength(s: string): (n: nat)
    ensures n <= |s|
    ensures n > 0 ==> n >= 5 && Occurs(s, 0, n)
  {
    if |s| < 5 || s[0] != '{' || s[1] != '{' then 0
    else
      var w := WordRun(s[2..]);
      if w > 0 && w + 4 <= |s| && s[w + 2] == '}' && s[w + 3] == '}' then
        assert s[0..w + 4][2..w + 2] == s[2..][..w];
        w + 4
      else 0
  }

  /** The replacement of one matched placeholder. */
  function Substitute(placeholder: string, vars: Variables): string
    requires |placeholder| >= 4
  {
    var name := placeholder[2..|placeholder| - 2];
    if name in vars then vars[name] else placeholder
  }

  /** The whole rendering: the scan resumes after each match and never looks at inserted text. */
  function Render(s: string, vars: Variables): string {
    if s == "" then ""
    else
      var n := MatchLength(s);
      if n > 0 then Substitute(s[..n], vars) + Render(s[n..], vars)
      else [s[0]] + Render(s[1..], vars)
  }

  lemma RenderStep(s: string, vars: Variables)
    ensures var n := MatchLength(s);
            Render(s, vars) == if s == "" then ""
                               else if n > 0 then Substitute(s[..n], vars) + Render(s[n..], vars)
                               else [s[0]] + Render(s[1..], vars)
  {}

  // --- Names ----------------------------------------------------------------------------

  /** The letters, digits and underscore a name is made of. */
  predicate IsName(name: string) {
    name != "" && forall k :: 0 <= k < |name| ==>
      'a' <= name[k] <= 'z' || 'A' <= name[k] <= 'Z' || '0' <= name[k] <= '9' || name[k] == '_'
  }

  /** A placeholder with such a name is replaced by the name's value, and left alone when it has none. */
  lemma NamedPlaceholderIsReplaced(name: string, vars: Variables)
    requires IsName(name)
    ensures var p := ['{', '{'] + name + ['}', '}']; Render(p, vars) == if name in vars then vars[name] else p
  {
    var p := ['{', '{'] + name + ['}', '}'];
    assert p[0..|p|] == p && p[2..|p| - 2] == name;
    assert Occurs(p, 0, |p|);
    MatchLengthIsTheMatch(p, |p|);
    RenderStep(p, vars);
    hide Render, MatchLength;
    assert p[..|p|] == p && p[|p|..] == "";
    RenderStep("", vars);
  }

  /** Any other text between double braces, as long as it holds none, is left alone. */
  lemma OtherBracedTextIsKept(text: string, vars: Variables)
    requires !IsName(text) && '{' !in text && '}' !in text
    ensures var p := ['{', '{'] + text + ['}', '}']; Render(p, vars) == p
  {
    var p := ['{', '{'] + text + ['}', '}'];
    forall i, j ensures !Occurs(p, i, j) {
      OtherBracedTextIsNoPlaceholder(text, i, j);
    }
    hide Occurs;
    RenderSkips(p, |p|, vars);
    RenderStep("", vars);
    assert p[|p|..] == "" && p[..|p|] == p;
  }

  lemma OtherBracedTextIsNoPlaceholder(text: string, i: int, j: int)
    requires !IsName(text) && '{' !in text && '}' !in text
    ensures !Occurs(['{', '{'] + text + ['}', '}'], i, j)
  {
    var p := ['{', '{'] + text + ['}', '}'];
    if 0 <= i && i + 5 <= j <= |p| {
      var q := p[i..j];
      assert q[0] == p[i] && q[1] == p[i + 1] && q[|q| - 2] == p[j - 2] && q[|q| - 1] == p[j - 1];
      assert forall k :: 2 <= k < |p| - 2 ==> p[k] == text[k - 2] && p[k] in text;
      if i == 0 && j == |p| {
        assert q == p;
        assert p[2..|p| - 2] == text;
      }
    }
  }

  // --- Every occurrence, and nothing else, is replaced --------------------------------

  /** The greedy match at the front is the only placeholder there. */
  lemma MatchLengthIsTheMatch(s: string, j: nat)
    requires Occurs(s, 0, j)
    ensures MatchLength(s) == j
  {
    var p := s[0..j];
    var w := WordRun(s[2..]);
    assert forall k :: 0 <= k < j ==> p[k] == s[k];
    assert forall k :: 2 <= k < j - 2 ==> s[k] == p[2..j - 2][k - 2];
    assert forall k :: 0 <= k < w ==> s[k + 2] == s[2..][..w][k];
    assert s[2..][j - 4] == s[j - 2] == '}';
    assert w + 2 < |s| ==> s[2..][w] == s[w + 2];
  }

  lemma OccursBounds(s: string, i: int, j: int)
    requires Occurs(s, i, j)
    ensures 0 <= i && i + 5 <= j <= |s|
  {}

  lemma OccursShifts(s: string, n: nat, i: nat, j: int)
    requires n <= |s|
    ensures Occurs(s[n..], i, j) <==> Occurs(s, i + n, j + n)
  {
    if i <= j <= |s| - n {
      assert s[n..][i..j] == s[i + n..j + n];
    }
  }

  /** Two occurrences are the same one, or one ends before the other begins. */
  lemma OccurrencesDoNotOverlap(s: string, i: int, j: int, i': int, j': int)
    requires Occurs(s, i, j) && Occurs(s, i', j')
    requires i <= i'
    ensures (i == i' && j == j') || j <= i'
  {
    if i == i' {
      OccursShifts(s, i, 0, j - i);
      OccursShifts(s, i, 0, j' - i);
      MatchLengthIsTheMatch(s[i..], j - i);
      MatchLengthIsTheMatch(s[i..], j' - i);
    } else {
      var p, p' := s[i..j], s[i'..j'];
      assert forall k :: i + 2 <= k < j - 2 ==> s[k] == p[2..|p| - 2][k - i - 2];
      assert s[j - 2] == p[|p| - 2] && s[j - 1] == p[|p| - 1];
      assert s[i'] == p'[0] && s[i' + 1] == p'[1];
    }
  }

  /** A body cut into literal text and placeholders. */
  datatype Segment = Literal(text: string) | Hole(name: string)

  function Source(segment: Segment): string {
    match segment
    case Literal(text) => text
    case Hole(name) => "{{" + name + "}}"
  }

  function Flatten(segments: seq<Segment>): string {
    if segments == [] then "" else Source(segments[0]) + Flatten(segments[1..])
  }

  function Fill(segment: Segment, vars: Variables): string {
    if segment.Hole? && segment.name in vars then vars[segment.name] else Source(segment)
  }

  /** Simultaneous replacement of all holes: what rendering means, with no scanning. */
  function ReplaceAll(segments: seq<Segment>, vars: Variables): string {
    if segments == [] then "" else Fill(segments[0], vars) + ReplaceAll(segments[1..], vars)
  }

  /** Some hole of the cut occupies exactly the characters `i..j`. */
  ghost predicate HoleAt(segments: seq<Segment>, i: int, j: int) {
    segments != [] &&
    var n := |Source(segments[0])|;
    (segments[0].Hole? && i == 0 && j == n) || HoleAt(segments[1..], i - n, j - n)
  }

  /** The cut loses nothing and its holes are exactly the occurrences. */
  ghost predicate ExactCut(segments: seq<Segment>, s: string) {
    && Flatten(segments) == s
    && forall i, j :: Occurs(s, i, j) <==> HoleAt(segments, i, j)
  }

  lemma {:induction false} HoleAtBounds(segments: seq<Segment>, i: int, j: int)
    requires HoleAt(segments, i, j)
    ensures 0 <= i && i + 4 <= j <= |Flatten(segments)|
  {
    var n := |Source(segments[0])|;
    if !(segments[0].Hole? && i == 0 && j == n) {
      HoleAtBounds(segments[1..], i - n, j - n);
    }
  }

  /** Text in which no placeholder starts is copied unchanged. */
  lemma {:induction false} RenderSkips(s: string, n: nat, vars: Variables)
    requires n <= |s|
    requires forall i, j :: 0 <= i < n ==> !Occurs(s, i, j)
    ensures Render(s, vars) == s[..n] + Render(s[n..], vars)
  {
    hide Occurs, MatchLength, Render;
    if n == 0 {
      assert s[n..] == s;
    } else {
      forall i: nat, j | i < n - 1 ensures !Occurs(s[1..], i, j) {
        OccursShifts(s, 1, i, j);
      }
      RenderSkips(s[1..], n - 1, vars);
      assert s[1..][n - 1..] == s[n..];
      assert s[..n] == [s[0]] + s[1..][..n - 1];
      RenderStep(s, vars);
    }
  }

  lemma ExactCutTail(segments: seq<Segment>, s: string)
    requires segments != [] && ExactCut(segments, s)
    ensures var n := |Source(segments[0])|;
            && n <= |s| && s[..n] == Source(segments[0])
            && ExactCut(segments[1..], s[n..])
  {
    hide Occurs;
    var n := |Source(segments[0])|;
    assert s == Source(segments[0]) + Flatten(segments[1..]);
    assert s[n..] == Flatten(segments[1..]);
    forall i, j | Occurs(s[n..], i, j) ensures HoleAt(segments[1..], i, j) {
      OccursBounds(s[n..], i, j);
      OccursShifts(s, n, i, j);
      assert HoleAt(segments, i + n, j + n);
    }
    forall i, j | HoleAt(segments[1..], i, j) ensures Occurs(s[n..], i, j) {
      HoleAtBounds(segments[1..], i, j);
      OccursShifts(s, n, i, j);
      assert HoleAt(segments[1..], (i + n) - n, (j + n) - n);
      assert HoleAt(segments, i + n, j + n);
    }
  }

  /** The scan computes the simultaneous replacement, for every exact cut of the body. */
  lemma {:induction false} RenderReplacesExactlyAllOccurrences(s: string, segments: seq<Segment>, vars: Variables)
    requires ExactCut(segments, s)
    ensures Render(s, vars) == ReplaceAll(segments, vars)
    decreases |segments|
  {
    if segments != [] {
      ExactCutTail(segments, s);
      var n := |Source(segments[0])|;
      RenderReplacesExactlyAllOccurrences(s[n..], segments[1..], vars);
      RenderFillsTheFirstSegment(s, segments, vars);
    }
  }

  lemma RenderFillsTheFirstSegment(s: string, segments: seq<Segment>, vars: Variables)
    requires segments != [] && ExactCut(segments, s)
    requires |Source(segments[0])| <= |s| && s[..|Source(segments[0])|] == Source(segments[0])
    ensures Render(s, vars) == Fill(segments[0], vars) + Render(s[|Source(segments[0])|..], vars)
  {
    hide Occurs, MatchLength;
    var n := |Source(segments[0])|;
    if segments[0].Hole? {
      assert HoleAt(segments, 0, n);
      MatchLengthIsTheMatch(s, n);
      assert s[..n][2..n - 2] == segments[0].name;
    } else {
      forall i, j | 0 <= i < n ensures !Occurs(s, i, j) {
        if HoleAt(segments, i, j) {
          HoleAtBounds(segments[1..], i - n, j - n);
          assert false;
        }
      }
      RenderSkips(s, n, vars);
    }
  }

  /** Cuts a body at every placeholder. */
  function Cut(s: string): seq<Segment> {
    if s == "" then []
    else
      var n := MatchLength(s);
      if n > 0 then [Hole(s[2..n - 2])] + Cut(s[n..]) else [Literal([s[0]])] + Cut(s[1..])
  }

  /** Every body has an exact cut, so the previous theorem speaks about every body. */
  lemma {:induction false} EveryBodyHasAnExactCut(s: string)
    ensures ExactCut(Cut(s), s)
  {
    hide Occurs, MatchLength;
    if s == "" {
      forall i, j ensures !Occurs(s, i, j) {
        if Occurs(s, i, j) {
          OccursBounds(s, i, j);
          assert false;
        }
      }
    } else {
      var n := MatchLength(s);
      var m := if n > 0 then n else 1;
      EveryBodyHasAnExactCut(s[m..]);
      var head := if n > 0 then Hole(s[2..n - 2]) else Literal([s[0]]);
      assert Cut(s) == [head] + Cut(s[m..]);
      hide Cut;
      assert Source(head) == s[..m] by {
        if n > 0 { PlaceholderSource(s, n); }
      }
      forall i, j ensures i < m ==> (Occurs(s, i, j) <==> head.Hole? && i == 0 && j == m) {
        HeadOccurrence(s, i, j);
      }
      ExactCutExtends(head, Cut(s[m..]), s);
    }
  }

  lemma PlaceholderSource(s: string, n: nat)
    requires Occurs(s, 0, n)
    ensures n >= 5 && s[..n] == Source(Hole(s[2..n - 2]))
  {
    assert s[..n] == s[0..n];
  }

  lemma ExactCutExtends(head: Segment, tail: seq<Segment>, s: string)
    requires 0 < |Source(head)| <= |s| && s[..|Source(head)|] == Source(head)
    requires ExactCut(tail, s[|Source(head)|..])
    requires forall i, j :: i < |Source(head)| ==>
               (Occurs(s, i, j) <==> head.Hole? && i == 0 && j == |Source(head)|)
    ensures ExactCut([head] + tail, s)
  {
    hide Occurs;
    var m := |Source(head)|;
    var segments := [head] + tail;
    assert segments[1..] == tail;
    assert Flatten(segments) == s by { assert s == s[..m] + s[m..]; }
    forall i, j ensures Occurs(s, i, j) <==> HoleAt(segments, i, j) {
      assert HoleAt(segments, i, j) <==> (head.Hole? && i == 0 && j == m) || HoleAt(tail, i - m, j - m);
      if HoleAt(tail, i - m, j - m) { HoleAtBounds(tail, i - m, j - m); }
      if m <= i { OccursShifts(s, m, i - m, j - m); }
    }
  }

  /** An occurrence that starts inside the first cut segment is that segment. */
  lemma HeadOccurrence(s: string, i: int, j: int)
    requires s != ""
    ensures var n := MatchLength(s);
            var m := if n > 0 then n else 1;
            i < m ==> (Occurs(s, i, j) <==> n > 0 && i == 0 && j == n)
  {
    if Occurs(s, i, j) {
      if MatchLength(s) > 0 {
        OccurrencesDoNotOverlap(s, 0, MatchLength(s), i, j);
      } else if i == 0 {
        MatchLengthIsTheMatch(s, j);
      }
    }
  }

  // --- Composition ---------------------------------------------------------------------

  /** Rendering twice is rendering once with the first map taking precedence. */
  ghost predicate Composes(s: string, first: Variables, second: Variables) {
    Render(Render(s, first), second) == Render(s, second + first)
  }

  /** Wherever the value is put, no placeholder overlaps it. */
  ghost predicate Sealed(value: string) {
    forall p, q, i, j :: Occurs(p + value + q, i, j) ==> j <= |p| || |p| + |value| <= i
  }

  /** Every value that some placeholder can be replaced by is sealed. */
  ghost predicate AllSealed(vars: Variables) {
    forall name :: name in vars && name != "" && AllWord(name) ==> Sealed(vars[name])
  }

  lemma OccursInOrder(s: string, i: int, j: int)
    ensures Occurs(s, i, j) ==> 0 <= i < j <= |s|
  {}

  lemma HolesAreInside(segments: seq<Segment>, i: int, j: int)
    ensures HoleAt(segments, i, j) ==> 0 <= i < j
  {
    if HoleAt(segments, i, j) {
      HoleAtBounds(segments, i, j);
    }
  }

  lemma OccursInPrefix(a: string, b: string, i: int, j: int)
    requires j <= |a|
    ensures Occurs(a + b, i, j) <==> Occurs(a, i, j)
  {
    hide IsPlaceholder;
    if 0 <= i <= j {
      assert (a + b)[i..j] == a[i..j];
    }
  }

  lemma OccursInSuffix(a: string, a': string, b: string, i: int, j: int)
    requires 0 <= i
    ensures Occurs(a + b, |a| + i, |a| + j) <==> Occurs(a' + b, |a'| + i, |a'| + j)
  {
    hide IsPlaceholder;
    if i <= j <= |b| {
      assert (a + b)[|a| + i..|a| + j] == b[i..j] == (a' + b)[|a'| + i..|a'| + j];
    }
  }

  /** Behind `before`, the occurrences are exactly the holes of the segments that follow. */
  ghost predicate HolesAfter(before: string, segments: seq<Segment>) {
    forall i, j :: HoleOrNot(before, segments, i, j)
  }

  ghost predicate HoleOrNot(before: string, segments: seq<Segment>, i: int, j: int) {
    j > 0 ==> (Occurs(before + Flatten(segments), |before| + i, |before| + j) <==> HoleAt(segments, i, j))
  }

  /** Occurrences that end within the segment are the segment, if it is a hole. */
  ghost predicate FrontExact(before: string, segment: Segment) {
    forall i, j :: HoleOrNothing(before, segment, i, j)
  }

  ghost predicate HoleOrNothing(before: string, segment: Segment, i: int, j: int) {
    0 < j <= |Source(segment)| ==>
      (Occurs(before + Source(segment), |before| + i, |before| + j) <==> segment.Hole? && i == 0 && j == |Source(segment)|)
  }

  lemma FrontStep(before: string, segments: seq<Segment>, i: int, j: int)
    requires segments != []
    ensures var n := |Source(segments[0])|;
            HoleAt(segments, i, j) <==> (segments[0].Hole? && i == 0 && j == n) || HoleAt(segments[1..], i - n, j - n)
    ensures before + Flatten(segments) == before + Source(segments[0]) + Flatten(segments[1..])
  {
    hide Source;
    assert Flatten(segments) == Source(segments[0]) + Flatten(segments[1..]);
  }

  lemma FrontOfHoles(before: string, segments: seq<Segment>)
    requires segments != [] && HolesAfter(before, segments)
    ensures FrontExact(before, segments[0])
  {
    hide Occurs, HoleAt, Flatten, Source;
    var front := segments[0];
    forall i, j ensures HoleOrNothing(before, front, i, j) {
      if 0 < j <= |Source(front)| {
        FrontStep(before, segments, i, j);
        HolesAreInside(segments[1..], i - |Source(front)|, j - |Source(front)|);
        assert HoleOrNot(before, segments, i, j);
        OccursInPrefix(before + Source(front), Flatten(segments[1..]), |before| + i, |before| + j);
      }
    }
  }

  lemma TailOfHoles(before: string, segments: seq<Segment>)
    requires segments != [] && HolesAfter(before, segments)
    ensures HolesAfter(before + Source(segments[0]), segments[1..])
  {
    hide Occurs, HoleAt, Flatten, Source;
    var n := |Source(segments[0])|;
    forall i, j ensures HoleOrNot(before + Source(segments[0]), segments[1..], i, j) {
      FrontStep(before, segments, i + n, j + n);
      assert HoleOrNot(before, segments, i + n, j + n);
    }
  }

  lemma SealedFront(before: string, value: string)
    requires Sealed(value)
    ensures FrontExact(before, Literal(value))
  {
    forall i, j ensures HoleOrNothing(before, Literal(value), i, j) {
      assert before + value + "" == before + value;
      assert Occurs(before + value + "", |before| + i, |before| + j) ==> |before| + j <= |before| || |before| + |value| <= |before| + i;
      OccursInOrder(before + value, |before| + i, |before| + j);
      hide Occurs, Sealed;
    }
  }

  lemma BehindSealed(before: string, value: string, after: string, i: int, j: int)
    requires Sealed(value) && |before| + |value| < j
    ensures Occurs(before + value + after, i, j) ==> |before| + |value| <= i
  {
    hide Occurs;
  }

  /** Filling the first hole with a sealed value leaves the later occurrences where they were. */
  lemma FilledTail(before: string, segments: seq<Segment>, value: string)
    requires segments != [] && HolesAfter(before, segments) && Sealed(value)
    ensures HolesAfter(before + value, segments[1..])
  {
    hide Occurs, HoleAt, Flatten, Source, Sealed;
    var a, a', b := before + Source(segments[0]), before + value, Flatten(segments[1..]);
    TailOfHoles(before, segments);
    forall i, j ensures HoleOrNot(a', segments[1..], i, j) {
      if j > 0 {
        assert HoleOrNot(a, segments[1..], i, j);
        BehindSealed(before, value, b, |a'| + i, |a'| + j);
        HolesAreInside(segments[1..], i, j);
        if i >= 0 {
          OccursInSuffix(a, a', b, i, j);
        }
      }
    }
  }

  lemma HolesFromFront(before: string, segments: seq<Segment>)
    requires segments != [] && FrontExact(before, segments[0])
    requires HolesAfter(before + Source(segments[0]), segments[1..])
    ensures HolesAfter(before, segments)
  {
    hide Occurs, HoleAt, Flatten, Source;
    var front := segments[0];
    var n := |Source(front)|;
    forall i, j ensures HoleOrNot(before, segments, i, j) {
      FrontStep(before, segments, i, j);
      HolesAreInside(segments[1..], i - n, j - n);
      assert HoleOrNothing(before, front, i, j);
      if 0 < j <= n {
        OccursInPrefix(before + Source(front), Flatten(segments[1..]), |before| + i, |before| + j);
      } else {
        assert HoleOrNot(before + Source(front), segments[1..], i - n, j - n);
      }
    }
  }

  /** A placeholder of the body has a name made of word characters. */
  lemma HoleHasAName(before: string, segments: seq<Segment>)
    requires segments != [] && segments[0].Hole? && HolesAfter(before, segments)
    ensures segments[0].name != "" && AllWord(segments[0].name)
  {
    var h := Source(segments[0]);
    assert HoleOrNot(before, segments, 0, |h|);
    var s := before + Flatten(segments);
    assert s[|before|..|before| + |h|] == h && h[2..|h| - 2] == segments[0].name;
  }

  /** The cut after a rendering: what was filled is text now. */
  function Refilled(segments: seq<Segment>, vars: Variables): seq<Segment> {
    if segments == [] then []
    else [if segments[0].Hole? && segments[0].name in vars then Literal(vars[segments[0].name]) else segments[0]]
         + Refilled(segments[1..], vars)
  }

  /** With sealed values, the holes left unfilled are the only occurrences of the rendered text. */
  lemma {:induction false} RefilledHoles(before: string, segments: seq<Segment>, vars: Variables)
    requires HolesAfter(before, segments) && AllSealed(vars)
    ensures HolesAfter(before, Refilled(segments, vars))
    decreases |segments|
  {
    if segments != [] {
      var after := Refilled(segments, vars);
      assert after[1..] == Refilled(segments[1..], vars);
      hide HolesAfter, FrontExact, Sealed, Refilled;
      if segments[0].Hole? && segments[0].name in vars {
        HoleHasAName(before, segments);
        SealedFront(before, vars[segments[0].name]);
        FilledTail(before, segments, vars[segments[0].name]);
      } else {
        FrontOfHoles(before, segments);
        TailOfHoles(before, segments);
      }
      RefilledHoles(before + Source(after[0]), segments[1..], vars);
      HolesFromFront(before, after);
    }
  }

  lemma ExactMeansHoles(segments: seq<Segment>, s: string)
    ensures ExactCut(segments, s) <==> Flatten(segments) == s && HolesAfter("", segments)
  {
    hide Flatten, Occurs, HoleAt;
    assert "" + Flatten(segments) == Flatten(segments);
    forall i, j ensures Occurs(Flatten(segments), i, j) || HoleAt(segments, i, j) ==> j > 0 {
      OccursInOrder(Flatten(segments), i, j);
      HolesAreInside(segments, i, j);
    }
    if HolesAfter("", segments) {
      assert forall i, j :: Occurs(Flatten(segments), i, j) <==> HoleAt(segments, i, j) by {
        forall i, j ensures Occurs(Flatten(segments), i, j) <==> HoleAt(segments, i, j) {
          assert HoleOrNot("", segments, i, j);
        }
      }
    }
  }

  lemma {:induction false} RefilledText(segments: seq<Segment>, first: Variables, second: Variables)
    ensures Flatten(Refilled(segments, first)) == ReplaceAll(segments, first)
    ensures ReplaceAll(Refilled(segments, first), second) == ReplaceAll(segments, second + first)
  {
    if segments != [] {
      RefilledText(segments[1..], first, second);
      assert Refilled(segments, first)[1..] == Refilled(segments[1..], first);
    }
  }

  /** With sealed values in the first map, rendering composes on every body and with every second map. */
  lemma RenderComposes(s: string, first: Variables, second: Variables)
    requires AllSealed(first)
    ensures Composes(s, first, second)
  {
    hide ExactCut, Cut, Render, Flatten, ReplaceAll, Refilled, AllSealed, HolesAfter;
    var cut := Cut(s);
    EveryBodyHasAnExactCut(s);
    RenderReplacesExactlyAllOccurrences(s, cut, first);
    RenderReplacesExactlyAllOccurrences(s, cut, second + first);
    ExactMeansHoles(cut, s);
    RefilledHoles("", cut, first);
    RefilledText(cut, first, second);
    ExactMeansHoles(Refilled(cut, first), Render(s, first));
    RenderReplacesExactlyAllOccurrences(Render(s, first), Refilled(cut, first), second);
  }

  lemma RenderIsIdempotent(s: string, vars: Variables)
    requires AllSealed(vars)
    ensures Render(Render(s, vars), vars) == Render(s, vars)
  {
    RenderComposes(s, vars, vars);
    assert vars + vars == vars;
  }

  // --- The condition is exact ------------------------------------------------------------

  ghost predicate Clean(s: string) {
    forall i, j :: !Occurs(s, i, j)
  }

  /** Between clean texts a placeholder is the only one. */
  lemma OneHole(left: string, name: string, right: string)
    requires Clean(left) && Clean(right) && name != "" && AllWord(name)
    ensures ExactCut([Literal(left), Hole(name), Literal(right)], left + Source(Hole(name)) + right)
  {
    var h := Source(Hole(name));
    var s := left + h + right;
    assert h[2..|h| - 2] == name && s[|left|..|left| + |h|] == h;
    assert Occurs(s, |left|, |left| + |h|);
    hide Occurs, Source, Clean;
    forall i, j ensures Occurs(s, i, j) <==> i == |left| && j == |left| + |h| {
      OnlyOccurrence(left, h, right, i, j);
    }
    ThreeSegments(left, name, right);
  }

  lemma OnlyOccurrence(left: string, h: string, right: string, i: int, j: int)
    requires Clean(left) && Clean(right) && Occurs(left + h + right, |left|, |left| + |h|)
    ensures Occurs(left + h + right, i, j) <==> i == |left| && j == |left| + |h|
  {
    hide Occurs;
    var s, n := left + h + right, |left| + |h|;
    assert s == left + (h + right) && s[n..] == right;
    if j <= |left| {
      OccursInPrefix(left, h + right, i, j);
      OccursInOrder(s, |left|, n);
    } else if n <= i {
      OccursShifts(s, n, i - n, j - n);
      OccursInOrder(s, |left|, n);
    } else if Occurs(s, i, j) && i <= |left| {
      OccurrencesDoNotOverlap(s, i, j, |left|, n);
    } else if Occurs(s, i, j) {
      OccurrencesDoNotOverlap(s, |left|, n, i, j);
    }
  }

  lemma ThreeSegments(left: string, name: string, right: string)
    ensures var cut := [Literal(left), Hole(name), Literal(right)];
            var n := |Source(Hole(name))|;
            && Flatten(cut) == left + Source(Hole(name)) + right
            && (forall i, j :: HoleAt(cut, i, j) <==> i == |left| && j == |left| + n)
            && forall vars: Variables :: name in vars ==> ReplaceAll(cut, vars) == left + vars[name] + right
  {
    var cut := [Literal(left), Hole(name), Literal(right)];
    assert cut[1..] == [Hole(name), Literal(right)] && cut[1..][1..] == [Literal(right)] && cut[1..][1..][1..] == [];
    assert Flatten(cut[1..][1..]) == right + "";
    forall i, j ensures HoleAt(cut, i, j) <==> i == |left| && j == |left| + |Source(Hole(name))| {
      var n := |left|;
      assert HoleAt(cut, i, j) <==> HoleAt(cut[1..], i - n, j - n);
      assert !HoleAt(cut[1..][1..], i - n - |Source(Hole(name))|, j - n - |Source(Hole(name))|);
    }
    forall vars: Variables | name in vars ensures ReplaceAll(cut, vars) == left + vars[name] + right {
      assert ReplaceAll(cut[1..][1..], vars) == right + "";
      assert ReplaceAll(cut[1..], vars) == vars[name] + right;
      assert ReplaceAll(cut, vars) == left + ReplaceAll(cut[1..], vars);
    }
  }

  lemma RenderOneHole(left: string, name: string, right: string, vars: Variables)
    requires Clean(left) && Clean(right) && name != "" && AllWord(name) && name in vars
    ensures Render(left + Source(Hole(name)) + right, vars) == left + vars[name] + right
  {
    hide Render, ExactCut, Clean, Source;
    var cut := [Literal(left), Hole(name), Literal(right)];
    OneHole(left, name, right);
    ThreeSegments(left, name, right);
    RenderReplacesExactlyAllOccurrences(left + Source(Hole(name)) + right, cut, vars);
  }

  /** Some hole of the cut has this name. */
  ghost predicate HasHole(segments: seq<Segment>, name: string) {
    exists k :: 0 <= k < |segments| && segments[k] == Hole(name)
  }

  lemma {:induction false} SomeHole(segments: seq<Segment>, i: int, j: int) returns (name: string)
    requires HoleAt(segments, i, j)
    ensures HasHole(segments, name)
  {
    var n, rest := |Source(segments[0])|, segments[1..];
    if segments[0].Hole? {
      name := segments[0].name;
    } else {
      name := SomeHole(rest, i - n, j - n);
      var k :| 0 <= k < |rest| && rest[k] == Hole(name);
      assert segments[k + 1] == rest[k];
    }
  }

  /** Deleting a placeholder that occurs makes the text shorter. */
  lemma {:induction false} DeletingShortens(segments: seq<Segment>, name: string)
    ensures |ReplaceAll(segments, map[name := ""])| <= |Flatten(segments)|
    ensures HasHole(segments, name) ==> |ReplaceAll(segments, map[name := ""])| < |Flatten(segments)|
  {
    if segments != [] {
      var x, rest := segments[0], segments[1..];
      assert HasHole(segments, name) ==> x == Hole(name) || HasHole(rest, name) by {
        if k :| 0 < k < |segments| && segments[k] == Hole(name) {
          assert rest[k - 1] == Hole(name);
        }
      }
      DeletingShortens(rest, name);
      assert |Fill(x, map[name := ""])| <= |Source(x)| && (x == Hole(name) ==> |Fill(x, map[name := ""])| < |Source(x)|);
      hide Fill, Source, HasHole;
    }
  }

  lemma RenderShortens(s: string, i: int, j: int) returns (name: string)
    requires Occurs(s, i, j)
    ensures Render(s, map[name := ""]) != s
  {
    EveryBodyHasAnExactCut(s);
    hide Occurs, Render, Cut, HoleAt, ReplaceAll, Flatten, HasHole;
    name := SomeHole(Cut(s), i, j);
    RenderReplacesExactlyAllOccurrences(s, Cut(s), map[name := ""]);
    DeletingShortens(Cut(s), name);
  }

  lemma OccursInPart(s: string, from: nat, to: nat, i: int, j: int)
    requires from <= to <= |s| && 0 <= i <= j <= to - from
    ensures Occurs(s[from..to], i, j) <==> Occurs(s, from + i, from + j)
  {
    hide IsPlaceholder;
    var part := s[from..to];
    assert forall k :: i <= k < j ==> part[k] == s[from + k];
    assert part[i..j] == s[from + i..from + j];
  }

  /** What is left of a placeholder before and after the value holds no placeholder itself. */
  lemma CutOffIsClean(s: string, i: int, j: int, from: nat, to: nat)
    requires Occurs(s, i, j) && from <= to <= |s|
    requires i == from < to < j || i < from < to == j || from == to
    ensures Clean(s[from..to])
  {
    hide Occurs;
    forall x, y ensures !Occurs(s[from..to], x, y) {
      OccursInOrder(s[from..to], x, y);
      if 0 <= x < y <= to - from {
        OccursInPart(s, from, to, x, y);
        if Occurs(s, from + x, from + y) {
          OccurrencesDoNotOverlap(s, i, j, from + x, from + y);
          assert false;
        }
      }
    }
  }

  /** The two parts of a text around a value that belong to a placeholder overlapping it. */
  lemma Surroundings(p: string, value: string, q: string, i: int, j: int) returns (left: string, right: string, at: nat)
    requires Occurs(p + value + q, i, j) && |p| < j && i < |p| + |value|
    ensures Clean(left) && Clean(right) && Occurs(left + value + right, at, at + j - i)
  {
    var whole, n := p + value + q, |p| + |value|;
    OccursInOrder(whole, i, j);
    hide Occurs;
    var a, b := if i < |p| then i else |p|, if j > n then j else n;
    CutOffIsClean(whole, i, j, a, |p|);
    CutOffIsClean(whole, i, j, n, b);
    left, right, at := whole[a..|p|], whole[n..b], i - a;
    assert left + value + right == whole[a..b];
    OccursInPart(whole, a, b, i - a, j - a);
  }

  /** A value that is not sealed breaks composition: some body and some second map show it. */
  lemma UnsealedBreaks(first: Variables, name: string, p: string, q: string, i: int, j: int) returns (s: string, second: Variables)
    requires name in first && name != "" && AllWord(name)
    requires Occurs(p + first[name] + q, i, j) && |p| < j && i < |p| + |first[name]|
    ensures !Composes(s, first, second)
  {
    var left, right, at := Surroundings(p, first[name], q, i, j);
    var t, end := left + first[name] + right, at + j - i;
    hide *;
    var other := RenderShortens(t, at, end);
    s := left + Source(Hole(name)) + right;
    second := map[other := ""];
    RenderOneHole(left, name, right, first);
    RenderOneHole(left, name, right, second + first);
    NotComposed(s, first, second, t);
  }

  lemma NotComposed(s: string, first: Variables, second: Variables, t: string)
    requires Render(s, first) == t && Render(s, second + first) == t && Render(t, second) != t
    ensures !Composes(s, first, second)
  {}

  /** Rendering composes for all bodies and all second maps if and only if the first map's values are sealed. */
  lemma CompositionIsExactlySealing(first: Variables)
    ensures (forall s, second :: Composes(s, first, second)) <==> AllSealed(first)
  {
    hide Composes, Occurs;
    if AllSealed(first) {
      forall s, second ensures Composes(s, first, second) {
        RenderComposes(s, first, second);
      }
    } else {
      var name :| name in first && name != "" && AllWord(name) && !Sealed(first[name]);
      var p, q, i, j :| Occurs(p + first[name] + q, i, j) && !(j <= |p| || |p| + |first[name]| <= i);
      var s, second := UnsealedBreaks(first, name, p, q, i, j);
    }
  }

  // --- The condition can be checked --------------------------------------------------------

  /** The end of a placeholder without its beginning. */
  predicate IsTail(x: string) {
    |x| >= 1 && x[|x| - 1] == '}' &&
    (|x| == 1 || (x[|x| - 2] == '}' && (AllWord(x[..|x| - 2]) || (|x| >= 4 && x[0] == '{' && AllWord(x[1..|x| - 2])))))
  }

  /** The beginning of a placeholder without its end. */
  predicate IsHead(x: string) {
    |x| >= 1 && x[0] == '{' &&
    (|x| == 1 || (x[1] == '{' && (AllWord(x[2..]) || (|x| >= 4 && x[|x| - 1] == '}' && AllWord(x[2..|x| - 1])))))
  }

  /** The inside of a placeholder without its beginning and its end. */
  predicate IsMiddle(x: string) {
    || AllWord(x)
    || (x[0] == '{' && AllWord(x[1..]))
    || (x[|x| - 1] == '}' && AllWord(x[..|x| - 1]))
    || (|x| >= 3 && x[0] == '{' && x[|x| - 1] == '}' && AllWord(x[1..|x| - 1]))
  }

  /** The value holds a placeholder, begins like the end of one, ends like the beginning of one, or is the inside of one. */
  predicate Reacts(value: string) {
    || (exists i, j :: 0 <= i <= j <= |value| && Occurs(value, i, j))
    || (exists k :: 1 <= k <= |value| && IsTail(value[..k]))
    || (exists k :: 0 <= k < |value| && IsHead(value[k..]))
    || IsMiddle(value)
  }

  lemma TailOfPlaceholder(p: string, x: string)
    requires IsPlaceholder(p + x) && p != "" && x != ""
    ensures IsTail(x)
  {
    var s := p + x;
    assert forall k :: 0 <= k < |x| ==> x[k] == s[|p| + k];
    assert forall k :: 2 <= k < |s| - 2 ==> s[k] == s[2..|s| - 2][k - 2];
    if |x| >= 2 {
      if |p| >= 2 {
        assert AllWord(x[..|x| - 2]);
      } else {
        assert AllWord(x[1..|x| - 2]);
      }
    }
  }

  lemma HeadOfPlaceholder(x: string, q: string)
    requires IsPlaceholder(x + q) && q != "" && x != ""
    ensures IsHead(x)
  {
    var s := x + q;
    assert forall k :: 0 <= k < |x| ==> x[k] == s[k];
    assert forall k :: 2 <= k < |s| - 2 ==> s[k] == s[2..|s| - 2][k - 2];
    if |x| >= 2 {
      if |q| >= 2 {
        assert AllWord(x[2..]);
      } else {
        assert AllWord(x[2..|x| - 1]);
      }
    }
  }

  lemma MiddleOfPlaceholder(p: string, x: string, q: string)
    requires IsPlaceholder(p + x + q) && p != "" && q != ""
    ensures IsMiddle(x)
  {
    var s := p + x + q;
    assert forall k :: 0 <= k < |x| ==> x[k] == s[|p| + k];
    assert forall k :: 2 <= k < |s| - 2 ==> s[k] == s[2..|s| - 2][k - 2];
    if x != "" {
      if |p| >= 2 && |q| >= 2 {
        assert AllWord(x);
      } else if |q| >= 2 {
        assert AllWord(x[1..]);
      } else if |p| >= 2 {
        assert AllWord(x[..|x| - 1]);
      } else {
        assert AllWord(x[1..|x| - 1]);
      }
    }
  }

  lemma Across(p: string, x: string, q: string, i: nat, j: nat)
    requires i <= |p| && |p| + |x| <= j <= |p| + |x| + |q|
    ensures (p + x + q)[i..j] == p[i..] + x + q[..j - |p| - |x|]
  {
    assert p == p[..i] + p[i..] && q == q[..j - |p| - |x|] + q[j - |p| - |x|..];
  }

  /** A placeholder that overlaps the value makes it react. */
  lemma OverlapReacts(p: string, value: string, q: string, i: int, j: int)
    requires Occurs(p + value + q, i, j) && |p| < j && i < |p| + |value|
    ensures Reacts(value)
  {
    var s, n := p + value + q, |p| + |value|;
    if |p| <= i && j <= n {
      assert s[i..j] == value[i - |p|..j - |p|];
      assert Occurs(value, i - |p|, j - |p|);
    } else if i < |p| && j <= n {
      assert s[i..j] == p[i..] + value[..j - |p|];
      TailOfPlaceholder(p[i..], value[..j - |p|]);
    } else if |p| <= i {
      assert s[i..j] == value[i - |p|..] + q[..j - n];
      HeadOfPlaceholder(value[i - |p|..], q[..j - n]);
    } else {
      Across(p, value, q, i, j);
      MiddleOfPlaceholder(p[i..], value, q[..j - n]);
    }
  }

  lemma IsPlaceholderByChars(s: string)
    requires |s| >= 5 && s[0] == '{' && s[1] == '{' && s[|s| - 2] == '}' && s[|s| - 1] == '}'
    requires forall k :: 2 <= k < |s| - 2 ==> IsWord(s[k])
    ensures IsPlaceholder(s)
  {
    assert forall k :: 2 <= k < |s| - 2 ==> s[2..|s| - 2][k - 2] == s[k];
  }

  lemma WordAt(x: string, from: nat, to: nat, k: nat)
    requires from <= k < to <= |x| && AllWord(x[from..to])
    ensures IsWord(x[k])
  {
    assert x[from..to][k - from] == x[k];
  }

  /** The characters of `p`, then those of `x`, then those of `q`. */
  lemma CharsOf(p: string, x: string, q: string, k: nat)
    requires k < |p| + |x| + |q|
    ensures (p + x + q)[k] == if k < |p| then p[k] else if k < |p| + |x| then x[k - |p|] else q[k - |p| - |x|]
  {}

  lemma TailCompletes(x: string) returns (p: string)
    requires IsTail(x)
    ensures p != "" && IsPlaceholder(p + x)
  {
    p := if |x| == 1 then ['{', '{', 'a', '}'] else if AllWord(x[..|x| - 2]) then ['{', '{', 'a'] else ['{'];
    var s := p + x;
    assert forall k :: |p| <= k < |s| ==> s[k] == x[k - |p|];
    forall k | 2 <= k < |s| - 2 ensures IsWord(s[k]) {
      if k >= |p| && |p| == 3 {
        WordAt(x, 0, |x| - 2, k - |p|);
      } else if k >= |p| {
        WordAt(x, 1, |x| - 2, k - |p|);
      }
    }
    IsPlaceholderByChars(s);
  }

  lemma HeadCompletes(x: string) returns (q: string)
    requires IsHead(x)
    ensures q != "" && IsPlaceholder(x + q)
  {
    q := if |x| == 1 then ['{', 'a', '}', '}'] else if AllWord(x[2..]) then ['a', '}', '}'] else ['}'];
    var s := x + q;
    assert forall k :: 0 <= k < |x| ==> s[k] == x[k];
    forall k | 2 <= k < |s| - 2 ensures IsWord(s[k]) {
      if k < |x| && |q| == 3 {
        WordAt(x, 2, |x|, k);
      } else if k < |x| {
        WordAt(x, 2, |x| - 1, k);
      }
    }
    IsPlaceholderByChars(s);
  }

  lemma MiddleCompletes(x: string) returns (p: string, q: string)
    requires IsMiddle(x)
    ensures p != "" && q != "" && IsPlaceholder(p + x + q)
  {
    var from, to := 0, |x|;
    p, q := ['{', '{'], ['a', '}', '}'];
    if !AllWord(x) {
      if x[0] == '{' && AllWord(x[1..]) {
        p, from := ['{'], 1;
      } else if x[|x| - 1] == '}' && AllWord(x[..|x| - 1]) {
        p, q, to := ['{', '{', 'a'], ['}'], |x| - 1;
      } else {
        p, q, from, to := ['{'], ['}'], 1, |x| - 1;
      }
    }
    assert AllWord(x[from..to]) by { assert x[0..] == x; }
    var s := p + x + q;
    forall k | 2 <= k < |s| - 2 ensures IsWord(s[k]) {
      CharsOf(p, x, q, k);
      if |p| <= k < |p| + |x| {
        WordAt(x, from, to, k - |p|);
      }
    }
    CharsOf(p, x, q, 0);
    CharsOf(p, x, q, 1);
    CharsOf(p, x, q, |s| - 2);
    CharsOf(p, x, q, |s| - 1);
    IsPlaceholderByChars(s);
  }

  lemma TailOverlaps(value: string, k: nat) returns (p: string)
    requires 1 <= k <= |value| && IsTail(value[..k])
    ensures Occurs(p + value + "", 0, |p| + k)
  {
    p := TailCompletes(value[..k]);
    hide IsTail, IsPlaceholder;
    assert p + value + "" == p + value;
    assert (p + value)[0..|p| + k] == p + value[..k];
  }

  lemma HeadOverlaps(value: string, k: nat) returns (q: string)
    requires k < |value| && IsHead(value[k..])
    ensures q != "" && Occurs("" + value + q, k, |value| + |q|)
  {
    q := HeadCompletes(value[k..]);
    hide IsHead, IsPlaceholder;
    assert "" + value + q == value + q;
    assert (value + q)[k..|value| + |q|] == value[k..] + q;
  }

  /** The value reacts by itself or with what a body puts around it. */
  lemma ReactingOverlaps(value: string) returns (p: string, q: string, i: int, j: int)
    requires Reacts(value)
    ensures Occurs(p + value + q, i, j) && |p| < j && i < |p| + |value|
  {
    hide IsTail, IsHead, IsMiddle, IsPlaceholder;
    if x, y :| 0 <= x <= y <= |value| && Occurs(value, x, y) {
      assert "" + value + "" == value;
      OccursInOrder(value, x, y);
      p, q, i, j := "", "", x, y;
    } else if k :| 1 <= k <= |value| && IsTail(value[..k]) {
      p := TailOverlaps(value, k);
      q, i, j := "", 0, |p| + k;
    } else if k :| 0 <= k < |value| && IsHead(value[k..]) {
      q := HeadOverlaps(value, k);
      p, i, j := "", k, |value| + |q|;
    } else {
      p, q := MiddleCompletes(value);
      i, j := 0, |p + value + q|;
      assert (p + value + q)[i..j] == p + value + q;
    }
  }

  /** A value is sealed if and only if a finite look at it finds nothing that could become part of a placeholder. */
  lemma SealedCanBeChecked(value: string)
    ensures Sealed(value) <==> !Reacts(value)
  {
    hide Occurs, Reacts;
    if Reacts(value) {
      var p, q, i, j := ReactingOverlaps(value);
    }
    forall p, q, i, j | Occurs(p + value + q, i, j) && !Reacts(value) ensures j <= |p| || |p| + |value| <= i {
      if |p| < j && i < |p| + |value| {
        OverlapReacts(p, value, q, i, j);
      }
    }
  }

  /** A value without braces and with a non-word character is sealed. */
  lemma BraceFreeIsSealed(value: string)
    requires '{' !in value && '}' !in value && !AllWord(value)
    ensures Sealed(value)
  {
    SealedCanBeChecked(value);
    forall i, j | 0 <= i <= j <= |value| ensures !Occurs(value, i, j) {
      assert i < j ==> value[i..j][0] in value;
    }
    forall k | 1 <= k <= |value| ensures !IsTail(value[..k]) {
      assert value[..k][k - 1] in value;
    }
    forall k | 0 <= k < |value| ensures !IsHead(value[k..]) {
      assert value[k..][0] in value;
    }
    hide Sealed;
  }

  /** The front of a body holds no placeholder when its third character is not a word character. */
  lemma RenderLiteral(s: string, vars: Variables)
    requires |s| >= 1 && (s[0] != '{' || |s| < 3 || !IsWord(s[2]))
    ensures Render(s, vars) == [s[0]] + Render(s[1..], vars)
  {
    if |s| >= 3 && s[0] == '{' { assert s[2..][0] == s[2]; }
  }

  /** `{{x}}` at the front of a body. */
  lemma RenderPlaceholder(x: char, rest: string, vars: Variables)
    requires IsWord(x)
    ensures var s := ['{', '{', x, '}', '}'] + rest;
            Render(s, vars) == (if [x] in vars then vars[[x]] else ['{', '{', x, '}', '}']) + Render(rest, vars)
  {
    var s := ['{', '{', x, '}', '}'] + rest;
    assert s[0..5][2..3] == [x];
    assert Occurs(s, 0, 5);
    MatchLengthIsTheMatch(s, 5);
    assert s[..5][2..3] == [x] && s[5..] == rest && s[..5] == ['{', '{', x, '}', '}'];
  }

  /** A value made of word characters can complete a placeholder of the body. */
  lemma CompositionFailsForWordValue()
    ensures var s, first, second := "{{{{a}}}}", map["a" := "b"], map["b" := "-"];
            Render(Render(s, first), second) == "-" && Render(s, second + first) == "{{b}}"
  {
    var s, first, second := "{{{{a}}}}", map["a" := "b"], map["b" := "-"];
    hide MatchLength, Render;
    forall vars: Variables | "a" in vars && vars["a"] == "b" ensures Render(s, vars) == "{{b}}" {
      RenderLiteral(s, vars);
      RenderLiteral(s[1..], vars);
      assert s[1..][1..] == ['{', '{', 'a', '}', '}'] + "}}";
      RenderPlaceholder('a', "}}", vars);
      RenderClosingBraces(vars);
    }
    assert "{{b}}" == ['{', '{', 'b', '}', '}'] + "";
    RenderPlaceholder('b', "", second);
    RenderStep("", second);
  }

  lemma RenderClosingBraces(vars: Variables)
    ensures Render("}}", vars) == "}}"
  {
    RenderLiteral("}}", vars);
    RenderLiteral("}}"[1..], vars);
  }

  /** A value with braces can bring a placeholder of its own. */
  lemma CompositionFailsForBracedValue()
    ensures var s, first, second := "{{a}}", map["a" := "{{b}}"], map["b" := "-"];
            Render(Render(s, first), second) == "-" && Render(s, second + first) == "{{b}}"
  {
    var first, second := map["a" := "{{b}}"], map["b" := "-"];
    hide MatchLength, Render;
    assert "{{a}}" == ['{', '{', 'a', '}', '}'] + "" && "{{b}}" == ['{', '{', 'b', '}', '}'] + "";
    RenderPlaceholder('a', "", first);
    RenderPlaceholder('a', "", second + first);
    RenderPlaceholder('b', "", second);
    RenderStep("", first);
    RenderStep("", second);
    RenderStep("", second + first);
  }
}

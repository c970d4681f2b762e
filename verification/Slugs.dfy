/** Workspace slugs made from a registration name. */
module Slugs {
  import Text

  predicate IsSlugChar(c: char) {
    'a' <= c <= 'z' || '0' <= c <= '9'
  }

  /**
   Lower case of one character, as far as a slug can tell: the ASCII letters, and the two other
   characters whose lower case is an ASCII letter. Every other character stays outside `IsSlugChar`.
   */
  function LowerChar(c: char): char {
    if 'A' <= c <= 'Z' then c - 'A' + 'a'
    else if c == '\U{130}' then 'i'
    else if c == '\U{212A}' then 'k'
    else c
  }

  function Lower(s: string): (t: string)
    ensures |t| == |s|
    ensures forall k :: 0 <= k < |s| ==> t[k] == LowerChar(s[k])
  {
    seq(|s|, k requires 0 <= k < |s| => LowerChar(s[k]))
  }

  predicate IsRun(s: string) {
    s != "" && forall i :: 0 <= i < |s| ==> IsSlugChar(s[i])
  }

  predicate RunList(runs: seq<string>) {
    forall k :: 0 <= k < |runs| ==> IsRun(runs[k])
  }

  /** The maximal runs of letters and digits: what a slug is made of. */
  function Runs(s: string): (runs: seq<string>)
    ensures s != "" && IsSlugChar(s[|s| - 1]) ==> runs != []
    ensures RunList(runs)
  {
    if s == "" then []
    else
      var last := |s| - 1;
      var runs := Runs(s[..last]);
      if !IsSlugChar(s[last]) then runs
      else if last > 0 && IsSlugChar(s[last - 1]) then runs[..|runs| - 1] + [runs[|runs| - 1] + [s[last]]]
      else runs + [[s[last]]]
  }

  function Join(runs: seq<string>): string {
    if runs == [] then ""
    else if |runs| == 1 then runs[0]
    else Join(runs[..|runs| - 1]) + "-" + runs[|runs| - 1]
  }

  /** The slug of a name: its lower-case alphanumeric runs joined by single dashes. */
  function Slug(value: string): string {
    Join(Runs(Lower(Text.Trim(value))))
  }

  lemma RunsStep(s: string, c: char)
    ensures Runs(s + [c]) ==
            var runs := Runs(s);
            if !IsSlugChar(c) then runs
            else if s != "" && IsSlugChar(s[|s| - 1]) then runs[..|runs| - 1] + [runs[|runs| - 1] + [c]]
            else runs + [[c]]
  {
    assert (s + [c])[..|s|] == s;
  }

  function Before(runs: seq<string>): string {
    if runs == [] then "" else Join(runs) + "-"
  }

  lemma JoinStep(runs: seq<string>, run: string)
    ensures Join(runs + [run]) == Before(runs) + run
  {
    assert (runs + [run])[..|runs|] == runs;
    assert "" + run == run;
  }

  lemma JoinExtends(init: seq<string>, end: string, c: char)
    ensures Join(init + [end + [c]]) == Join(init + [end]) + [c]
  {
    hide Join, Before;
    JoinStep(init, end);
    JoinStep(init, end + [c]);
    assert Before(init) + (end + [c]) == (Before(init) + end) + [c];
  }

  /** A dash is pending when the text read so far ends outside a run that has begun. */
  function Built(s: string): string {
    Join(Runs(s)) + if Runs(s) != [] && !IsSlugChar(s[|s| - 1]) then "-" else ""
  }

  lemma {:induction false} JoinEndsInRun(runs: seq<string>)
    requires runs != [] && RunList(runs)
    ensures Join(runs) != "" && IsSlugChar(Join(runs)[0]) && IsSlugChar(Join(runs)[|Join(runs)| - 1])
  {
    if |runs| > 1 {
      JoinEndsInRun(runs[..|runs| - 1]);
    }
  }

  lemma BuiltOfNothing()
    ensures Built("") == ""
  {}

  lemma BuiltStep(s: string, c: char)
    ensures var b := Built(s);
            Built(s + [c]) == if IsSlugChar(c) then b + [c]
                              else if b != "" && b[|b| - 1] != '-' then b + "-" else b
  {
    hide Runs, Join;
    RunsStep(s, c);
    JoinOfNone();
    var runs := Runs(s);
    if runs != [] { JoinEndsInRun(runs); }
    if IsSlugChar(c) {
      BuiltGrows(s, c);
    }
  }

  lemma BuiltGrows(s: string, c: char)
    requires IsSlugChar(c)
    ensures Built(s + [c]) == Built(s) + [c]
  {
    hide Runs, Join, Before;
    RunsStep(s, c);
    JoinOfNone();
    var runs := Runs(s);
    if s != "" && IsSlugChar(s[|s| - 1]) {
      var init, end := runs[..|runs| - 1], runs[|runs| - 1];
      assert runs == init + [end];
      JoinExtends(init, end, c);
    } else {
      JoinStep(runs, [c]);
      BeforeIsBuilt(s);
    }
  }

  lemma BeforeIsBuilt(s: string)
    requires s == "" || !IsSlugChar(s[|s| - 1])
    ensures Before(Runs(s)) == Built(s)
  {}

  lemma JoinOfNone()
    ensures Join([]) == ""
  {}

  function TrimDashes(s: string): string {
    if s == "" then ""
    else if s[0] == '-' then TrimDashes(s[1..])
    else if s[|s| - 1] == '-' then TrimDashes(s[..|s| - 1])
    else s
  }

  lemma BuiltTrimmed(s: string)
    ensures TrimDashes(Built(s)) == Join(Runs(s))
  {
    var joined := Join(Runs(s));
    if Runs(s) != [] { JoinEndsInRun(Runs(s)); }
    hide Join, Runs;
    assert (joined + "-")[..|joined|] == joined;
  }

  /** The builder loop with its dash flag, then the final trim of dashes. */
  method SlugifyRegistrationValue(input: string) returns (slug: string)
    ensures slug == Slug(input)
  {
    var value := Lower(Text.Trim(input));
    hide Text.Trim, Runs, Join, Built, TrimDashes;
    var builder := "";
    assert Built("") == "" by { BuiltOfNothing(); }
    var lastDash := false;
    for n := 0 to |value|
      invariant builder == Built(value[..n])
      invariant lastDash <==> builder != "" && builder[|builder| - 1] == '-'
    {
      assert value[..0] == "";
      BuiltStep(value[..n], value[n]);
      assert value[..n + 1] == value[..n] + [value[n]];
      if 'a' <= value[n] <= 'z' || '0' <= value[n] <= '9' {
        builder := builder + [value[n]];
        lastDash := false;
      } else if |builder| > 0 && !lastDash {
        builder := builder + "-";
        lastDash := true;
      }
    }
    assert value[..|value|] == value;
    BuiltTrimmed(value);
    slug := TrimDashes(builder);
  }

  // --- Idempotence -----------------------------------------------------------------------------------

  /** Reading a run after a prefix that does not end inside one adds exactly that run. */
  lemma {:induction false} RunsOfAppendedRun(prefix: string, run: string)
    requires IsRun(run)
    requires prefix == "" || !IsSlugChar(prefix[|prefix| - 1])
    ensures Runs(prefix + run) == Runs(prefix) + [run]
    decreases |run|
  {
    hide Runs;
    var last := |run| - 1;
    var shorter := run[..last];
    RunsStep(prefix + shorter, run[last]);
    assert run == shorter + [run[last]];
    assert prefix + run == (prefix + shorter) + [run[last]];
    if last > 0 {
      RunsOfAppendedRun(prefix, shorter);
      assert (prefix + shorter)[|prefix + shorter| - 1] == shorter[last - 1];
    } else {
      assert prefix + shorter == prefix;
    }
  }

  lemma {:induction false} RunsOfJoin(runs: seq<string>)
    requires RunList(runs)
    ensures Runs(Join(runs)) == runs
    decreases |runs|, 0
  {
    if runs != [] {
      hide Runs, Join, Before;
      var init, end := runs[..|runs| - 1], runs[|runs| - 1];
      assert runs == init + [end];
      JoinStep(init, end);
      RunsBefore(init);
      RunsOfAppendedRun(Before(init), end);
    }
  }

  lemma {:induction false} RunsBefore(runs: seq<string>)
    requires RunList(runs)
    ensures Runs(Before(runs)) == runs
    ensures Before(runs) == "" || !IsSlugChar(Before(runs)[|Before(runs)| - 1])
    decreases |runs|, 1
  {
    if runs != [] {
      RunsOfJoin(runs);
      hide Runs, Join;
      RunsStep(Join(runs), '-');
    }
  }

  lemma {:induction false} JoinIsLower(runs: seq<string>)
    requires RunList(runs)
    ensures forall k :: 0 <= k < |Join(runs)| ==> IsSlugChar(Join(runs)[k]) || Join(runs)[k] == '-'
  {
    if |runs| > 1 {
      JoinIsLower(runs[..|runs| - 1]);
    }
  }

  lemma LowerOfLower(s: string)
    requires forall k :: 0 <= k < |s| ==> IsSlugChar(s[k]) || s[k] == '-'
    ensures Lower(s) == s
  {}

  /** A slug is alphanumeric runs joined by single dashes, and slugging it again changes nothing. */
  lemma SlugIsIdempotent(value: string)
    ensures exists runs :: RunList(runs) && Slug(value) == Join(runs)
    ensures Slug(Slug(value)) == Slug(value)
  {
    var runs := Runs(Lower(Text.Trim(value)));
    var slug := Join(runs);
    assert RunList(runs) && Slug(value) == Join(runs);
    JoinIsLower(runs);
    if runs != [] { JoinEndsInRun(runs); }
    Text.TrimOfTrimmed(slug);
    RunsOfJoin(runs);
    LowerOfLower(slug);
    hide Join, Runs, Text.Trim, Lower;
  }

  // --- What a slug keeps -------------------------------------------------------------------------------

  /** The lower-case letters and digits of a text, in order. */
  function Kept(s: string): string {
    if s == "" then ""
    else
      var c := s[|s| - 1];
      Kept(s[..|s| - 1]) + if 'a' <= c <= 'z' || '0' <= c <= '9' then [c] else ""
  }

  function Concat(runs: seq<string>): string {
    if runs == [] then "" else Concat(runs[..|runs| - 1]) + runs[|runs| - 1]
  }

  lemma {:induction false} KeptConcat(a: string, b: string)
    ensures Kept(a + b) == Kept(a) + Kept(b)
  {
    if b == "" {
      assert a + b == a;
    } else {
      var last := |b| - 1;
      assert (a + b)[..|a| + last] == a + b[..last];
      KeptConcat(a, b[..last]);
    }
  }

  lemma {:induction false} RunIsKept(run: string)
    requires forall k :: 0 <= k < |run| ==> IsSlugChar(run[k])
    ensures Kept(run) == run
  {
    if run != "" {
      RunIsKept(run[..|run| - 1]);
      assert run == run[..|run| - 1] + [run[|run| - 1]];
    }
  }

  lemma {:induction false} RunsAreKept(s: string)
    ensures Concat(Runs(s)) == Kept(s)
  {
    if s != "" {
      var last := |s| - 1;
      var runs := Runs(s[..last]);
      RunsAreKept(s[..last]);
      if IsSlugChar(s[last]) && last > 0 && IsSlugChar(s[last - 1]) {
        var init, end := runs[..|runs| - 1], runs[|runs| - 1];
        assert Runs(s) == init + [end + [s[last]]];
        hide Runs, Kept;
        assert (init + [end + [s[last]]])[..|init|] == init;
      } else if IsSlugChar(s[last]) {
        assert Runs(s) == runs + [[s[last]]];
        hide Runs;
        assert (runs + [[s[last]]])[..|runs|] == runs;
      }
    }
  }

  lemma {:induction false} JoinKeepsRuns(runs: seq<string>)
    requires RunList(runs)
    ensures Kept(Join(runs)) == Concat(runs)
  {
    if |runs| == 1 {
      RunIsKept(runs[0]);
      assert Concat(runs) == Concat(runs[..0]) + runs[0];
    } else if |runs| > 1 {
      var init, end := runs[..|runs| - 1], runs[|runs| - 1];
      JoinKeepsRuns(init);
      RunIsKept(end);
      KeptConcat(Join(init) + "-", end);
      KeptConcat(Join(init), "-");
      assert Kept("-") == Kept("-"[..0]) + "";
    }
  }

  /** A slug has exactly the letters and digits of the name, in lower case and in order. */
  lemma SlugKeepsTheLetters(value: string)
    ensures Kept(Slug(value)) == Kept(Lower(Text.Trim(value)))
    ensures forall k :: 0 <= k < |value| && 'A' <= value[k] <= 'Z' ==> Lower(value)[k] as int == value[k] as int + 32
    ensures forall k :: 0 <= k < |value| && ('a' <= value[k] <= 'z' || '0' <= value[k] <= '9') ==> Lower(value)[k] == value[k]
  {
    var s := Lower(Text.Trim(value));
    hide Text.Trim, Runs, Join, Kept, Concat;
    RunsAreKept(s);
    JoinKeepsRuns(Runs(s));
  }
}

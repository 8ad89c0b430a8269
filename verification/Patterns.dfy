/**
 The searches of the tool-call parser (training/evaluate_vm_lab_lora.py) on strings: first occurrences,
 white space, runs of name characters.
 */
module Patterns {
  import opened Wrappers
  import opened Spaces

  predicate Starts(s: string, pat: string) {
    pat <= s
  }

  predicate Contains(s: string, pat: string) {
    exists j | 0 <= j <= |s| :: Starts(s[j..], pat)
  }

  /** What stands before and behind the first occurrence. */
  function Split(s: string, pat: string): Option<(string, string)>
    requires pat != ""
  {
    if Starts(s, pat) then Some(("", s[|pat|..]))
    else if s == "" then None
    else
      match Split(s[1..], pat)
      case None => None
      case Some(parts) => Some(([s[0]] + parts.0, parts.1))
  }

  lemma {:induction false} SplitDecides(s: string, pat: string)
    requires pat != ""
    ensures Split(s, pat).None? <==> !Contains(s, pat)
  {
    if s == "" || Starts(s, pat) {
      assert s[0..] == s;
    } else {
      SplitDecides(s[1..], pat);
      ContainsCons(s, pat);
    }
  }

  lemma Assemble(c: char, before: string, pat: string, after: string)
    ensures [c] + (before + pat + after) == ([c] + before) + pat + after
  {
  }

  lemma {:induction false} SplitParts(s: string, pat: string)
    requires pat != "" && Split(s, pat).Some?
    ensures s == Split(s, pat).value.0 + pat + Split(s, pat).value.1
  {
    if Starts(s, pat) {
      assert s == "" + pat + s[|pat|..];
    } else {
      SplitParts(s[1..], pat);
      var (before, after) := Split(s[1..], pat).value;
      Assemble(s[0], before, pat, after);
      assert s == [s[0]] + s[1..];
    }
  }

  lemma StartsOfPrefix(x: string, s: string, pat: string)
    requires x <= s && Starts(x, pat)
    ensures Starts(s, pat)
  {
  }

  /** No occurrence stands before the first. */
  lemma {:induction false} SplitIsFirst(s: string, pat: string)
    requires pat != "" && Split(s, pat).Some?
    ensures !Contains(Split(s, pat).value.0, pat)
  {
    if !Starts(s, pat) {
      SplitIsFirst(s[1..], pat);
      SplitParts(s, pat);
      var before := Split(s, pat).value.0;
      assert before[1..] == Split(s[1..], pat).value.0;
      ContainsCons(before, pat);
      assert before <= s;
      if Starts(before, pat) {
        StartsOfPrefix(before, s, pat);
      }
    }
  }

  lemma ContainsCons(s: string, pat: string)
    requires s != ""
    ensures Contains(s, pat) <==> Starts(s, pat) || Contains(s[1..], pat)
  {
    assert s[0..] == s;
    forall j | 1 <= j <= |s| ensures s[j..] == s[1..][j - 1..] {}
    if Contains(s[1..], pat) {
      var j :| 0 <= j <= |s[1..]| && Starts(s[1..][j..], pat);
      assert s[1..][j..] == s[j + 1..];
    }
  }

  // ---------- white space ----------

  function SkipSpaces(s: string): string {
    if s != "" && PySpace(s[0]) then SkipSpaces(s[1..]) else s
  }

  function DropSpaces(s: string): string {
    if s != "" && PySpace(s[|s| - 1]) then DropSpaces(s[..|s| - 1]) else s
  }

  function Strip(s: string): string {
    DropSpaces(SkipSpaces(s))
  }

  predicate Stripped(s: string) {
    s != "" ==> !PySpace(s[0]) && !PySpace(s[|s| - 1])
  }

  lemma {:induction false} SkippedIsSuffix(s: string)
    ensures |SkipSpaces(s)| <= |s| && SkipSpaces(s) == s[|s| - |SkipSpaces(s)|..]
    ensures SkipSpaces(s) != "" ==> !PySpace(SkipSpaces(s)[0])
  {
    if s != "" && PySpace(s[0]) {
      SkippedIsSuffix(s[1..]);
    }
  }

  lemma {:induction false} DroppedIsPrefix(s: string)
    ensures DropSpaces(s) <= s
    ensures DropSpaces(s) != "" ==> !PySpace(DropSpaces(s)[|DropSpaces(s)| - 1])
  {
    if s != "" && PySpace(s[|s| - 1]) {
      DroppedIsPrefix(s[..|s| - 1]);
    }
  }

  lemma StripIsStripped(s: string)
    ensures Stripped(Strip(s))
  {
    SkippedIsSuffix(s);
    DroppedIsPrefix(SkipSpaces(s));
  }

  lemma PartContains(s: string, a: nat, b: nat, pat: string)
    requires a <= b <= |s| && Contains(s[a..b], pat)
    ensures Contains(s, pat)
  {
    var j :| 0 <= j <= b - a && Starts(s[a..b][j..], pat);
    assert s[a..b][j..] == s[a + j..b];
    assert s[a + j..][..|pat|] == s[a + j..b][..|pat|];
    assert Starts(s[a + j..], pat);
  }

  lemma StripContainsNothingNew(s: string, pat: string)
    requires Contains(Strip(s), pat)
    ensures Contains(s, pat)
  {
    SkippedIsSuffix(s);
    DroppedIsPrefix(SkipSpaces(s));
    var a := |s| - |SkipSpaces(s)|;
    assert Strip(s) == s[a..][..|Strip(s)|] == s[a..a + |Strip(s)|];
    PartContains(s, a, a + |Strip(s)|, pat);
  }

  /** Line breaks around a stripped text strip off again. */
  lemma StripBetweenLines(v: string)
    requires Stripped(v)
    ensures Strip("\n" + v + "\n") == v
  {
    var s := "\n" + v + "\n";
    assert s[1..] == v + "\n";
    if v == "" {
      assert SkipSpaces("\n") == SkipSpaces("");
    } else {
      assert SkipSpaces(v + "\n") == v + "\n";
      assert (v + "\n")[..|v|] == v;
      assert DropSpaces(v + "\n") == DropSpaces(v);
    }
  }

  // ---------- names ----------

  predicate NameChar(c: char) {
    c != '>' && !PySpace(c)
  }

  predicate NameOk(s: string) {
    s != "" && forall i | 0 <= i < |s| :: NameChar(s[i])
  }

  /** The run of name characters in front. */
  function NameRun(s: string): string {
    if s != "" && NameChar(s[0]) then [s[0]] + NameRun(s[1..]) else ""
  }

  lemma {:induction false} RunIsPrefix(s: string)
    ensures NameRun(s) <= s && forall i | 0 <= i < |NameRun(s)| :: NameChar(NameRun(s)[i])
  {
    if s != "" && NameChar(s[0]) {
      RunIsPrefix(s[1..]);
    }
  }

  lemma {:induction false} RunOfName(name: string, rest: string)
    requires forall i | 0 <= i < |name| :: NameChar(name[i])
    requires rest == "" || !NameChar(rest[0])
    ensures NameRun(name + rest) == name
  {
    if name == "" {
      assert name + rest == rest;
    } else {
      assert (name + rest)[1..] == name[1..] + rest;
      RunOfName(name[1..], rest);
    }
  }
}

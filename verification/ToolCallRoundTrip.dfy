/**
 When the parser gives back what the printer was given: for every row, exactly under the condition
 stated by RowFits.
 */
module ToolCallRoundTrip {
  import opened Wrappers
  import opened Decimals
  import opened Spaces
  import opened Patterns
  import opened ToolCall

  const FUNCTION_OPEN_END := "</function"

  ghost predicate ContainsEnd(s: string) {
    exists j | 0 <= j <= |s| :: EndHere(s[j..])
  }

  /** Printing this argument makes the call end too early: the end stands in the value, or the key and the
      bracket behind it close the function and the value closes the call. */
  ghost predicate EndsEarly(a: Argument) {
    ContainsEnd(Render(a.value))
    || (EndsWith(a.key, FUNCTION_OPEN_END) && Starts(SkipSpaces(Render(a.value)), CALL_END))
  }

  predicate EndsWith(s: string, pat: string) {
    |pat| <= |s| && s[|s| - |pat|..] == pat
  }

  /** A value the parser can return under this key. */
  predicate ValueFits(a: Argument) {
    if a.key == "port" then a.value.Int?
    else a.value.Str? && Stripped(a.value.text) && Split(a.value.text, PARAMETER_END).None?
  }

  ghost predicate ArgumentFits(a: Argument) {
    NameOk(a.key) && ValueFits(a) && !EndsEarly(a)
  }

  ghost predicate RowFits(name: string, args: seq<Argument>) {
    NameOk(name) && forall i | 0 <= i < |args| :: ArgumentFits(args[i])
  }

  ghost predicate KeysDistinct(args: seq<Argument>) {
    forall i, j | 0 <= i < j < |args| :: args[i].key != args[j].key
  }

  // ---------- where an end may stand ----------

  predicate OneLine(pat: string) {
    forall i | 0 <= i < |pat| :: pat[i] != '\n'
  }

  lemma MarkersAreOneLine()
    ensures OneLine(PARAMETER_END) && OneLine(FUNCTION_END) && OneLine(CALL_END)
  {
  }

  /** A pattern without a line break does not reach beyond one. */
  lemma StopsAtBreak(x: string, tail: string, pat: string)
    requires OneLine(pat) && tail != "" && tail[0] == '\n'
    ensures Starts(x + tail, pat) <==> Starts(x, pat)
  {
    var s := x + tail;
    assert s[|x|] == '\n';
    if Starts(s, pat) {
      assert forall i | 0 <= i < |pat| :: s[i] == pat[i];
      assert |pat| <= |x|;
      assert s[..|pat|] == x[..|pat|];
    }
    if Starts(x, pat) {
      assert s[..|pat|] == x[..|pat|];
    }
  }

  lemma {:induction false} SkipThrough(y: string, tail: string)
    ensures SkipSpaces(y + tail) == if SkipSpaces(y) == "" then SkipSpaces(tail) else SkipSpaces(y) + tail
  {
    if y == "" {
      assert y + tail == tail;
    } else if PySpace(y[0]) {
      assert (y + tail)[1..] == y[1..] + tail;
      SkipThrough(y[1..], tail);
    }
  }

  /** What follows a value: a line break and the end marker of the parameter. */
  function Closing(more: string): string {
    "\n" + (PARAMETER_END + more)
  }

  lemma CallEndAfterText(y: string, more: string)
    ensures Starts(SkipSpaces(y + Closing(more)), CALL_END) <==> Starts(SkipSpaces(y), CALL_END)
  {
    SkipThrough(y, Closing(more));
    if SkipSpaces(y) == "" {
      var rest := PARAMETER_END + more;
      assert Closing(more)[1..] == rest && rest[0] == '<' && rest[2] == 'p';
      assert SkipSpaces(Closing(more)) == rest;
    } else {
      MarkersAreOneLine();
      StopsAtBreak(SkipSpaces(y), Closing(more), CALL_END);
    }
  }

  lemma EndInText(x: string, more: string)
    ensures EndHere(x + Closing(more)) <==> EndHere(x)
  {
    MarkersAreOneLine();
    StopsAtBreak(x, Closing(more), FUNCTION_END);
    if Starts(x, FUNCTION_END) {
      assert (x + Closing(more))[|FUNCTION_END|..] == x[|FUNCTION_END|..] + Closing(more);
      CallEndAfterText(x[|FUNCTION_END|..], more);
    }
  }

  lemma BracketIsLast(s: string, n: nat)
    requires Starts(s, FUNCTION_END) && n < |s| && s[n] == '>' && forall i | 0 <= i < n :: s[i] != '>'
    ensures n == |FUNCTION_OPEN_END| && s[..n] == FUNCTION_OPEN_END
  {
    assert forall i | 0 <= i < |FUNCTION_OPEN_END| :: s[i] == FUNCTION_END[i] == FUNCTION_OPEN_END[i] != '>';
    assert s[|FUNCTION_OPEN_END|] == '>';
  }

  /** At the end of a key: the bracket behind it may complete the function's end marker. */
  lemma EndInKey(x: string, v: string, more: string)
    requires x != "" && forall i | 0 <= i < |x| :: NameChar(x[i])
    ensures EndHere(x + (">\n" + (v + Closing(more)))) <==>
      x == FUNCTION_OPEN_END && Starts(SkipSpaces(v), CALL_END)
  {
    var tail := ">\n" + (v + Closing(more));
    var s := x + tail;
    assert s[|x|] == '>';
    assert forall i | 0 <= i < |x| :: s[i] == x[i] && s[i] != '>';
    if Starts(s, FUNCTION_END) {
      BracketIsLast(s, |x|);
      assert x == s[..|x|] == FUNCTION_OPEN_END;
    }
    if x == FUNCTION_OPEN_END {
      assert s[..|FUNCTION_END|] == x + ">" == FUNCTION_END;
      assert s[|FUNCTION_END|..] == "\n" + (v + Closing(more));
      assert ("\n" + (v + Closing(more)))[1..] == v + Closing(more);
      CallEndAfterText(v, more);
    }
  }

  /** No end starts inside u when t follows. */
  ghost predicate NoEndIn(u: string, t: string) {
    forall j | 0 <= j < |u| :: !EndHere(u[j..] + t)
  }

  lemma NoEndInBoth(u: string, w: string, t: string)
    requires NoEndIn(u, w + t) && NoEndIn(w, t)
    ensures NoEndIn(u + w, t)
  {
    forall j | 0 <= j < |u + w| ensures !EndHere((u + w)[j..] + t) {
      if j < |u| {
        assert (u + w)[j..] + t == u[j..] + (w + t);
      } else {
        assert (u + w)[j..] == w[j - |u|..];
      }
    }
  }

  predicate Harmless(u: string) {
    forall j | 0 <= j < |u| && u[j] == '<' :: j + 2 < |u| && !(u[j + 1] == '/' && u[j + 2] == 'f')
  }

  lemma HarmlessHasNoEnd(u: string, t: string)
    requires Harmless(u)
    ensures NoEndIn(u, t)
  {
    forall j | 0 <= j < |u| ensures !EndHere(u[j..] + t) {
      var s := u[j..] + t;
      assert s[0] == u[j];
      if u[j] == '<' {
        assert s[1] == u[j + 1] && s[2] == u[j + 2];
      }
    }
  }

  lemma {:induction false} BodySkips(u: string, t: string)
    requires NoEndIn(u, t)
    ensures BodyOf(u + t) == match BodyOf(t) case None => None case Some(b) => Some(u + b)
  {
    if u == "" {
      assert u + t == t;
      assert BodyOf(t).Some? ==> u + BodyOf(t).value == BodyOf(t).value;
    } else {
      assert u[0..] == u;
      assert (u + t)[1..] == u[1..] + t;
      forall j | 0 <= j < |u[1..]| ensures !EndHere(u[1..][j..] + t) {
        assert u[1..][j..] == u[j + 1..];
      }
      BodySkips(u[1..], t);
      assert u == [u[0]] + u[1..];
      if BodyOf(t).Some? {
        assert [u[0]] + (u[1..] + BodyOf(t).value) == u + BodyOf(t).value;
      }
    }
  }

  /** The body ends at the latest where an end stands. */
  lemma {:induction false} BodyBefore(s: string, p: nat)
    requires p <= |s| && EndHere(s[p..])
    ensures BodyOf(s).Some? && |BodyOf(s).value| <= p && BodyOf(s).value <= s
  {
    if !EndHere(s) {
      assert s[0..] == s;
      assert s[1..][p - 1..] == s[p..];
      BodyBefore(s[1..], p - 1);
    }
  }

  // ---------- one argument ----------

  /** A key and a value that can be read back as such. */
  predicate Clean(a: Argument) {
    NameOk(a.key) && Stripped(Render(a.value)) && Split(Render(a.value), PARAMETER_END).None?
  }

  /** An argument in front of what follows it. */
  function Whole(a: Argument, rest: string): string {
    Opening(a) + (PARAMETER_END + "\n" + rest)
  }

  lemma WholeInPieces(a: Argument, rest: string)
    ensures Whole(a, rest) == PARAMETER + (a.key + (">\n" + (Render(a.value) + Closing("\n" + rest))))
    ensures Opening(a) + (PARAMETER_END + "\n") ==
      PARAMETER + (a.key + (">\n" + (Render(a.value) + ("\n" + PARAMETER_END + "\n"))))
  {
    Pieces(PARAMETER, a.key, Render(a.value), PARAMETER_END, rest);
  }

  lemma Pieces(p: string, key: string, v: string, e: string, rest: string)
    ensures p + key + (">\n" + v + "\n") + (e + "\n" + rest) == p + (key + (">\n" + (v + ("\n" + (e + ("\n" + rest))))))
    ensures p + key + (">\n" + v + "\n") + (e + "\n") == p + (key + (">\n" + (v + ("\n" + e + "\n"))))
  {
  }

  lemma NoEndInKey(key: string, v: string, more: string)
    requires NameOk(key) && !(EndsWith(key, FUNCTION_OPEN_END) && Starts(SkipSpaces(v), CALL_END))
    ensures NoEndIn(key, ">\n" + (v + Closing(more)))
  {
    forall j | 0 <= j < |key| ensures !EndHere(key[j..] + (">\n" + (v + Closing(more)))) {
      EndInKey(key[j..], v, more);
    }
  }

  lemma NoEndInValue(v: string, more: string)
    requires !ContainsEnd(v)
    ensures NoEndIn(v, Closing(more))
  {
    forall j | 0 <= j < |v| ensures !EndHere(v[j..] + Closing(more)) {
      EndInText(v[j..], more);
    }
  }

  lemma NoEndInBracket(w: string, t: string)
    requires NoEndIn(w, t)
    ensures NoEndIn(">\n" + w, t)
  {
    forall j | 0 <= j < |">\n" + w| ensures !EndHere((">\n" + w)[j..] + t) {
      if j >= 2 {
        assert (">\n" + w)[j..] == w[j - 2..];
      } else {
        assert ((">\n" + w)[j..] + t)[0] == (">\n" + w)[j];
      }
    }
  }

  /** A value from the bracket of its parameter up to the line break behind the end marker. */
  function Framed(v: string): string {
    ">\n" + (v + ("\n" + PARAMETER_END + "\n"))
  }

  lemma FramedIsClosed(v: string, e: string, rest: string)
    ensures (v + ("\n" + e + "\n")) + rest == v + ("\n" + (e + ("\n" + rest)))
    ensures (">\n" + (v + ("\n" + e + "\n"))) + rest == ">\n" + (v + ("\n" + (e + ("\n" + rest))))
    ensures ("\n" + e + "\n") + rest == "\n" + (e + ("\n" + rest))
  {
  }

  lemma NoEndInFramed(v: string, rest: string)
    requires !ContainsEnd(v)
    ensures NoEndIn(Framed(v), rest)
  {
    var close := "\n" + PARAMETER_END + "\n";
    FramedIsClosed(v, PARAMETER_END, rest);
    HarmlessHasNoEnd(close, rest);
    NoEndInValue(v, "\n" + rest);
    NoEndInBoth(v, close, rest);
    NoEndInBracket(v + close, rest);
  }

  lemma NoEndFromKey(a: Argument, rest: string)
    requires NameOk(a.key) && !EndsEarly(a)
    ensures NoEndIn(a.key + Framed(Render(a.value)), rest)
  {
    var v := Render(a.value);
    FramedIsClosed(v, PARAMETER_END, rest);
    NoEndInFramed(v, rest);
    NoEndInKey(a.key, v, "\n" + rest);
    NoEndInBoth(a.key, Framed(v), rest);
  }

  /** Without an early end the body runs through the whole argument. */
  lemma BodyOfWhole(a: Argument, rest: string)
    requires NameOk(a.key) && !EndsEarly(a)
    ensures BodyOf(Whole(a, rest)) ==
      match BodyOf(rest) case None => None case Some(b) => Some(Opening(a) + (PARAMETER_END + "\n") + b)
  {
    var u := a.key + Framed(Render(a.value));
    WholeInPieces(a, rest);
    NoEndFromKey(a, rest);
    HarmlessHasNoEnd(PARAMETER, u + rest);
    NoEndInBoth(PARAMETER, u, rest);
    BodySkips(PARAMETER + u, rest);
    Reassociate(Opening(a), PARAMETER_END, rest);
  }

  lemma Reassociate(o: string, e: string, rest: string)
    ensures o + (e + "\n" + rest) == (o + (e + "\n")) + rest
  {
  }

  // ---------- an early end ----------

  function Part(a: Argument): string {
    PARAMETER + (a.key + (">\n" + Render(a.value)))
  }

  lemma PartIsPrefix(a: Argument, rest: string)
    ensures Part(a) <= Whole(a, rest)
  {
    WholeInPieces(a, rest);
    assert Whole(a, rest) == Part(a) + Closing("\n" + rest);
  }

  lemma EndInValuePart(a: Argument, rest: string) returns (p: nat)
    requires ContainsEnd(Render(a.value))
    ensures p <= |Part(a)| && p <= |Whole(a, rest)| && EndHere(Whole(a, rest)[p..])
  {
    var j :| 0 <= j <= |Render(a.value)| && EndHere(Render(a.value)[j..]);
    p := ValueAt(a, rest, j);
    EndInText(Render(a.value)[j..], "\n" + rest);
  }

  /** Where the j-th character of the value stands. */
  lemma ValueAt(a: Argument, rest: string, j: nat) returns (p: nat)
    requires j <= |Render(a.value)|
    ensures p <= |Part(a)| && p <= |Whole(a, rest)|
      && Whole(a, rest)[p..] == Render(a.value)[j..] + Closing("\n" + rest)
  {
    WholeInPieces(a, rest);
    p := |PARAMETER| + |a.key| + |">\n"| + j;
    Behind(PARAMETER, a.key, ">\n", Render(a.value), Closing("\n" + rest), j);
  }

  lemma Behind(p: string, k: string, b: string, v: string, t: string, j: nat)
    requires j <= |v|
    ensures |p + (k + (b + (v + t)))| >= |p| + |k| + |b| + j
    ensures (p + (k + (b + (v + t))))[|p| + |k| + |b| + j..] == v[j..] + t
  {
  }

  lemma EndInKeyPart(a: Argument, rest: string) returns (p: nat)
    requires NameOk(a.key) && EndsWith(a.key, FUNCTION_OPEN_END) && Starts(SkipSpaces(Render(a.value)), CALL_END)
    ensures p <= |Part(a)| && p <= |Whole(a, rest)| && EndHere(Whole(a, rest)[p..])
  {
    var v := Render(a.value);
    var j := |a.key| - |FUNCTION_OPEN_END|;
    WholeInPieces(a, rest);
    EndInKey(a.key[j..], v, "\n" + rest);
    p := |PARAMETER| + j;
    Behind(PARAMETER, "", "", a.key, ">\n" + (v + Closing("\n" + rest)), j);
    assert PARAMETER + ("" + ("" + (a.key + (">\n" + (v + Closing("\n" + rest)))))) == Whole(a, rest);
  }

  /** With an early end the body stops inside the argument. */
  lemma BodyOfPart(a: Argument, rest: string)
    requires NameOk(a.key) && EndsEarly(a)
    ensures BodyOf(Whole(a, rest)).Some? && BodyOf(Whole(a, rest)).value <= Part(a)
  {
    var p: nat;
    if ContainsEnd(Render(a.value)) {
      p := EndInValuePart(a, rest);
    } else {
      p := EndInKeyPart(a, rest);
    }
    BodyBefore(Whole(a, rest), p);
    PartIsPrefix(a, rest);
  }

  // ---------- the parameters of a body ----------

  lemma {:induction false} NoParameters(q: string)
    requires forall j | 0 <= j < |q| && q[j] == '>' :: !Contains(q[j + 1..], PARAMETER_END)
    ensures Parameters(q) == []
    decreases |q|
  {
    if q != "" {
      if Starts(q, PARAMETER) {
        var t := q[|PARAMETER|..];
        RunIsPrefix(t);
        var rest := t[|NameRun(t)|..];
        if rest != "" && rest[0] == '>' {
          assert rest[1..] == q[|PARAMETER| + |NameRun(t)| + 1..];
          assert q[|PARAMETER| + |NameRun(t)|] == '>';
          SplitDecides(rest[1..], PARAMETER_END);
        }
      }
      forall j | 0 <= j < |q[1..]| && q[1..][j] == '>' ensures !Contains(q[1..][j + 1..], PARAMETER_END) {
        assert q[1..][j + 1..] == q[j + 2..] && q[j + 1] == '>';
      }
      NoParameters(q[1..]);
    }
  }

  lemma NoEndMarkerBehindBreak(v: string)
    requires Split(v, PARAMETER_END).None?
    ensures !Contains("\n" + v, PARAMETER_END)
  {
    SplitDecides(v, PARAMETER_END);
    ContainsCons("\n" + v, PARAMETER_END);
    assert ("\n" + v)[1..] == v;
    assert ("\n" + v)[0] != PARAMETER_END[0];
  }

  lemma NoParametersBehindBracket(head: string, y: string, q: string)
    requires q <= head + (">" + y) && !Contains(y, PARAMETER_END) && forall i | 0 <= i < |head| :: head[i] != '>'
    ensures Parameters(q) == []
  {
    forall j | 0 <= j < |q| && q[j] == '>' ensures !Contains(q[j + 1..], PARAMETER_END) {
      BehindBracket(head, y, q, j);
      if Contains(q[j + 1..], PARAMETER_END) {
        PartContains(y, j - |head|, |q| - |head| - 1, PARAMETER_END);
      }
    }
    NoParameters(q);
  }

  /** A part of an argument without its end marker holds no parameter. */
  lemma PartHasNoParameters(a: Argument, q: string)
    requires Clean(a) && q <= Part(a)
    ensures Parameters(q) == []
  {
    assert Part(a) == (PARAMETER + a.key) + (">" + ("\n" + Render(a.value)));
    NoEndMarkerBehindBreak(Render(a.value));
    NoParametersBehindBracket(PARAMETER + a.key, "\n" + Render(a.value), q);
  }

  lemma BehindBracket(head: string, y: string, q: string, j: nat)
    requires q <= head + (">" + y) && j < |q| && q[j] == '>' && forall i | 0 <= i < |head| :: head[i] != '>'
    ensures |head| <= j && |q| - |head| - 1 <= |y| && q[j + 1..] == y[j - |head|..|q| - |head| - 1]
  {
    var w := head + (">" + y);
    assert forall i | 0 <= i < |head| :: w[i] == head[i];
    assert q[j] == w[j];
  }

  lemma {:induction false} SplitAfter(u: string, pat: string, t: string)
    requires pat != "" && forall j | 0 <= j < |u| :: !Starts(u[j..] + (pat + t), pat)
    ensures Split(u + (pat + t), pat) == Some((u, t))
  {
    if u == "" {
      assert u + (pat + t) == pat + t && (pat + t)[|pat|..] == t;
    } else {
      assert u[0..] == u;
      assert (u + (pat + t))[1..] == u[1..] + (pat + t);
      forall j | 0 <= j < |u[1..]| ensures !Starts(u[1..][j..] + (pat + t), pat) {
        assert u[1..][j..] == u[j + 1..];
      }
      SplitAfter(u[1..], pat, t);
      assert [u[0]] + u[1..] == u;
    }
  }

  lemma SplitAtValue(v: string, t: string)
    requires Split(v, PARAMETER_END).None?
    ensures Split("\n" + v + "\n" + (PARAMETER_END + t), PARAMETER_END) == Some(("\n" + v + "\n", t))
  {
    var u := "\n" + v + "\n";
    SplitDecides(v, PARAMETER_END);
    MarkersAreOneLine();
    forall j | 0 <= j < |u| ensures !Starts(u[j..] + (PARAMETER_END + t), PARAMETER_END) {
      assert (u[j..] + (PARAMETER_END + t))[0] == u[j];
      if 1 <= j <= |v| {
        assert u[j..] + (PARAMETER_END + t) == v[j - 1..] + ("\n" + (PARAMETER_END + t));
        StopsAtBreak(v[j - 1..], "\n" + (PARAMETER_END + t), PARAMETER_END);
      }
    }
    SplitAfter(u, PARAMETER_END, t);
  }

  lemma BreakHasNoParameter(b: string)
    ensures Parameters("\n" + b) == Parameters(b)
  {
    assert ("\n" + b)[0] != PARAMETER[0];
    assert ("\n" + b)[1..] == b;
  }

  /** A whole argument is found as it was printed. */
  lemma ParametersOfWhole(a: Argument, b: string)
    requires Clean(a)
    ensures Parameters(Opening(a) + (PARAMETER_END + "\n") + b) == [(a.key, Render(a.value))] + Parameters(b)
  {
    var v := Render(a.value);
    var s := Opening(a) + (PARAMETER_END + "\n") + b;
    var behind := "\n" + v + "\n" + (PARAMETER_END + ("\n" + b));
    Regrouped(PARAMETER, a.key, v, PARAMETER_END, b);
    assert s == PARAMETER + (a.key + (">" + behind));
    assert s[|PARAMETER|..] == a.key + (">" + behind);
    RunOfName(a.key, ">" + behind);
    assert (a.key + (">" + behind))[|a.key|..] == ">" + behind;
    assert (">" + behind)[1..] == behind;
    SplitAtValue(v, "\n" + b);
    StripBetweenLines(v);
    BreakHasNoParameter(b);
  }

  lemma Regrouped(p: string, k: string, v: string, e: string, b: string)
    ensures p + k + (">\n" + v + "\n") + (e + "\n") + b == p + (k + (">" + ("\n" + v + "\n" + (e + ("\n" + b)))))
  {
  }

  // ---------- the whole text ----------

  /** The arguments before the first early end. */
  ghost function Kept(args: seq<Argument>): seq<Argument> {
    if args == [] || EndsEarly(args[0]) then [] else [args[0]] + Kept(args[1..])
  }

  function Pairs(args: seq<Argument>): seq<(string, string)> {
    if args == [] then [] else [(args[0].key, Render(args[0].value))] + Pairs(args[1..])
  }

  lemma CallEndIsEnd()
    ensures BodyOf(Rendered([])) == Some("")
  {
    var s := FUNCTION_END + "\n" + CALL_END;
    assert s[|FUNCTION_END|..] == "\n" + CALL_END;
    assert ("\n" + CALL_END)[1..] == CALL_END;
    assert SkipSpaces("\n" + CALL_END) == CALL_END;
  }

  /** The body of a printed call holds the arguments before the first early end, and no others. */
  lemma {:induction false} BodyHoldsKept(args: seq<Argument>) returns (body: string)
    requires forall i | 0 <= i < |args| :: Clean(args[i])
    ensures BodyOf(Rendered(args)) == Some(body) && Parameters(body) == Pairs(Kept(args))
  {
    if args == [] {
      CallEndIsEnd();
      body := "";
    } else if EndsEarly(args[0]) {
      BodyOfPart(args[0], Rendered(args[1..]));
      body := BodyOf(Whole(args[0], Rendered(args[1..]))).value;
      PartHasNoParameters(args[0], body);
    } else {
      var rest := BodyHoldsKept(args[1..]);
      BodyOfWhole(args[0], Rendered(args[1..]));
      body := Opening(args[0]) + (PARAMETER_END + "\n") + rest;
      ParametersOfWhole(args[0], rest);
      assert Kept(args)[1..] == Kept(args[1..]);
    }
  }

  lemma NoEndAtBreak(t: string)
    ensures BodyOf("\n" + t) == match BodyOf(t) case None => None case Some(b) => Some("\n" + b)
  {
    assert ("\n" + t)[0] != FUNCTION_END[0];
    assert ("\n" + t)[1..] == t;
  }

  /** A call printed under a proper name is found under that name. */
  lemma PrintedIsFound(name: string, args: seq<Argument>, body: string)
    requires NameOk(name) && BodyOf(Rendered(args)) == Some(body)
    ensures Search(Printed(Operation(name, args))) == Some((name, "\n" + body))
  {
    var rest := ">" + ("\n" + Rendered(args));
    Front(CALL, FUNCTION, name, rest);
    Dropped(CALL, "\n" + (FUNCTION + (name + rest)));
    SkipBreak(FUNCTION + (name + rest));
    Dropped(FUNCTION, name + rest);
    RunOfName(name, rest);
    Dropped(name, rest);
    Dropped(">", "\n" + Rendered(args));
    NoEndAtBreak(Rendered(args));
  }

  lemma Dropped(a: string, b: string)
    ensures a <= a + b && (a + b)[|a|..] == b
  {
  }

  lemma SkipBreak(t: string)
    requires t != "" && t[0] == '<'
    ensures SkipSpaces("\n" + t) == t
  {
    assert ("\n" + t)[1..] == t;
  }

  lemma Front(c: string, f: string, name: string, rest: string)
    ensures c + "\n" + f + name + rest == c + ("\n" + (f + (name + rest)))
  {
  }

  lemma {:induction false} FoundNameIsProper(s: string)
    ensures Search(s).Some? ==> NameOk(Search(s).value.0)
  {
    if CallHere(s).Some? {
      RunIsPrefix(SkipSpaces(s[|CALL|..])[|FUNCTION|..]);
    } else if s != "" {
      FoundNameIsProper(s[1..]);
    }
  }

  /** A pair the parser can find. */
  predicate ProperPair(p: (string, string)) {
    NameOk(p.0) && Stripped(p.1) && Split(p.1, PARAMETER_END).None?
  }

  lemma FoundPairIsProper(s: string)
    ensures ParameterHere(s).Some? ==> ProperPair((ParameterHere(s).value.0, ParameterHere(s).value.1))
  {
    if ParameterHere(s).Some? {
      var t := s[|PARAMETER|..];
      RunIsPrefix(t);
      var behind := t[|NameRun(t)|..][1..];
      SplitIsFirst(behind, PARAMETER_END);
      var before := Split(behind, PARAMETER_END).value.0;
      StripIsStripped(before);
      SplitDecides(Strip(before), PARAMETER_END);
      if Contains(Strip(before), PARAMETER_END) {
        StripContainsNothingNew(before, PARAMETER_END);
      }
    }
  }

  lemma {:induction false} FoundPairsAreProper(s: string)
    ensures forall i | 0 <= i < |Parameters(s)| :: ProperPair(Parameters(s)[i])
    decreases |s|
  {
    if s != "" {
      FoundPairIsProper(s);
      match ParameterHere(s)
      case None => FoundPairsAreProper(s[1..]);
      case Some(p) => FoundPairsAreProper(p.2);
    }
  }

  // ---------- the collected arguments ----------

  /** A collected value is what its pair holds: a number under "port", the text under any other key. */
  predicate FromPair(toInt: IntReader, p: (string, string), v: Value) {
    if p.0 == "port" then toInt(p.1).Some? && v == Int(toInt(p.1).value) else v == Str(p.1)
  }

  ghost predicate PairFor(toInt: IntReader, found: seq<(string, string)>, key: string, v: Value) {
    exists i | 0 <= i < |found| :: found[i].0 == key && FromPair(toInt, found[i], v)
  }

  lemma PairForLater(toInt: IntReader, found: seq<(string, string)>, key: string, v: Value)
    requires found != [] && (PairFor(toInt, found[1..], key, v) || (found[0].0 == key && FromPair(toInt, found[0], v)))
    ensures PairFor(toInt, found, key, v)
  {
    if i :| 0 <= i < |found[1..]| && found[1..][i].0 == key && FromPair(toInt, found[1..][i], v) {
      assert found[i + 1] == found[1..][i];
    }
  }

  lemma {:induction false} CollectedFromPairs(toInt: IntReader, found: seq<(string, string)>, acc: map<string, Value>,
                                              key: string)
    requires key in Collect(toInt, found, acc).0
    ensures (key in acc && Collect(toInt, found, acc).0[key] == acc[key])
      || PairFor(toInt, found, key, Collect(toInt, found, acc).0[key])
  {
    if found != [] && found[0].0 !in acc && (found[0].0 == "port" ==> toInt(found[0].1).Some?) {
      var (k, text) := found[0];
      var v := if k == "port" then Int(toInt(text).value) else Str(text);
      CollectedFromPairs(toInt, found[1..], acc[k := v], key);
      var r := Collect(toInt, found[1..], acc[k := v]).0[key];
      if PairFor(toInt, found[1..], key, r) || (key == k && FromPair(toInt, found[0], r)) {
        PairForLater(toInt, found, key, r);
      }
    }
  }

  lemma {:induction false} CollectedAreFew(toInt: IntReader, found: seq<(string, string)>, acc: map<string, Value>)
    ensures |Collect(toInt, found, acc).0| <= |acc| + |found|
  {
    if found != [] && found[0].0 !in acc {
      var (k, value) := found[0];
      if k != "port" {
        CollectedAreFew(toInt, found[1..], acc[k := Str(value)]);
      } else if toInt(value).Some? {
        CollectedAreFew(toInt, found[1..], acc[k := Int(toInt(value).value)]);
      }
    }
  }

  /** The arguments of a row as a map. */
  function Added(acc: map<string, Value>, args: seq<Argument>): map<string, Value>
    decreases args
  {
    if args == [] then acc else Added(acc[args[0].key := args[0].value], args[1..])
  }

  function ArgumentMap(args: seq<Argument>): map<string, Value> {
    Added(map[], args)
  }

  ghost predicate KeysNew(acc: map<string, Value>, args: seq<Argument>) {
    KeysDistinct(args) && forall i | 0 <= i < |args| :: args[i].key !in acc
  }

  lemma KeysNewNext(acc: map<string, Value>, args: seq<Argument>)
    requires args != [] && KeysNew(acc, args)
    ensures KeysNew(acc[args[0].key := args[0].value], args[1..])
  {
  }

  lemma {:induction false} AddedHolds(acc: map<string, Value>, args: seq<Argument>)
    requires KeysNew(acc, args)
    ensures |Added(acc, args)| == |acc| + |args|
    ensures forall k | k in acc :: k in Added(acc, args) && Added(acc, args)[k] == acc[k]
    ensures forall i | 0 <= i < |args| ::
      args[i].key in Added(acc, args) && Added(acc, args)[args[i].key] == args[i].value
    decreases args
  {
    if args != [] {
      KeysNewNext(acc, args);
      AddedHolds(acc[args[0].key := args[0].value], args[1..]);
      forall i | 0 <= i < |args|
        ensures args[i].key in Added(acc, args) && Added(acc, args)[args[i].key] == args[i].value
      {
        if i > 0 {
          assert args[i] == args[1..][i - 1];
        }
      }
    }
  }

  /** Fitting arguments are collected as they are. */
  lemma {:induction false} FittingAreCollected(toInt: IntReader, args: seq<Argument>, acc: map<string, Value>)
    requires ReadsDecimals(toInt) && KeysNew(acc, args)
    requires forall i | 0 <= i < |args| :: ValueFits(args[i])
    ensures Collect(toInt, Pairs(args), acc) == (Added(acc, args), None)
  {
    if args != [] {
      KeysNewNext(acc, args);
      assert ValueFits(args[0]);
      assert Pairs(args)[1..] == Pairs(args[1..]);
      FittingAreCollected(toInt, args[1..], acc[args[0].key := args[0].value]);
    }
  }

  // ---------- the round trip ----------

  lemma NumberIsClean(key: string, n: int)
    requires NameOk(key)
    ensures Clean(Argument(key, Int(n)))
  {
    var text := Render(Int(n));
    DecimalIsDigits(if n < 0 then -n else n);
    assert forall i | 0 <= i < |text| :: text[i] == '-' || '0' <= text[i] <= '9';
    SplitDecides(text, PARAMETER_END);
    forall j | 0 <= j <= |text| ensures !Starts(text[j..], PARAMETER_END) {
      if j < |text| {
        assert text[j..][0] == text[j];
      }
    }
  }

  lemma FittingIsClean(a: Argument)
    requires NameOk(a.key) && ValueFits(a)
    ensures Clean(a)
  {
    if a.key == "port" {
      NumberIsClean(a.key, a.value.number);
    }
  }

  lemma {:induction false} KeptIsPrefix(args: seq<Argument>)
    ensures |Kept(args)| <= |args|
    ensures |Kept(args)| == |args| <==> forall i | 0 <= i < |args| :: !EndsEarly(args[i])
    ensures |Kept(args)| == |args| ==> Kept(args) == args
  {
    if args != [] {
      KeptIsPrefix(args[1..]);
      assert forall i | 1 <= i < |args| :: args[i] == args[1..][i - 1];
    }
  }

  lemma {:induction false} PairsLength(args: seq<Argument>)
    ensures |Pairs(args)| == |args|
  {
    if args != [] {
      PairsLength(args[1..]);
    }
  }

  lemma NoMarkerInBreak()
    ensures !Contains("\n" + "", PARAMETER)
  {
    var s := "\n" + "";
    assert forall j | 0 <= j <= |s| :: |s[j..]| <= 1;
  }

  /** What the parser finds in a printed call with a proper name and clean arguments. */
  lemma PrintedPairs(name: string, args: seq<Argument>) returns (body: string)
    requires NameOk(name) && forall i | 0 <= i < |args| :: Clean(args[i])
    ensures Search(Printed(Operation(name, args))) == Some((name, body)) && Parameters(body) == Pairs(Kept(args))
    ensures args == [] ==> body == "\n" + ""
  {
    var inner := BodyHoldsKept(args);
    CallEndIsEnd();
    PrintedIsFound(name, args, inner);
    BreakHasNoParameter(inner);
    body := "\n" + inner;
  }

  lemma FittingRowsComeBack(toInt: IntReader, name: string, args: seq<Argument>)
    requires ReadsDecimals(toInt) && KeysDistinct(args) && RowFits(name, args)
    ensures Parsed(toInt, Printed(Operation(name, args))) == Call(name, ArgumentMap(args), None)
  {
    forall i | 0 <= i < |args| ensures Clean(args[i]) {
      assert ArgumentFits(args[i]);
      FittingIsClean(args[i]);
    }
    KeptIsPrefix(args);
    var body := PrintedPairs(name, args);
    FittingAreCollected(toInt, args, map[]);
    AddedHolds(map[], args);
    NoMarkerInBreak();
  }

  /** An argument that came back has a key and a value the parser can return. */
  lemma ReturnedFits(toInt: IntReader, body: string, a: Argument)
    requires a.key in Collect(toInt, Parameters(body), map[]).0
      && Collect(toInt, Parameters(body), map[]).0[a.key] == a.value
    ensures NameOk(a.key) && ValueFits(a)
  {
    CollectedFromPairs(toInt, Parameters(body), map[], a.key);
    FoundPairsAreProper(body);
    var i :| 0 <= i < |Parameters(body)| && Parameters(body)[i].0 == a.key
      && FromPair(toInt, Parameters(body)[i], a.value);
    assert ProperPair(Parameters(body)[i]);
  }

  lemma ReturnedRowsFit(toInt: IntReader, name: string, args: seq<Argument>)
    requires KeysDistinct(args)
    requires Parsed(toInt, Printed(Operation(name, args))) == Call(name, ArgumentMap(args), None)
    ensures RowFits(name, args)
  {
    var text := Printed(Operation(name, args));
    FoundNameIsProper(text);
    var found := Search(text).value.1;
    AddedHolds(map[], args);
    forall i | 0 <= i < |args| ensures NameOk(args[i].key) && ValueFits(args[i]) && Clean(args[i]) {
      ReturnedFits(toInt, found, args[i]);
      FittingIsClean(args[i]);
    }
    var body := PrintedPairs(name, args);
    CollectedAreFew(toInt, Parameters(body), map[]);
    PairsLength(Kept(args));
    KeptIsPrefix(args);
  }

  /** The round trip, for every row: operation and arguments come back without an error exactly when the
      names are proper, every value can be returned under its key, and no argument ends the call early. */
  lemma RoundTripsExactlyWhenRowFits(toInt: IntReader, name: string, args: seq<Argument>)
    requires ReadsDecimals(toInt) && KeysDistinct(args)
    ensures Parsed(toInt, Printed(Operation(name, args))) == Call(name, ArgumentMap(args), None) <==>
      RowFits(name, args)
  {
    if RowFits(name, args) {
      FittingRowsComeBack(toInt, name, args);
    }
    if Parsed(toInt, Printed(Operation(name, args))) == Call(name, ArgumentMap(args), None) {
      ReturnedRowsFit(toInt, name, args);
    }
  }

  /** A row without a call parses to no call. */
  lemma NoCallComesBack(toInt: IntReader)
    ensures Parsed(toInt, Printed(NoOperation)) == NoCall
  {
    assert forall i | 0 <= i < |NOTHING| :: NOTHING[i] != '<';
    TextWithoutMarkersIsNoCall(toInt, NOTHING);
  }

  lemma TextWithoutMarkersIsNoCall(toInt: IntReader, s: string)
    requires forall i | 0 <= i < |s| :: s[i] != '<'
    ensures Parsed(toInt, s) == NoCall
  {
    NothingFoundWithout(s);
  }

  lemma {:induction false} NothingFoundWithout(s: string)
    requires forall i | 0 <= i < |s| :: s[i] != '<'
    ensures Search(s) == None
  {
    assert !Starts(s, CALL) by { assert CALL[0] == '<'; }
    if s != "" {
      NothingFoundWithout(s[1..]);
    }
  }

  /** A row of one argument whose key and value together make the end of a call. */
  predicate MarkersMeet(a: Argument) {
    a == Argument("x" + FUNCTION_OPEN_END, Str(CALL_END))
  }

  lemma MeetingMarkersLookHarmless(a: Argument)
    requires MarkersMeet(a)
    ensures NameOk(a.key) && Stripped(a.value.text)
    ensures !Contains(a.value.text, PARAMETER_END) && !Contains(a.value.text, FUNCTION_END)
    ensures EndsEarly(a)
  {
    KeyIsProper(a);
    ValueIsFree(a);
    KeyMeetsValue(a);
  }

  lemma KeyIsProper(a: Argument)
    requires MarkersMeet(a)
    ensures NameOk(a.key)
  {
  }

  lemma ValueIsFree(a: Argument)
    requires MarkersMeet(a)
    ensures Stripped(a.value.text) && !Contains(a.value.text, PARAMETER_END) && !Contains(a.value.text, FUNCTION_END)
  {
    OnlyOneBracket(a.value.text, PARAMETER_END);
    OnlyOneBracket(a.value.text, FUNCTION_END);
  }

  lemma KeyMeetsValue(a: Argument)
    requires MarkersMeet(a)
    ensures EndsEarly(a)
  {
    assert a.key[1..] == FUNCTION_OPEN_END;
    assert SkipSpaces(a.value.text) == a.value.text;
  }

  /** The condition "names and keys free of brackets and white space, values stripped and free of the two
      end markers" is not enough: this row meets it and does not come back. */
  lemma MarkersMayMeetAcrossKeyAndValue(toInt: IntReader, name: string, a: Argument)
    requires ReadsDecimals(toInt) && NameOk(name) && MarkersMeet(a)
    ensures NameOk(a.key) && Stripped(a.value.text)
    ensures !Contains(a.value.text, PARAMETER_END) && !Contains(a.value.text, FUNCTION_END)
    ensures Parsed(toInt, Printed(Operation(name, [a]))) != Call(name, ArgumentMap([a]), None)
  {
    MeetingMarkersLookHarmless(a);
    assert !ArgumentFits([a][0]);
    RoundTripsExactlyWhenRowFits(toInt, name, [a]);
  }

  lemma OnlyOneBracket(s: string, pat: string)
    requires |pat| >= 3 && pat[0] == '<' && |s| >= 3 && s[2] != pat[2] && forall j | 1 <= j < |s| :: s[j] != '<'
    ensures !Contains(s, pat)
  {
    forall j | 0 <= j <= |s| ensures !Starts(s[j..], pat) {
      if 0 < j < |s| {
        assert s[j..][0] == s[j];
      }
    }
  }
}

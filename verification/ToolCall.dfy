/**
 Tool calls as text: the printer (training/train_vm_lab_lora.py) and the parser
 (training/evaluate_vm_lab_lora.py) of the training scripts.
 */
module ToolCall {
  import opened Wrappers
  import opened Decimals
  import opened Patterns

  /** An argument value; Other is anything else the printer renders with str. */
  datatype Value = Str(text: string) | Int(number: int) | Other(rendering: string)

  datatype Argument = Argument(key: string, value: Value)

  /** The target of a training row. The arguments are a dictionary: their keys differ. */
  datatype Target = NoOperation | Operation(name: string, arguments: seq<Argument>)

  datatype ParseError = DuplicateArgument(key: string) | InvalidInteger(key: string) | MalformedArguments

  datatype ToolCall = NoCall | Call(name: string, args: map<string, Value>, error: Option<ParseError>)

  const CALL := "<tool_call>"
  const FUNCTION := "<function="
  const PARAMETER := "<parameter="
  const PARAMETER_END := "</parameter>"
  const FUNCTION_END := "</function>"
  const CALL_END := "</tool_call>"
  const NOTHING := "No operation is warranted."

  // ---------- the printer ----------

  function Render(v: Value): string {
    match v
    case Str(text) => text
    case Int(n) => if n < 0 then "-" + Decimal(-n) else Decimal(n)
    case Other(rendering) => rendering
  }

  /** One argument, up to and including the line break before its end marker. */
  function Opening(a: Argument): string {
    PARAMETER + a.key + (">\n" + Render(a.value) + "\n")
  }

  /** The arguments and what follows them. */
  function Rendered(args: seq<Argument>): string {
    if args == [] then FUNCTION_END + "\n" + CALL_END
    else Opening(args[0]) + (PARAMETER_END + "\n" + Rendered(args[1..]))
  }

  function Printed(t: Target): string {
    match t
    case NoOperation => NOTHING
    case Operation(name, args) => CALL + "\n" + FUNCTION + name + (">" + ("\n" + Rendered(args)))
  }

  function Join(parts: seq<string>): string {
    if parts == [] then "" else if |parts| == 1 then parts[0] else parts[0] + ("\n" + Join(parts[1..]))
  }

  function Lines(args: seq<Argument>): seq<string> {
    if args == [] then [FUNCTION_END, CALL_END]
    else [PARAMETER + args[0].key + ">", Render(args[0].value), PARAMETER_END] + Lines(args[1..])
  }

  lemma JoinCons(part: string, parts: seq<string>)
    requires parts != []
    ensures Join([part] + parts) == part + ("\n" + Join(parts))
  {
    assert ([part] + parts)[1..] == parts;
  }

  lemma Regroup(a: string, b: string, c: string, rest: string)
    ensures a + ("\n" + (b + ("\n" + (c + ("\n" + rest))))) == (a + "\n" + b + "\n") + (c + "\n" + rest)
  {
  }

  lemma JoinThree(a: string, b: string, c: string, rest: seq<string>)
    requires rest != []
    ensures Join([a, b, c] + rest) == (a + "\n" + b + "\n") + (c + "\n" + Join(rest))
  {
    JoinCons(c, rest);
    JoinCons(b, [c] + rest);
    JoinCons(a, [b] + ([c] + rest));
    assert [a, b, c] + rest == [a] + ([b] + ([c] + rest));
    Regroup(a, b, c, Join(rest));
  }

  lemma Head(a: string, b: string, c: string)
    ensures a + b + (">\n" + c + "\n") == (a + b + ">") + "\n" + c + "\n"
  {
  }

  lemma {:induction false} JoinedLines(args: seq<Argument>)
    ensures Lines(args) != [] && Join(Lines(args)) == Rendered(args)
  {
    if args == [] {
      JoinCons(FUNCTION_END, [CALL_END]);
    } else {
      JoinedLines(args[1..]);
      JoinThree(PARAMETER + args[0].key + ">", Render(args[0].value), PARAMETER_END, Lines(args[1..]));
      Head(PARAMETER, args[0].key, Render(args[0].value));
    }
  }

  method Completion(t: Target) returns (text: string)
    ensures text == Printed(t)
  {
    if t.NoOperation? {
      return NOTHING;
    }
    var parts := [CALL, FUNCTION + t.name + ">"];
    for i := 0 to |t.arguments|
      invariant parts + Lines(t.arguments[i..]) == [CALL, FUNCTION + t.name + ">"] + Lines(t.arguments)
    {
      assert t.arguments[i..][1..] == t.arguments[i + 1..];
      parts := parts + [PARAMETER + t.arguments[i].key + ">", Render(t.arguments[i].value), PARAMETER_END];
    }
    parts := parts + [FUNCTION_END, CALL_END];
    text := Join(parts);
    assert t.arguments[|t.arguments|..] == [];
    PartsJoined(FUNCTION + t.name + ">", t.arguments);
    CallHead(CALL, FUNCTION, t.name, Rendered(t.arguments));
  }

  lemma PartsJoined(head: string, arguments: seq<Argument>)
    ensures Join([CALL, head] + Lines(arguments)) == CALL + ("\n" + (head + ("\n" + Rendered(arguments))))
  {
    JoinedLines(arguments);
    JoinCons(head, Lines(arguments));
    JoinCons(CALL, [head] + Lines(arguments));
    assert [CALL, head] + Lines(arguments) == [CALL] + ([head] + Lines(arguments));
  }

  lemma CallHead(a: string, b: string, name: string, rest: string)
    ensures a + ("\n" + (b + name + ">" + ("\n" + rest))) == a + "\n" + b + name + (">" + ("\n" + rest))
  {
  }

  // ---------- the parser ----------

  /** The end of a call: both end markers, white space between them. */
  predicate EndHere(s: string) {
    Starts(s, FUNCTION_END) && Starts(SkipSpaces(s[|FUNCTION_END|..]), CALL_END)
  }

  /** What stands before the first end of a call. */
  function BodyOf(s: string): Option<string> {
    if EndHere(s) then Some("")
    else if s == "" then None
    else
      match BodyOf(s[1..])
      case None => None
      case Some(body) => Some([s[0]] + body)
  }

  /** A call that starts here: its name and its body. */
  function CallHere(s: string): Option<(string, string)> {
    if !Starts(s, CALL) then None
    else
      var t := SkipSpaces(s[|CALL|..]);
      if !Starts(t, FUNCTION) then None
      else
        RunIsPrefix(t[|FUNCTION|..]);
        var name := NameRun(t[|FUNCTION|..]);
        var rest := t[|FUNCTION|..][|name|..];
        if name == "" || rest == "" || rest[0] != '>' then None
        else
          match BodyOf(rest[1..])
          case None => None
          case Some(body) => Some((name, body))
  }

  /** The leftmost call. */
  function Search(s: string): Option<(string, string)> {
    if CallHere(s).Some? then CallHere(s) else if s == "" then None else Search(s[1..])
  }

  /** A parameter that starts here: key, value, and the rest of the text. */
  function ParameterHere(s: string): (r: Option<(string, string, string)>)
    ensures r.Some? ==> |r.value.2| < |s|
  {
    if !Starts(s, PARAMETER) then None
    else
      RunIsPrefix(s[|PARAMETER|..]);
      var key := NameRun(s[|PARAMETER|..]);
      var rest := s[|PARAMETER|..][|key|..];
      if key == "" || rest == "" || rest[0] != '>' then None
      else
        match Split(rest[1..], PARAMETER_END)
        case None => None
        case Some(parts) => SplitParts(rest[1..], PARAMETER_END); Some((key, Strip(parts.0), parts.1))
  }

  /** All parameters from left to right, none overlapping another. */
  function Parameters(s: string): seq<(string, string)>
    decreases |s|
  {
    if s == "" then []
    else
      match ParameterHere(s)
      case None => Parameters(s[1..])
      case Some(p) => [(p.0, p.1)] + Parameters(p.2)
  }

  /** int(): None is a ValueError. */
  type IntReader = string -> Option<int>

  /** Canonical decimals are read back. */
  ghost predicate ReadsDecimals(toInt: IntReader) {
    forall n: int :: toInt(Render(Int(n))) == Some(n)
  }

  /** The arguments collected from the parameters, up to the first error. */
  function Collect(toInt: IntReader, found: seq<(string, string)>, args: map<string, Value>)
    : (map<string, Value>, Option<ParseError>)
  {
    if found == [] then (args, None)
    else
      var (key, value) := found[0];
      if key in args then (args, Some(DuplicateArgument(key)))
      else if key == "port" then
        match toInt(value)
        case None => (args, Some(InvalidInteger(key)))
        case Some(n) => Collect(toInt, found[1..], args[key := Int(n)])
      else Collect(toInt, found[1..], args[key := Str(value)])
  }

  ghost function Parsed(toInt: IntReader, text: string): ToolCall {
    match Search(text)
    case None => NoCall
    case Some(call) =>
      var (args, error) := Collect(toInt, Parameters(call.1), map[]);
      if error.Some? then Call(call.0, args, error)
      else if Contains(call.1, PARAMETER) && args == map[] then Call(call.0, args, Some(MalformedArguments))
      else Call(call.0, args, None)
  }

  method ParseToolCall(toInt: IntReader, text: string) returns (r: ToolCall)
    ensures r == Parsed(toInt, text)
  {
    var found := Search(text);
    if found.None? {
      return NoCall;
    }
    var (name, body) := found.value;
    var args: map<string, Value> := map[];
    var parameters := Parameters(body);
    for i := 0 to |parameters|
      invariant Collect(toInt, parameters[i..], args) == Collect(toInt, parameters, map[])
    {
      assert parameters[i..][1..] == parameters[i + 1..];
      var (key, value) := parameters[i];
      if key in args {
        return Call(name, args, Some(DuplicateArgument(key)));
      }
      if key == "port" {
        var number := toInt(value);
        if number.None? {
          return Call(name, args, Some(InvalidInteger(key)));
        }
        args := args[key := Int(number.value)];
      } else {
        args := args[key := Str(value)];
      }
    }
    SplitDecides(body, PARAMETER);
    if Split(body, PARAMETER).Some? && |args| == 0 {
      return Call(name, args, Some(MalformedArguments));
    }
    r := Call(name, args, None);
  }

  // ---------- when parsing reports an error ----------

  /** The first n parameters are taken: their names differ, and a port among them reads as a number. */
  predicate TakenUpTo(toInt: IntReader, found: seq<(string, string)>, n: nat)
    requires n <= |found|
  {
    (forall i, j | 0 <= i < j < n :: found[i].0 != found[j].0)
    && forall i | 0 <= i < n && found[i].0 == "port" :: toInt(found[i].1).Some?
  }

  function TakenValue(toInt: IntReader, found: (string, string)): Value
    requires found.0 == "port" ==> toInt(found.1).Some?
  {
    if found.0 == "port" then Int(toInt(found.1).value) else Str(found.1)
  }

  /** The arguments are those of the first n parameters. */
  ghost predicate Holds(toInt: IntReader, found: seq<(string, string)>, n: nat, args: map<string, Value>)
    requires n <= |found|
  {
    (forall k :: k in args <==> exists i | 0 <= i < n :: found[i].0 == k)
    && forall i | 0 <= i < n ::
         found[i].0 in args && (found[i].0 == "port" ==> toInt(found[i].1).Some?)
         && args[found[i].0] == TakenValue(toInt, found[i])
  }

  /** The next parameter is refused for its name exactly when the name was met before. */
  lemma RepeatedExactlyWhen(toInt: IntReader, found: seq<(string, string)>, n: nat, args: map<string, Value>)
    requires n < |found| && TakenUpTo(toInt, found, n) && Holds(toInt, found, n, args)
    ensures found[n].0 in args <==> exists i | 0 <= i < n :: found[i].0 == found[n].0
    ensures TakenUpTo(toInt, found, n + 1) <==>
      found[n].0 !in args && (found[n].0 == "port" ==> toInt(found[n].1).Some?)
  {
  }

  lemma OneMoreTaken(toInt: IntReader, found: seq<(string, string)>, n: nat, args: map<string, Value>, value: Value)
    requires n < |found| && Holds(toInt, found, n, args) && found[n].0 !in args
    requires (found[n].0 == "port" ==> toInt(found[n].1).Some?) && value == TakenValue(toInt, found[n])
    ensures Holds(toInt, found, n + 1, args[found[n].0 := value])
  {
    var more := args[found[n].0 := value];
    forall k ensures k in more <==> exists i | 0 <= i < n + 1 :: found[i].0 == k {
      if k in args {
        var i :| 0 <= i < n && found[i].0 == k;
      }
      assert k == found[n].0 ==> found[n].0 == k;
    }
  }

  /** The collection ended at stop: there with the error of that parameter, or behind the last one without. */
  ghost predicate EndedAt(toInt: IntReader, found: seq<(string, string)>, stop: nat,
                          collected: (map<string, Value>, Option<ParseError>))
  {
    stop <= |found| && TakenUpTo(toInt, found, stop) && Holds(toInt, found, stop, collected.0)
    && if stop == |found| then collected.1.None?
       else
         !TakenUpTo(toInt, found, stop + 1)
         && collected.1 == if exists i | 0 <= i < stop :: found[i].0 == found[stop].0
                           then Some(DuplicateArgument(found[stop].0))
                           else Some(InvalidInteger(found[stop].0))
  }

  /** One parameter further, or the end of it. */
  lemma CollectOne(toInt: IntReader, found: seq<(string, string)>, n: nat, args: map<string, Value>)
    requires n < |found|
    ensures var (key, value) := found[n];
      Collect(toInt, found[n..], args) ==
        if key in args then (args, Some(DuplicateArgument(key)))
        else if key == "port" && toInt(value).None? then (args, Some(InvalidInteger(key)))
        else Collect(toInt, found[n + 1..], args[key := TakenValue(toInt, found[n])])
  {
    var rest := found[n..];
    assert rest[0] == found[n] && rest[1..] == found[n + 1..];
  }

  lemma EndsHere(toInt: IntReader, found: seq<(string, string)>, n: nat, args: map<string, Value>)
    requires n < |found| && TakenUpTo(toInt, found, n) && Holds(toInt, found, n, args)
    requires found[n].0 in args || (found[n].0 == "port" && toInt(found[n].1).None?)
    ensures EndedAt(toInt, found, n, Collect(toInt, found[n..], args))
  {
    RepeatedExactlyWhen(toInt, found, n, args);
    CollectOne(toInt, found, n, args);
  }

  /** Parameters that are taken are collected, and the rest follows. */
  lemma {:induction false} TakenAreCollected(toInt: IntReader, found: seq<(string, string)>, n: nat)
    returns (args: map<string, Value>)
    requires n <= |found| && TakenUpTo(toInt, found, n)
    ensures Holds(toInt, found, n, args) && Collect(toInt, found, map[]) == Collect(toInt, found[n..], args)
    decreases n
  {
    if n == 0 {
      args := map[];
      assert found[0..] == found;
    } else {
      TakenBefore(toInt, found, n);
      var before := TakenAreCollected(toInt, found, n - 1);
      RepeatedExactlyWhen(toInt, found, n - 1, before);
      CollectOne(toInt, found, n - 1, before);
      args := before[found[n - 1].0 := TakenValue(toInt, found[n - 1])];
      OneMoreTaken(toInt, found, n - 1, before, TakenValue(toInt, found[n - 1]));
    }
  }

  lemma TakenBefore(toInt: IntReader, found: seq<(string, string)>, n: nat)
    requires 0 < n <= |found| && TakenUpTo(toInt, found, n)
    ensures TakenUpTo(toInt, found, n - 1)
  {
  }

  /** How many parameters are taken before the first error. */
  lemma {:induction false} FirstError(toInt: IntReader, found: seq<(string, string)>, n: nat) returns (stop: nat)
    requires n <= |found| && TakenUpTo(toInt, found, n)
    ensures n <= stop <= |found| && TakenUpTo(toInt, found, stop)
    ensures stop < |found| ==> !TakenUpTo(toInt, found, stop + 1)
    decreases |found| - n
  {
    stop := n;
    if n < |found| && TakenUpTo(toInt, found, n + 1) {
      stop := FirstError(toInt, found, n + 1);
    }
  }

  /** Collecting stops at the first parameter that repeats a name or is no number where a port must be one,
      and reports it; without one it returns all parameters. */
  lemma CollectingStopsAtTheFirstError(toInt: IntReader, found: seq<(string, string)>) returns (stop: nat)
    ensures EndedAt(toInt, found, stop, Collect(toInt, found, map[]))
  {
    stop := FirstError(toInt, found, 0);
    var args := TakenAreCollected(toInt, found, stop);
    if stop < |found| {
      RepeatedExactlyWhen(toInt, found, stop, args);
      EndsHere(toInt, found, stop, args);
    }
  }

  /** A found call is returned without an error exactly when its parameters have different names, every port
      is a number, and a body that opens a parameter yields at least one. */
  lemma NoErrorExactlyWhen(toInt: IntReader, text: string)
    requires Search(text).Some?
    ensures var (name, body) := Search(text).value;
      var found := Parameters(body);
      Parsed(toInt, text).Call? && Parsed(toInt, text).name == name
      && (Parsed(toInt, text).error.None? <==>
            TakenUpTo(toInt, found, |found|) && (found != [] || !Contains(body, PARAMETER)))
      && (Parsed(toInt, text).error.None? ==> Holds(toInt, found, |found|, Parsed(toInt, text).args))
  {
    var (name, body) := Search(text).value;
    var found := Parameters(body);
    var stop := CollectingStopsAtTheFirstError(toInt, found);
    if stop == |found| && found != [] {
      assert found[0].0 in Collect(toInt, found, map[]).0;
    }
  }
}

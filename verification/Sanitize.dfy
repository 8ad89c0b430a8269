/**
 The recursive redactor for JSON trees (agent/sanitize.go).
 */
module Sanitize {

  datatype Json =
    | JNull
    | JBool(b: bool)
    | JNumber(n: int)
    | JString(s: string)
    | JArray(items: seq<Json>)
    | JObject(fields: map<string, Json>)

  type JsonMap = map<string, Json>

  const REDACTED := JString("[REDACTED]")

  const MARKERS: seq<string> := [
    "password", "passwd", "token", "secret", "privatekey", "apikey",
    "authorization", "nsec", "credential", "signingkey", "encryptionkey"
  ]

  /** Rune-wise lower casing; U+0130 and U+212A are the two non-ASCII letters that become ASCII. */
  function LowerChar(c: char): (r: char)
    ensures r == '_' <==> c == '_'
  {
    if 'A' <= c <= 'Z' then c - 'A' + 'a'
    else if c == '\U{0130}' then 'i'
    else if c == '\U{212A}' then 'k'
    else c
  }

  function Lower(s: string): (r: string)
    ensures |r| == |s|
  {
    if s == "" then "" else [LowerChar(s[0])] + Lower(s[1..])
  }

  function UnderscoreChar(c: char): char {
    if c == '-' || c == '.' || c == ' ' then '_' else c
  }

  function Underscored(s: string): string {
    if s == "" then "" else [UnderscoreChar(s[0])] + Underscored(s[1..])
  }

  function NormalizeKey(key: string): string {
    Lower(Underscored(key))
  }

  function WithoutUnderscores(s: string): string {
    if s == "" then ""
    else if s[0] == '_' then WithoutUnderscores(s[1..])
    else [s[0]] + WithoutUnderscores(s[1..])
  }

  predicate HasSuffix(s: string, suffix: string) {
    |suffix| <= |s| && s[|s| - |suffix|..] == suffix
  }

  predicate ContainsAt(s: string, part: string, i: nat) {
    i + |part| <= |s| && s[i..i + |part|] == part
  }

  predicate Contains(s: string, part: string) {
    exists i: nat | i <= |s| :: ContainsAt(s, part, i)
  }

  predicate Marks(normalized: string, marker: string) {
    normalized == marker
    || HasSuffix(normalized, "_" + marker)
    || Contains(WithoutUnderscores(normalized), marker)
  }

  predicate IsSensitiveKey(key: string) {
    exists i | 0 <= i < |MARKERS| :: Marks(NormalizeKey(key), MARKERS[i])
  }

  // ---------- the verdict depends only on the letters of the key ----------

  /** The key in lower case with every "-", ".", " " and "_" taken out. */
  function Letters(key: string): string {
    if key == "" then ""
    else if key[0] in "-. _" then Letters(key[1..])
    else [LowerChar(key[0])] + Letters(key[1..])
  }

  lemma {:induction false} CompactIsLetters(key: string)
    ensures WithoutUnderscores(NormalizeKey(key)) == Letters(key)
  {
    if key != "" {
      CompactIsLetters(key[1..]);
      var u := Underscored(key);
      assert u[1..] == Underscored(key[1..]);
      assert NormalizeKey(key) == [LowerChar(UnderscoreChar(key[0]))] + NormalizeKey(key[1..]);
      assert NormalizeKey(key)[1..] == NormalizeKey(key[1..]);
    }
  }

  lemma {:induction false} WithoutUnderscoresAppend(a: string, b: string)
    ensures WithoutUnderscores(a + b) == WithoutUnderscores(a) + WithoutUnderscores(b)
  {
    if a == "" {
      assert a + b == b;
    } else {
      assert (a + b)[1..] == a[1..] + b;
      WithoutUnderscoresAppend(a[1..], b);
    }
  }

  lemma {:induction false} NothingToRemove(s: string)
    requires '_' !in s
    ensures WithoutUnderscores(s) == s
  {
    if s != "" {
      NothingToRemove(s[1..]);
    }
  }

  lemma MarkersHaveNoUnderscore(i: nat)
    requires i < |MARKERS|
    ensures '_' !in MARKERS[i]
  {
    assert '_' !in "password" && '_' !in "passwd" && '_' !in "token" && '_' !in "secret";
    assert '_' !in "privatekey" && '_' !in "apikey" && '_' !in "authorization" && '_' !in "nsec";
    assert '_' !in "credential" && '_' !in "signingkey" && '_' !in "encryptionkey";
  }

  /** The equality and suffix tests add nothing to the containment test. */
  lemma MarksIsContainment(normalized: string, marker: string)
    requires '_' !in marker
    ensures Marks(normalized, marker) <==> Contains(WithoutUnderscores(normalized), marker)
  {
    var compact := WithoutUnderscores(normalized);
    NothingToRemove(marker);
    if normalized == marker {
      assert ContainsAt(compact, marker, 0);
    } else if HasSuffix(normalized, "_" + marker) {
      var n := |normalized| - |marker|;
      assert normalized[n - 1..][1..] == marker;
      assert normalized == normalized[..n] + marker;
      WithoutUnderscoresAppend(normalized[..n], marker);
      assert ContainsAt(compact, marker, |compact| - |marker|);
    }
  }

  /** A key is sensitive exactly when its bare letters contain a marker. */
  lemma SensitiveIsMarkerContainment(key: string)
    ensures IsSensitiveKey(key) <==> exists i | 0 <= i < |MARKERS| :: Contains(Letters(key), MARKERS[i])
  {
    CompactIsLetters(key);
    forall i | 0 <= i < |MARKERS|
      ensures Marks(NormalizeKey(key), MARKERS[i]) <==> Contains(Letters(key), MARKERS[i])
    {
      MarkersHaveNoUnderscore(i);
      MarksIsContainment(NormalizeKey(key), MARKERS[i]);
    }
  }

  /** Separators and letter case never change the verdict. */
  lemma SeparatorsAndCaseAreIrrelevant(a: string, b: string)
    requires Letters(a) == Letters(b)
    ensures IsSensitiveKey(a) <==> IsSensitiveKey(b)
  {
    SensitiveIsMarkerContainment(a);
    SensitiveIsMarkerContainment(b);
  }

  // ---------- the recursive redaction ----------

  /** Normalised names an operation declares sensitive on top of the markers. */
  function NormalizedSet(extra: seq<string>): set<string> {
    set i | 0 <= i < |extra| :: NormalizeKey(extra[i])
  }

  predicate Hidden(key: string, sensitive: set<string>) {
    IsSensitiveKey(key) || NormalizeKey(key) in sensitive
  }

  function Sanitized(value: Json, sensitive: set<string>): Json
    decreases value, 1
  {
    match value
    case JObject(fields) => JObject(SanitizedFields(fields, value, sensitive))
    case JArray(items) => JArray(seq(|items|, i requires 0 <= i < |items| => Sanitized(items[i], sensitive)))
    case _ => value
  }

  function SanitizedFields(fields: JsonMap, ghost whole: Json, sensitive: set<string>): JsonMap
    requires whole == JObject(fields)
    decreases whole, 0
  {
    map key | key in fields :: if Hidden(key, sensitive) then REDACTED else Sanitized(fields[key], sensitive)
  }

  function SanitizeMapSpec(input: JsonMap, extra: seq<string>): JsonMap {
    SanitizedFields(input, JObject(input), NormalizedSet(extra))
  }

  method SanitizeMap(input: JsonMap, extra: seq<string>) returns (output: JsonMap)
    ensures output == SanitizeMapSpec(input, extra)
  {
    var sensitive: set<string> := {};
    for n := 0 to |extra|
      invariant sensitive == NormalizedSet(extra[..n])
    {
      assert extra[..n + 1] == extra[..n] + [extra[n]];
      assert NormalizedSet(extra[..n + 1]) == NormalizedSet(extra[..n]) + {NormalizeKey(extra[n])} by {
        forall k | k in NormalizedSet(extra[..n]) + {NormalizeKey(extra[n])}
          ensures k in NormalizedSet(extra[..n + 1])
        {
          if k == NormalizeKey(extra[n]) {
            assert extra[..n + 1][n] == extra[n];
          } else {
            var i :| 0 <= i < n && NormalizeKey(extra[..n][i]) == k;
            assert extra[..n + 1][i] == extra[..n][i];
          }
        }
      }
      sensitive := sensitive + {NormalizeKey(extra[n])};
    }
    assert extra[..|extra|] == extra;
    output := SanitizeFields(input, JObject(input), sensitive);
  }

  method SanitizeFields(fields: JsonMap, ghost whole: Json, sensitive: set<string>) returns (output: JsonMap)
    requires whole == JObject(fields)
    ensures output == SanitizedFields(fields, whole, sensitive)
    decreases whole, 0
  {
    output := map[];
    var rest := fields.Keys;
    while rest != {}
      invariant rest <= fields.Keys
      invariant output.Keys == fields.Keys - rest
      invariant forall key :: key in output ==> output[key] == SanitizedFields(fields, whole, sensitive)[key]
      decreases rest
    {
      var key :| key in rest;
      if Hidden(key, sensitive) {
        output := output[key := REDACTED];
      } else {
        var nested := SanitizeValue(fields[key], sensitive);
        output := output[key := nested];
      }
      rest := rest - {key};
    }
  }

  method SanitizeValue(value: Json, sensitive: set<string>) returns (output: Json)
    ensures output == Sanitized(value, sensitive)
    decreases value, 1
  {
    match value
    case JObject(fields) =>
      var copy := SanitizeFields(fields, value, sensitive);
      output := JObject(copy);
    case JArray(items) =>
      var copy := [];
      for i := 0 to |items|
        invariant |copy| == i
        invariant forall j :: 0 <= j < i ==> copy[j] == Sanitized(items[j], sensitive)
      {
        var nested := SanitizeValue(items[i], sensitive);
        copy := copy + [nested];
      }
      output := JArray(copy);
    case _ =>
      output := value;
  }

  /** Two trees that differ only in what stands below hidden keys. */
  ghost predicate SamePublicPart(a: Json, b: Json, sensitive: set<string>)
    decreases a
  {
    match (a, b)
    case (JObject(f), JObject(g)) =>
      f.Keys == g.Keys
      && forall key | key in f && !Hidden(key, sensitive) :: SamePublicPart(f[key], g[key], sensitive)
    case (JArray(x), JArray(y)) =>
      |x| == |y| && forall i | 0 <= i < |x| :: SamePublicPart(x[i], y[i], sensitive)
    case _ => a == b
  }

  /** The output reveals the public part and nothing else: equal outputs exactly for equal public parts. */
  lemma {:induction false} OutputIsThePublicPart(a: Json, b: Json, sensitive: set<string>)
    ensures Sanitized(a, sensitive) == Sanitized(b, sensitive) <==> SamePublicPart(a, b, sensitive)
    decreases a
  {
    match (a, b)
    case (JObject(f), JObject(g)) =>
      var sf, sg := SanitizedFields(f, a, sensitive), SanitizedFields(g, b, sensitive);
      assert sf.Keys == f.Keys && sg.Keys == g.Keys;
      forall key | key in f && key in g && !Hidden(key, sensitive)
        ensures sf[key] == sg[key] <==> SamePublicPart(f[key], g[key], sensitive)
      {
        OutputIsThePublicPart(f[key], g[key], sensitive);
      }
      if SamePublicPart(a, b, sensitive) {
        assert sf == sg;
      }
    case (JArray(x), JArray(y)) =>
      var sx, sy := Sanitized(a, sensitive).items, Sanitized(b, sensitive).items;
      forall i | 0 <= i < |x| && i < |y|
        ensures sx[i] == sy[i] <==> SamePublicPart(x[i], y[i], sensitive)
      {
        OutputIsThePublicPart(x[i], y[i], sensitive);
      }
      if SamePublicPart(a, b, sensitive) {
        assert sx == sy;
      }
    case _ =>
  }

  /** A second pass with fewer hidden names (the journal's, say) leaves the first pass as it is. */
  lemma {:induction false} SecondPassChangesNothing(value: Json, first: set<string>, second: set<string>)
    requires second <= first
    ensures Sanitized(Sanitized(value, first), second) == Sanitized(value, first)
    decreases value
  {
    match value
    case JObject(fields) =>
      var once := SanitizedFields(fields, value, first);
      var twice := SanitizedFields(once, JObject(once), second);
      forall key | key in once
        ensures twice[key] == once[key]
      {
        assert once[key] == if Hidden(key, first) then REDACTED else Sanitized(fields[key], first);
        assert twice[key] == if Hidden(key, second) then REDACTED else Sanitized(once[key], second);
        assert Sanitized(REDACTED, second) == REDACTED;
        if !Hidden(key, first) {
          SecondPassChangesNothing(fields[key], first, second);
        }
      }
      assert twice == once;
    case JArray(items) =>
      var once := Sanitized(value, first);
      forall i | 0 <= i < |items|
        ensures Sanitized(once.items[i], second) == once.items[i]
      {
        SecondPassChangesNothing(items[i], first, second);
      }
      assert Sanitized(once, second).items == once.items;
    case _ =>
  }

  lemma SecondMapPassChangesNothing(input: JsonMap, extra: seq<string>)
    ensures SanitizeMapSpec(SanitizeMapSpec(input, extra), []) == SanitizeMapSpec(input, extra)
  {
    SecondPassChangesNothing(JObject(input), NormalizedSet(extra), NormalizedSet([]));
  }

  lemma SanitizingIsIdempotent(input: JsonMap, extra: seq<string>)
    ensures SanitizeMapSpec(SanitizeMapSpec(input, extra), extra) == SanitizeMapSpec(input, extra)
  {
    SecondPassChangesNothing(JObject(input), NormalizedSet(extra), NormalizedSet(extra));
  }

  // ---------- which values are hidden ----------

  predicate Separator(c: char) {
    c in "-. _"
  }

  predicate SameChar(x: char, y: char) {
    LowerChar(x) == LowerChar(y) || (Separator(x) && Separator(y))
  }

  /** The same name up to letter case and the choice of separators. */
  predicate SameName(a: string, b: string) {
    |a| == |b| && forall i | 0 <= i < |a| :: SameChar(a[i], b[i])
  }

  lemma SameCharIsSameNormalForm(x: char, y: char)
    ensures LowerChar(UnderscoreChar(x)) == LowerChar(UnderscoreChar(y)) <==> SameChar(x, y)
  {
  }

  lemma SameNameCons(a: string, b: string)
    requires a != "" && b != ""
    ensures SameName(a, b) <==> SameChar(a[0], b[0]) && SameName(a[1..], b[1..])
  {
    if SameChar(a[0], b[0]) && SameName(a[1..], b[1..]) {
      forall i | 0 <= i < |a| ensures SameChar(a[i], b[i]) {
        if i > 0 { assert SameChar(a[1..][i - 1], b[1..][i - 1]); }
      }
    }
  }

  lemma {:induction false} SameNameIsSameNormalForm(a: string, b: string)
    ensures NormalizeKey(a) == NormalizeKey(b) <==> SameName(a, b)
  {
    LengthKept(a);
    LengthKept(b);
    if a != "" && b != "" {
      NormalFormCons(a);
      NormalFormCons(b);
      SameCharIsSameNormalForm(a[0], b[0]);
      SameNameIsSameNormalForm(a[1..], b[1..]);
      SameNameCons(a, b);
      assert NormalizeKey(a)[1..] == NormalizeKey(a[1..]) && NormalizeKey(b)[1..] == NormalizeKey(b[1..]);
    }
  }

  lemma NormalFormCons(a: string)
    requires a != ""
    ensures NormalizeKey(a) == [LowerChar(UnderscoreChar(a[0]))] + NormalizeKey(a[1..])
  {
    assert Underscored(a)[1..] == Underscored(a[1..]);
  }

  lemma {:induction false} LengthKept(a: string)
    ensures |NormalizeKey(a)| == |a|
  {
    if a != "" {
      LengthKept(a[1..]);
      NormalFormCons(a);
    }
  }

  /** A key whose bare letters contain a marker, or that is one of the names an operation declares. */
  predicate MustHide(key: string, declared: seq<string>) {
    (exists i | 0 <= i < |MARKERS| :: Contains(Letters(key), MARKERS[i]))
    || exists i | 0 <= i < |declared| :: SameName(key, declared[i])
  }

  lemma HiddenExactlyWhen(key: string, declared: seq<string>)
    ensures Hidden(key, NormalizedSet(declared)) <==> MustHide(key, declared)
  {
    SensitiveIsMarkerContainment(key);
    forall i | 0 <= i < |declared|
      ensures NormalizeKey(key) == NormalizeKey(declared[i]) <==> SameName(key, declared[i])
    {
      SameNameIsSameNormalForm(key, declared[i]);
    }
  }

  /** The copy differs from the tree exactly in this: below every key that must be hidden, at any depth,
      stands the one replacement. */
  ghost predicate RedactedCopy(value: Json, copy: Json, declared: seq<string>)
    decreases value
  {
    match (value, copy)
    case (JObject(f), JObject(g)) =>
      f.Keys == g.Keys
      && forall key | key in f ::
           if MustHide(key, declared) then g[key] == REDACTED else RedactedCopy(f[key], g[key], declared)
    case (JArray(x), JArray(y)) =>
      |x| == |y| && forall i | 0 <= i < |x| :: RedactedCopy(x[i], y[i], declared)
    case _ => value == copy
  }

  lemma {:induction false} SanitizedIsRedactedCopy(value: Json, declared: seq<string>)
    ensures RedactedCopy(value, Sanitized(value, NormalizedSet(declared)), declared)
    decreases value
  {
    var sensitive := NormalizedSet(declared);
    match value
    case JObject(fields) =>
      var copy := SanitizedFields(fields, value, sensitive);
      forall key | key in fields
        ensures if MustHide(key, declared) then copy[key] == REDACTED
                else RedactedCopy(fields[key], copy[key], declared)
      {
        HiddenExactlyWhen(key, declared);
        SanitizedIsRedactedCopy(fields[key], declared);
      }
    case JArray(items) =>
      var copy := Sanitized(value, sensitive);
      forall i | 0 <= i < |items| ensures RedactedCopy(items[i], copy.items[i], declared) {
        SanitizedIsRedactedCopy(items[i], declared);
      }
    case _ =>
  }

  /** What the redactor returns is the redacted copy. */
  lemma SanitizedMapIsRedactedCopy(input: JsonMap, declared: seq<string>)
    ensures RedactedCopy(JObject(input), JObject(SanitizeMapSpec(input, declared)), declared)
  {
    SanitizedIsRedactedCopy(JObject(input), declared);
  }

  /** No value of the tree stands below a key that must be hidden. */
  ghost predicate NothingToHide(value: Json, declared: seq<string>) {
    match value
    case JObject(fields) =>
      forall key | key in fields ::
        if MustHide(key, declared) then fields[key] == REDACTED else NothingToHide(fields[key], declared)
    case JArray(items) => forall i | 0 <= i < |items| :: NothingToHide(items[i], declared)
    case _ => true
  }

  lemma {:induction false} RedactedCopyHidesAll(value: Json, copy: Json, declared: seq<string>)
    requires RedactedCopy(value, copy, declared)
    ensures NothingToHide(copy, declared)
    ensures NothingToHide(value, declared) ==> copy == value
    decreases value
  {
    match (value, copy)
    case (JObject(f), JObject(g)) =>
      forall key | key in g && !MustHide(key, declared)
        ensures NothingToHide(g[key], declared) && (NothingToHide(f[key], declared) ==> g[key] == f[key])
      {
        RedactedCopyHidesAll(f[key], g[key], declared);
      }
      if NothingToHide(value, declared) {
        assert g == f;
      }
    case (JArray(x), JArray(y)) =>
      forall i | 0 <= i < |x|
        ensures NothingToHide(y[i], declared) && (NothingToHide(x[i], declared) ==> y[i] == x[i])
      {
        RedactedCopyHidesAll(x[i], y[i], declared);
      }
      if NothingToHide(value, declared) {
        assert y == x;
      }
    case _ =>
  }
}

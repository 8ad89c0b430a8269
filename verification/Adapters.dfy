/**
 The executor behind every operation (agent/nostr_executor.go). A signed request leaves the process
 only through Execute, which looks at the registry and the arguments once more before it publishes.
 */
module NostrExecutor {
  import opened Wrappers
  import opened Sanitize
  import opened Policy

  datatype Publication = Publication(operation: string, args: Args)

  datatype OperationResult =
    OperationResult(requestID: string, author: string, ok: bool, result: JsonMap, catalogDigest: string)

  /** What the relay transport answers: the request id, then the correlated result; None is an error. */
  datatype TransportAnswer = TransportAnswer(request: Option<string>, reply: Option<OperationResult>)

  datatype Executor = Executor(hasTransport: bool, serverKey: string, registry: Registry, contractDigest: string)

  /** The requests that left the process, oldest first. */
  class Transport {
    var published: seq<Publication>

    constructor ()
      ensures published == []
    {
      published := [];
    }
  }

  predicate HexDigit(c: char) {
    '0' <= c <= '9' || 'a' <= c <= 'f' || 'A' <= c <= 'F'
  }

  predicate ValidHex64(s: string) {
    |s| == 64 && forall i | 0 <= i < |s| :: HexDigit(s[i])
  }

  /** Case-insensitive comparison with a hexadecimal string. */
  predicate EqualFold(s: string, hex: string) {
    Lower(s) == Lower(hex)
  }

  predicate UsesAuthoritativeApprovalChain(e: Executor) {
    e.hasTransport && ValidHex64(e.serverKey)
  }

  predicate MayPublish(e: Executor, name: string, args: Args) {
    e.hasTransport && ValidHex64(e.serverKey) && name in e.registry && e.registry[name].ValidArgs(args)
  }

  function Publishes(e: Executor, spec: OperationSpec, args: Args): seq<Publication> {
    if MayPublish(e, spec.name, args) then [Publication(e.registry[spec.name].name, args)] else []
  }

  /** A reply the executor believes: correlated, from the configured server, under the same contract. */
  predicate Trusted(e: Executor, id: string, reply: OperationResult) {
    ValidHex64(id) && EqualFold(reply.requestID, id) && EqualFold(reply.author, e.serverKey)
    && reply.catalogDigest == e.contractDigest && reply.ok
  }

  function ResultOf(e: Executor, spec: OperationSpec, args: Args, answer: TransportAnswer): Option<JsonMap> {
    if MayPublish(e, spec.name, args) && answer.request.Some? && answer.reply.Some?
       && Trusted(e, answer.request.value, answer.reply.value)
    then Some(answer.reply.value.result)
    else None
  }

  method NewControlPlaneExecutor(transportReady: bool, serverKey: string, registry: Registry, digest: string)
    returns (e: Option<Executor>)
    ensures e.Some? <==> transportReady && RegistryValid(registry)
    ensures e.Some? ==> e.value == Executor(true, serverKey, registry, digest)
  {
    if !transportReady || !RegistryValid(registry) {
      return None;
    }
    var registered: Registry := map[];
    var rest := registry.Keys;
    while rest != {}
      invariant rest <= registry.Keys
      invariant registered.Keys == registry.Keys - rest
      invariant forall name | name in registered :: registered[name] == registry[name]
      decreases |rest|
    {
      var name :| name in rest;
      registered := registered[name := registry[name]];
      rest := rest - {name};
    }
    assert registered == registry;
    e := Some(Executor(true, serverKey, registered, digest));
  }

  method Execute(t: Transport, e: Executor, spec: OperationSpec, args: Args, answer: TransportAnswer)
    returns (result: Option<JsonMap>)
    modifies t
    ensures t.published == old(t.published) + Publishes(e, spec, args)
    ensures result == ResultOf(e, spec, args, answer)
  {
    if !e.hasTransport || !ValidHex64(e.serverKey) {
      return None;
    }
    if spec.name !in e.registry {
      return None;
    }
    var registered := e.registry[spec.name];
    if !registered.ValidArgs(args) {
      return None;
    }
    t.published := t.published + [Publication(registered.name, args)];
    if answer.request.None? || !ValidHex64(answer.request.value) || answer.reply.None? {
      return None;
    }
    var reply := answer.reply.value;
    if !EqualFold(reply.requestID, answer.request.value) || !EqualFold(reply.author, e.serverKey) {
      return None;
    }
    if reply.catalogDigest != e.contractDigest || !reply.ok {
      return None;
    }
    result := Some(reply.result);
  }

  /** With a validated registry, what is published goes under the name it is registered by, with
      arguments its schema accepts; and a result comes only out of a published request. */
  lemma PublishedIsRegistered(e: Executor, spec: OperationSpec, args: Args, p: Publication, answer: TransportAnswer)
    requires RegistryValid(e.registry)
    ensures p in Publishes(e, spec, args) <==>
      p == Publication(spec.name, args) && spec.name in e.registry && e.registry[spec.name].ValidArgs(args)
      && UsesAuthoritativeApprovalChain(e)
    ensures ResultOf(e, spec, args, answer).Some? ==> |Publishes(e, spec, args)| == 1
  {
    if spec.name in e.registry {
      assert SpecValid(spec.name, e.registry[spec.name]);
    }
  }

  predicate Hex(s: string) {
    |s| == 64 && forall i | 0 <= i < |s| :: '0' <= s[i] <= '9' || 'a' <= s[i] <= 'f' || 'A' <= s[i] <= 'F'
  }

  /** A result comes back exactly for a published request, answered under its id, by the configured server,
      with success, under the executor's own contract; and it is the result of that answer. */
  lemma ResultExactlyWhen(e: Executor, spec: OperationSpec, args: Args, answer: TransportAnswer, result: JsonMap)
    ensures ResultOf(e, spec, args, answer) == Some(result) <==>
      e.hasTransport && Hex(e.serverKey) && spec.name in e.registry && e.registry[spec.name].ValidArgs(args)
      && answer.request.Some? && Hex(answer.request.value)
      && answer.reply.Some? && answer.reply.value.ok && answer.reply.value.result == result
      && Lower(answer.reply.value.requestID) == Lower(answer.request.value)
      && Lower(answer.reply.value.author) == Lower(e.serverKey)
      && answer.reply.value.catalogDigest == e.contractDigest
  {
    assert ValidHex64(e.serverKey) <==> Hex(e.serverKey);
    assert answer.request.Some? ==> (ValidHex64(answer.request.value) <==> Hex(answer.request.value));
  }
}

/**
 Read-only observation queries (agent/nostr_observer.go).
 */
module NostrObserver {
  import opened Wrappers
  import opened Sanitize
  import opened Lists
  import opened Policy
  import opened NostrExecutor

  datatype ObservationQuery = ObservationQuery(operation: string, args: Args, targetArg: string)

  const OBSERVATION_TARGET := JString("observation-target")

  /** A copy of configured arguments: nil becomes the empty object, oversized ones are refused. */
  function CloneJSONMap(size: Args -> nat, args: Args): Option<JsonMap> {
    match args
    case None => Some(map[])
    case Some(m) => if size(args) <= MAX_OPERATION_ARGS_BYTES then Some(m) else None
  }

  function Prepared(size: Args -> nat, q: ObservationQuery): JsonMap
    requires CloneJSONMap(size, q.args).Some?
  {
    var args := CloneJSONMap(size, q.args).value;
    if q.targetArg == "" then args else args[q.targetArg := OBSERVATION_TARGET]
  }

  /** A query the constructor takes: a registered plain read, its target argument free, its arguments
      acceptable with a placeholder target. */
  predicate QueryFits(registry: Registry, size: Args -> nat, q: ObservationQuery) {
    q.operation in registry && registry[q.operation].PlainRead()
    && CloneJSONMap(size, q.args).Some?
    && (q.targetArg != "" ==> q.targetArg !in CloneJSONMap(size, q.args).value)
    && registry[q.operation].ValidArgs(Some(Prepared(size, q)))
  }

  ghost predicate OperationsDistinct(queries: seq<ObservationQuery>) {
    forall i, j | 0 <= i < j < |queries| :: queries[i].operation != queries[j].operation
  }

  ghost predicate AllFit(registry: Registry, size: Args -> nat, queries: seq<ObservationQuery>) {
    OperationsDistinct(queries) && forall i | 0 <= i < |queries| :: QueryFits(registry, size, queries[i])
  }

  /** The queries as the observer keeps them: each with its own prepared arguments. */
  ghost predicate Configured(size: Args -> nat, queries: seq<ObservationQuery>, kept: seq<ObservationQuery>) {
    |kept| == |queries|
    && forall i | 0 <= i < |queries| ::
         CloneJSONMap(size, queries[i].args).Some? && kept[i] == queries[i].(args := Some(Prepared(size, queries[i])))
  }

  /** One query against the registry: the query to keep, or None. */
  method CheckQuery(registry: Registry, query: ObservationQuery, seen: set<string>, size: Args -> nat)
    returns (kept: Option<ObservationQuery>)
    ensures kept.Some? <==> QueryFits(registry, size, query) && query.operation !in seen
    ensures kept.Some? ==> kept.value == query.(args := Some(Prepared(size, query)))
  {
    if query.operation !in registry || !registry[query.operation].PlainRead() || query.operation in seen {
      return None;
    }
    var clone := CloneJSONMap(size, query.args);
    if clone.None? {
      return None;
    }
    var args := clone.value;
    if query.targetArg != "" {
      if query.targetArg in args {
        return None;
      }
      args := args[query.targetArg := OBSERVATION_TARGET];
    }
    if !registry[query.operation].ValidArgs(Some(args)) {
      return None;
    }
    kept := Some(query.(args := Some(args)));
  }

  lemma AllFitNext(registry: Registry, size: Args -> nat, queries: seq<ObservationQuery>, i: nat, seen: set<string>)
    requires i < |queries| && AllFit(registry, size, queries[..i])
    requires forall op :: op in seen <==> exists j | 0 <= j < i :: queries[j].operation == op
    ensures QueryFits(registry, size, queries[i]) && queries[i].operation !in seen ==>
      AllFit(registry, size, queries[..i + 1])
    ensures !QueryFits(registry, size, queries[i]) || queries[i].operation in seen ==> !AllFit(registry, size, queries)
  {
    assert queries[..i + 1] == queries[..i] + [queries[i]];
  }

  method NewObserver(registry: Registry, queries: seq<ObservationQuery>, size: Args -> nat)
    returns (configured: Option<seq<ObservationQuery>>)
    ensures configured.Some? <==> RegistryValid(registry) && queries != [] && AllFit(registry, size, queries)
    ensures configured.Some? ==> Configured(size, queries, configured.value)
  {
    if !RegistryValid(registry) || queries == [] {
      return None;
    }
    var seen: set<string> := {};
    var list: seq<ObservationQuery> := [];
    for i := 0 to |queries|
      invariant AllFit(registry, size, queries[..i])
      invariant forall op :: op in seen <==> exists j | 0 <= j < i :: queries[j].operation == op
      invariant Configured(size, queries[..i], list)
    {
      AllFitNext(registry, size, queries, i, seen);
      var kept := CheckQuery(registry, queries[i], seen, size);
      if kept.None? {
        return None;
      }
      seen := seen + {queries[i].operation};
      assert queries[..i + 1] == queries[..i] + [queries[i]];
      list := list + [kept.value];
    }
    assert queries[..|queries|] == queries;
    configured := Some(list);
  }

  // ---------- one observation ----------

  /** How one query goes: the context may end before it or while it runs. */
  datatype QueryAnswer = QueryAnswer(cancelledBefore: bool, cancelledDuring: bool, transport: TransportAnswer)

  /** An observer as the constructor leaves it. */
  datatype Observer = Observer(registry: Registry, queries: seq<ObservationQuery>) {
    ghost predicate Valid() {
      RegistryValid(registry) && OperationsDistinct(queries)
      && forall i | 0 <= i < |queries| ::
           queries[i].operation in registry && registry[queries[i].operation].PlainRead() && queries[i].args.Some?
    }
  }

  function QueryArgs(q: ObservationQuery, target: string): Args
    requires q.args.Some?
  {
    Some(if q.targetArg == "" then q.args.value else q.args.value[q.targetArg := JString(target)])
  }

  function Refusal(reason: string): Json {
    JObject(map["ok" := JBool(false), "error" := JString(reason)])
  }

  /** The entry of one operation in the observation map. */
  function Entry(e: Executor, spec: OperationSpec, args: Args, answer: TransportAnswer): Json {
    if !spec.ValidArgs(args) then Refusal("invalid_observation_arguments")
    else
      match ResultOf(e, spec, args, answer)
      case None => Refusal("read_failed")
      case Some(data) => JObject(map["ok" := JBool(true), "data" := JObject(data)])
  }

  /** The context has ended when query i is reached, or ends while its read fails. */
  ghost predicate EndsAt(e: Executor, o: Observer, target: string, answers: nat -> QueryAnswer, i: nat)
    requires o.Valid() && i < |o.queries|
  {
    var spec, args := o.registry[o.queries[i].operation], QueryArgs(o.queries[i], target);
    answers(i).cancelledBefore
    || (spec.ValidArgs(args) && ResultOf(e, spec, args, answers(i).transport).None? && answers(i).cancelledDuring)
  }

  /** No query before n met the end of the context. */
  ghost predicate RunsUpTo(e: Executor, o: Observer, target: string, answers: nat -> QueryAnswer, n: nat)
    requires o.Valid() && n <= |o.queries|
  {
    forall k | 0 <= k < n :: !EndsAt(e, o, target, answers, k)
  }

  /** The requests the queries from i on publish. */
  ghost function QueriesPublish(e: Executor, o: Observer, target: string, answers: nat -> QueryAnswer,
                                i: nat): seq<Publication>
    requires o.Valid() && i <= |o.queries|
    decreases |o.queries| - i
  {
    if i == |o.queries| || answers(i).cancelledBefore then []
    else
      var spec, args := o.registry[o.queries[i].operation], QueryArgs(o.queries[i], target);
      if !spec.ValidArgs(args) then QueriesPublish(e, o, target, answers, i + 1)
      else Publishes(e, spec, args)
           + if ResultOf(e, spec, args, answers(i).transport).None? && answers(i).cancelledDuring then []
             else QueriesPublish(e, o, target, answers, i + 1)
  }

  /** The entries of the first n queries, and nothing else. */
  ghost predicate Reports(e: Executor, o: Observer, target: string, answers: nat -> QueryAnswer, n: nat,
                          observations: JsonMap)
    requires o.Valid() && n <= |o.queries|
  {
    observations.Keys == (set i | 0 <= i < n :: o.queries[i].operation)
    && forall i | 0 <= i < n ::
         observations[o.queries[i].operation]
         == Entry(e, o.registry[o.queries[i].operation], QueryArgs(o.queries[i], target), answers(i).transport)
  }

  lemma ReportsNext(e: Executor, o: Observer, target: string, answers: nat -> QueryAnswer, n: nat,
                    observations: JsonMap)
    requires o.Valid() && n < |o.queries| && Reports(e, o, target, answers, n, observations)
    ensures var q := o.queries[n];
      Reports(e, o, target, answers, n + 1,
        observations[q.operation := Entry(e, o.registry[q.operation], QueryArgs(q, target), answers(n).transport)])
  {
  }

  /** One query: its entry, or the sign that the context ended while it ran. */
  method RunQuery(t: Transport, e: Executor, o: Observer, i: nat, target: string, answers: nat -> QueryAnswer)
    returns (entry: Json, stop: bool)
    requires o.Valid() && i < |o.queries| && !answers(i).cancelledBefore
    modifies t
    ensures t.published + (if stop then [] else QueriesPublish(e, o, target, answers, i + 1))
         == old(t.published) + QueriesPublish(e, o, target, answers, i)
    ensures stop <==> EndsAt(e, o, target, answers, i)
    ensures !stop ==>
      entry == Entry(e, o.registry[o.queries[i].operation], QueryArgs(o.queries[i], target), answers(i).transport)
  {
    var query := o.queries[i];
    var args := query.args.value;
    if query.targetArg != "" {
      args := args[query.targetArg := JString(target)];
    }
    var spec := o.registry[query.operation];
    if !spec.ValidArgs(Some(args)) {
      return Refusal("invalid_observation_arguments"), false;
    }
    ghost var before := t.published;
    var result := Execute(t, e, spec, Some(args), answers(i).transport);
    stop := result.None? && answers(i).cancelledDuring;
    ghost var later := if stop then [] else QueriesPublish(e, o, target, answers, i + 1);
    AppendAssociates(before, Publishes(e, spec, Some(args)), later);
    if result.None? {
      return Refusal("read_failed"), stop;
    }
    entry := JObject(map["ok" := JBool(true), "data" := JObject(result.value)]);
  }

  /** Observe: one entry per query, in the order of the queries, until the context ends. It fails exactly
      when there is nothing to ask or some query meets that end; the entries up to there are returned. */
  method Observe(t: Transport, e: Executor, o: Observer, target: string, answers: nat -> QueryAnswer)
    returns (observations: JsonMap, failed: bool)
    requires o.Valid()
    modifies t
    ensures t.published == old(t.published) + QueriesPublish(e, o, target, answers, 0)
    ensures !failed <==> o.queries != [] && RunsUpTo(e, o, target, answers, |o.queries|)
    ensures !failed ==> Reports(e, o, target, answers, |o.queries|, observations)
    ensures o.queries == [] ==> observations == map[]
    ensures failed && o.queries != [] ==>
      exists n | 0 <= n < |o.queries| ::
        RunsUpTo(e, o, target, answers, n) && EndsAt(e, o, target, answers, n)
        && Reports(e, o, target, answers, n, observations)
  {
    observations := map[];
    if o.queries == [] {
      return observations, true;
    }
    for i := 0 to |o.queries|
      invariant t.published + QueriesPublish(e, o, target, answers, i)
             == old(t.published) + QueriesPublish(e, o, target, answers, 0)
      invariant RunsUpTo(e, o, target, answers, i)
      invariant Reports(e, o, target, answers, i, observations)
    {
      if answers(i).cancelledBefore {
        assert EndsAt(e, o, target, answers, i);
        return observations, true;
      }
      var entry, stop := RunQuery(t, e, o, i, target, answers);
      if stop {
        return observations, true;
      }
      ReportsNext(e, o, target, answers, i, observations);
      observations := observations[o.queries[i].operation := entry];
    }
    failed := false;
  }

  /** Observing publishes plain reads of the configured queries and nothing else. */
  lemma {:induction false} ObservationsAreReads(e: Executor, o: Observer, target: string, answers: nat -> QueryAnswer,
                                                i: nat, p: Publication)
    requires o.Valid() && i <= |o.queries| && e.registry == o.registry
    requires p in QueriesPublish(e, o, target, answers, i)
    ensures exists k | i <= k < |o.queries| ::
      p.operation == o.queries[k].operation && p.args == QueryArgs(o.queries[k], target)
    ensures p.operation in o.registry && o.registry[p.operation].PlainRead()
      && o.registry[p.operation].ValidArgs(p.args)
    decreases |o.queries| - i
  {
    var spec, args := o.registry[o.queries[i].operation], QueryArgs(o.queries[i], target);
    assert SpecValid(o.queries[i].operation, spec);
    if spec.ValidArgs(args) && p in Publishes(e, spec, args) {
      assert p.operation == o.queries[i].operation;
    } else {
      ObservationsAreReads(e, o, target, answers, i + 1, p);
    }
  }

  /** What a configured query asks for: its own arguments, and under its target argument the cycle's
      target in the place of the placeholder. */
  lemma TargetReplacesPlaceholder(size: Args -> nat, q: ObservationQuery, target: string)
    requires CloneJSONMap(size, q.args).Some?
    ensures var given := if q.args.Some? then q.args.value else map[];
      var asked := QueryArgs(q.(args := Some(Prepared(size, q))), target);
      asked.Some?
      && asked.value.Keys == given.Keys + (if q.targetArg == "" then {} else {q.targetArg})
      && (q.targetArg != "" ==> asked.value[q.targetArg] == JString(target))
      && forall k | k in given && k != q.targetArg :: asked.value[k] == given[k]
  {
    assert q.targetArg == "" && q.targetArg in Prepared(size, q) ==>
      QueryArgs(q.(args := Some(Prepared(size, q))), target).value[q.targetArg] == Prepared(size, q)[q.targetArg];
  }

  /** Every query reached with the context alive and acceptable arguments is published. */
  lemma {:induction false} QueriesArePublished(e: Executor, o: Observer, target: string, answers: nat -> QueryAnswer,
                                               i: nat, k: nat)
    requires o.Valid() && e.registry == o.registry && UsesAuthoritativeApprovalChain(e)
    requires i <= k < |o.queries| && RunsUpTo(e, o, target, answers, k) && !answers(k).cancelledBefore
    requires o.registry[o.queries[k].operation].ValidArgs(QueryArgs(o.queries[k], target))
    ensures Publication(o.queries[k].operation, QueryArgs(o.queries[k], target))
      in QueriesPublish(e, o, target, answers, i)
    decreases k - i
  {
    var spec, args := o.registry[o.queries[i].operation], QueryArgs(o.queries[i], target);
    assert SpecValid(o.queries[i].operation, spec);
    if i < k {
      assert !EndsAt(e, o, target, answers, i);
      QueriesArePublished(e, o, target, answers, i + 1, k);
    }
  }

  /** An entry says "ok" exactly when the read came back, and then holds its result; otherwise it names
      what went wrong. */
  lemma EntryTellsTheResult(e: Executor, spec: OperationSpec, args: Args, answer: TransportAnswer)
    ensures var entry, result := Entry(e, spec, args, answer), ResultOf(e, spec, args, answer);
      entry.JObject? && "ok" in entry.fields
      && (entry.fields["ok"] == JBool(true) <==> spec.ValidArgs(args) && result.Some?)
      && (entry.fields["ok"] == JBool(true) ==>
        entry.fields.Keys == {"ok", "data"} && entry.fields["data"] == JObject(result.value))
      && (entry.fields["ok"] == JBool(false) <==> entry.fields["ok"] != JBool(true))
      && (entry.fields["ok"] == JBool(false) ==>
            entry.fields.Keys == {"ok", "error"}
            && entry.fields["error"] ==
              JString(if spec.ValidArgs(args) then "read_failed" else "invalid_observation_arguments"))
  {
    assert "ok" != "data" && "ok" != "error";
  }

  /** Exactly when a query is kept: it names a plain read, its arguments encode within 64 KiB and leave the target
      argument free, and the schema takes them together with a placeholder string under that argument. */
  lemma QueryIsTriedWithAPlaceholder(registry: Registry, size: Args -> nat, q: ObservationQuery)
    ensures QueryFits(registry, size, q) <==>
      var given := if q.args.Some? then q.args.value else map[];
      q.operation in registry && registry[q.operation].risk == RISK_READ && !registry[q.operation].requiresApproval
      && (q.args.Some? ==> size(q.args) <= 65536)
      && (q.targetArg == "" || q.targetArg !in given)
      && registry[q.operation].ValidArgs(
           Some(if q.targetArg == "" then given else given[q.targetArg := JString("observation-target")]))
  {
  }
}

/**
 Verification by a fresh read (agent/nostr_verifier.go).
 */
module NostrVerifier {
  import opened Wrappers
  import opened Sanitize
  import opened Lists
  import opened Policy
  import opened Spaces
  import opened NostrExecutor
  import opened NostrObserver

  datatype VerificationRule = VerificationRule(
    operation: string,
    checkOperation: string,
    checkArgs: map<string, string>,
    constantArgs: Args,
    resultPath: string,
    expected: Json)

  /** One entry of a rule's argument mapping. */
  predicate MappingFits(check: set<string>, action: set<string>, constants: JsonMap, queryArg: string,
                        proposalArg: string)
  {
    queryArg != "" && proposalArg != "" && queryArg !in constants && queryArg in check && proposalArg in action
  }

  /** A rule the constructor takes. */
  predicate RuleFits(registry: Registry, size: Args -> nat, valueSize: Json -> nat, r: VerificationRule) {
    r.operation in registry && registry[r.operation].risk != RISK_READ
    && r.checkOperation in registry && registry[r.checkOperation].PlainRead()
    && !Blank(r.resultPath)
    && registry[r.checkOperation].argsProperties.Some? && registry[r.operation].argsProperties.Some?
    && CloneJSONMap(size, r.constantArgs).Some? && valueSize(r.expected) <= MAX_OPERATION_ARGS_BYTES
    && CloneJSONMap(size, r.constantArgs).value.Keys <= registry[r.checkOperation].argsProperties.value
    && (forall k | k in r.checkArgs ::
          MappingFits(registry[r.checkOperation].argsProperties.value, registry[r.operation].argsProperties.value,
                      CloneJSONMap(size, r.constantArgs).value, k, r.checkArgs[k]))
    && (r.checkArgs == map[] ==> registry[r.checkOperation].ValidArgs(Some(CloneJSONMap(size, r.constantArgs).value)))
  }

  ghost predicate RulesDistinct(rules: seq<VerificationRule>) {
    forall i, j | 0 <= i < j < |rules| :: rules[i].operation != rules[j].operation
  }

  const PLACEHOLDER := JString("verification-placeholder")

  /** The constants of a rule, every one of them a property of the check. */
  method CopyConstants(properties: set<string>, constants: JsonMap) returns (args: Option<JsonMap>)
    ensures args == if constants.Keys <= properties then Some(constants) else None
  {
    var copy: JsonMap := map[];
    var rest := constants.Keys;
    while rest != {}
      invariant rest <= constants.Keys
      invariant forall k | k in constants && k !in rest :: k in properties
      invariant copy == map k | k in constants && k !in rest :: constants[k]
      decreases |rest|
    {
      var key :| key in rest;
      if key !in properties {
        return None;
      }
      copy := copy[key := constants[key]];
      rest := rest - {key};
    }
    assert copy == constants;
    args := Some(copy);
  }

  /** A placeholder for every mapped argument, each mapping checked. */
  method AddPlaceholders(properties: set<string>, actionProperties: set<string>, constants: JsonMap,
      checkArgs: map<string, string>) returns (args: Option<JsonMap>)
    requires constants.Keys <= properties
    ensures args.Some? <==>
      forall k | k in checkArgs :: MappingFits(properties, actionProperties, constants, k, checkArgs[k])
    ensures args.Some? ==> args.value.Keys == constants.Keys + checkArgs.Keys && args.value.Keys <= properties
    ensures args.Some? && checkArgs == map[] ==> args.value == constants
  {
    var all := constants;
    var rest := checkArgs.Keys;
    while rest != {}
      invariant rest <= checkArgs.Keys
      invariant forall k :: k in all <==> k in constants || (k in checkArgs && k !in rest)
      invariant checkArgs == map[] ==> all == constants
      invariant forall k | k in checkArgs && k !in rest ::
        MappingFits(properties, actionProperties, constants, k, checkArgs[k])
      decreases |rest|
    {
      var queryArg :| queryArg in rest;
      var proposalArg := checkArgs[queryArg];
      if queryArg == "" || proposalArg == "" || queryArg in all || queryArg !in properties
        || proposalArg !in actionProperties {
        assert !MappingFits(properties, actionProperties, constants, queryArg, proposalArg);
        return None;
      }
      all := all[queryArg := PLACEHOLDER];
      rest := rest - {queryArg};
    }
    args := Some(all);
  }

  /** The last look at the argument names: after the two checks before it, it finds nothing. */
  method RecheckNames(properties: set<string>, args: JsonMap) returns (ok: bool)
    ensures ok <==> args.Keys <= properties
  {
    var rest := args.Keys;
    while rest != {}
      invariant rest <= args.Keys
      invariant forall k | k in args && k !in rest :: k in properties
      decreases |rest|
    {
      var key :| key in rest;
      if key !in properties {
        return false;
      }
      rest := rest - {key};
    }
    ok := true;
  }

  /** The argument checks of one rule: constants, then the mapping, then all names once more. */
  method CheckRuleArguments(check: OperationSpec, properties: set<string>, actionProperties: set<string>,
                            constants: JsonMap, checkArgs: map<string, string>)
    returns (ok: bool)
    ensures ok <==>
      constants.Keys <= properties
      && (forall k | k in checkArgs :: MappingFits(properties, actionProperties, constants, k, checkArgs[k]))
      && (checkArgs == map[] ==> check.ValidArgs(Some(constants)))
  {
    var copied := CopyConstants(properties, constants);
    if copied.None? {
      return false;
    }
    var all := AddPlaceholders(properties, actionProperties, copied.value, checkArgs);
    if all.None? {
      return false;
    }
    var named := RecheckNames(properties, all.value);
    ok := named && (checkArgs != map[] || check.ValidArgs(all));
  }

  /** One rule against the registry: the rule to keep, or None. */
  method CheckRule(registry: Registry, rule: VerificationRule, taken: set<string>, size: Args -> nat,
                   valueSize: Json -> nat)
    returns (kept: Option<VerificationRule>)
    ensures kept.Some? <==> RuleFits(registry, size, valueSize, rule) && rule.operation !in taken
    ensures kept.Some? ==> kept.value == rule.(constantArgs := Some(CloneJSONMap(size, rule.constantArgs).value))
  {
    if rule.operation !in registry || registry[rule.operation].risk == RISK_READ {
      return None;
    }
    if rule.checkOperation !in registry || !registry[rule.checkOperation].PlainRead() {
      return None;
    }
    if rule.operation in taken || Blank(rule.resultPath) {
      return None;
    }
    var check, action := registry[rule.checkOperation], registry[rule.operation];
    if check.argsProperties.None? || action.argsProperties.None? {
      return None;
    }
    var constants := CloneJSONMap(size, rule.constantArgs);
    if constants.None? || valueSize(rule.expected) > MAX_OPERATION_ARGS_BYTES {
      return None;
    }
    var ok := CheckRuleArguments(check, check.argsProperties.value, action.argsProperties.value, constants.value,
      rule.checkArgs);
    if !ok {
      return None;
    }
    kept := Some(rule.(constantArgs := Some(constants.value)));
  }

  function KeptRule(size: Args -> nat, r: VerificationRule): VerificationRule
    requires CloneJSONMap(size, r.constantArgs).Some?
  {
    r.(constantArgs := Some(CloneJSONMap(size, r.constantArgs).value))
  }

  /** The table of the rules: each under its operation, with its own copy of the constants. */
  ghost predicate Tabled(size: Args -> nat, rules: seq<VerificationRule>, table: map<string, VerificationRule>) {
    (forall op :: op in table <==> exists i | 0 <= i < |rules| :: rules[i].operation == op)
    && forall i | 0 <= i < |rules| ::
         CloneJSONMap(size, rules[i].constantArgs).Some? && table[rules[i].operation] == KeptRule(size, rules[i])
  }

  lemma TabledNext(size: Args -> nat, rules: seq<VerificationRule>, table: map<string, VerificationRule>,
                   r: VerificationRule)
    requires Tabled(size, rules, table) && r.operation !in table && CloneJSONMap(size, r.constantArgs).Some?
    ensures Tabled(size, rules + [r], table[r.operation := KeptRule(size, r)])
  {
    var more, after := rules + [r], table[r.operation := KeptRule(size, r)];
    forall op ensures op in after <==> exists i | 0 <= i < |more| :: more[i].operation == op {
      if op == r.operation {
        assert more[|rules|].operation == op;
      } else if op in table {
        var i :| 0 <= i < |rules| && rules[i].operation == op;
        assert more[i].operation == op;
      }
    }
    forall i | 0 <= i < |more|
      ensures CloneJSONMap(size, more[i].constantArgs).Some? && after[more[i].operation] == KeptRule(size, more[i])
    {
      if i < |rules| {
        assert more[i] == rules[i] && rules[i].operation in table;
      }
    }
  }

  ghost predicate AllFit(registry: Registry, size: Args -> nat, valueSize: Json -> nat, rules: seq<VerificationRule>) {
    RulesDistinct(rules) && forall i | 0 <= i < |rules| :: RuleFits(registry, size, valueSize, rules[i])
  }

  lemma AllFitNext(registry: Registry, size: Args -> nat, valueSize: Json -> nat, rules: seq<VerificationRule>, i: nat,
      table: map<string, VerificationRule>)
    requires i < |rules| && AllFit(registry, size, valueSize, rules[..i]) && Tabled(size, rules[..i], table)
    ensures RuleFits(registry, size, valueSize, rules[i]) && rules[i].operation !in table ==>
      AllFit(registry, size, valueSize, rules[..i + 1])
    ensures !RuleFits(registry, size, valueSize, rules[i]) || rules[i].operation in table ==>
      !AllFit(registry, size, valueSize, rules)
  {
    assert rules[..i + 1] == rules[..i] + [rules[i]];
    if rules[i].operation in table {
      var j :| 0 <= j < i && rules[..i][j].operation == rules[i].operation;
      assert rules[j].operation == rules[i].operation;
    } else {
      forall j | 0 <= j < i ensures rules[j].operation != rules[i].operation {
        assert rules[..i][j] == rules[j];
      }
    }
  }

  method NewVerifier(registry: Registry, rules: seq<VerificationRule>, size: Args -> nat, valueSize: Json -> nat)
    returns (configured: Option<map<string, VerificationRule>>)
    ensures configured.Some? <==> RegistryValid(registry) && rules != [] && AllFit(registry, size, valueSize, rules)
    ensures configured.Some? ==> Tabled(size, rules, configured.value)
  {
    if !RegistryValid(registry) || rules == [] {
      return None;
    }
    var table: map<string, VerificationRule> := map[];
    for i := 0 to |rules|
      invariant AllFit(registry, size, valueSize, rules[..i]) && Tabled(size, rules[..i], table)
    {
      AllFitNext(registry, size, valueSize, rules, i, table);
      var kept := CheckRule(registry, rules[i], table.Keys, size, valueSize);
      if kept.None? {
        return None;
      }
      TabledNext(size, rules[..i], table, rules[i]);
      assert rules[..i + 1] == rules[..i] + [rules[i]];
      table := table[rules[i].operation := kept.value];
    }
    assert rules[..|rules|] == rules;
    configured := Some(table);
  }

  // ---------- one verification ----------

  /** The parts of a path between dots; always at least one. */
  function Segments(path: string): (r: seq<string>)
    ensures |r| >= 1
  {
    if path == "" then [""]
    else if path[0] == '.' then [""] + Segments(path[1..])
    else var rest := Segments(path[1..]); [[path[0]] + rest[0]] + rest[1..]
  }

  function ValueAt(value: Json, segments: seq<string>): Option<Json> {
    if segments == [] then Some(value)
    else if !value.JObject? || segments[0] !in value.fields then None
    else ValueAt(value.fields[segments[0]], segments[1..])
  }

  method ValueAtPath(value: Json, path: string) returns (r: Option<Json>)
    ensures r == ValueAt(value, Segments(path))
  {
    var current := value;
    var segments := Segments(path);
    for i := 0 to |segments|
      invariant ValueAt(value, segments) == ValueAt(current, segments[i..])
    {
      assert segments[i..][1..] == segments[i + 1..];
      if !current.JObject? || segments[i] !in current.fields {
        return None;
      }
      current := current.fields[segments[i]];
    }
    r := Some(current);
  }

  /** A verifier as the constructor leaves it. */
  datatype Verifier = Verifier(registry: Registry, rules: map<string, VerificationRule>) {
    ghost predicate Valid() {
      RegistryValid(registry)
      && forall op | op in rules ::
           rules[op].checkOperation in registry && registry[rules[op].checkOperation].PlainRead()
             && rules[op].constantArgs.Some?
    }
  }

  function Given(args: Args): JsonMap {
    if args.Some? then args.value else map[]
  }

  /** The proposal arguments that mappings outside rest name are there. */
  ghost predicate AllGiven(checkArgs: map<string, string>, given: JsonMap, rest: set<string>) {
    forall k | k in checkArgs && k !in rest :: checkArgs[k] in given
  }

  /** The arguments with the mappings outside rest filled in. */
  ghost function Filled(constants: JsonMap, checkArgs: map<string, string>, given: JsonMap, rest: set<string>): JsonMap
    requires AllGiven(checkArgs, given, rest)
  {
    constants + map k | k in checkArgs && k !in rest :: given[checkArgs[k]]
  }

  /** The arguments of the check, or None when the proposal lacks one. */
  ghost function CheckArguments(r: VerificationRule, args: Args): Option<JsonMap>
    requires r.constantArgs.Some?
  {
    var given := Given(args);
    if AllGiven(r.checkArgs, given, {})
    then Some(Filled(r.constantArgs.value, r.checkArgs, given, {}))
    else None
  }

  ghost function CheckPublishes(e: Executor, v: Verifier, p: Proposal): seq<Publication>
    requires v.Valid()
  {
    if p.operation !in v.rules then []
    else
      var r := v.rules[p.operation];
      var check, args := v.registry[r.checkOperation], CheckArguments(r, p.args);
      if args.None? || !check.ValidArgs(args) then [] else Publishes(e, check, args)
  }

  /** What the fresh read brought back; None without a rule, without the arguments for it, with arguments
      the schema refuses, and when the read failed. */
  ghost function FreshRead(e: Executor, v: Verifier, p: Proposal, answer: TransportAnswer): Option<JsonMap>
    requires v.Valid()
  {
    if p.operation !in v.rules then None
    else
      var r := v.rules[p.operation];
      var check, args := v.registry[r.checkOperation], CheckArguments(r, p.args);
      if args.None? || !check.ValidArgs(args) then None else ResultOf(e, check, args, answer)
  }

  /** The fresh read came back and holds the expected value at the rule's path. */
  ghost predicate Confirms(e: Executor, v: Verifier, p: Proposal, answer: TransportAnswer)
    requires v.Valid()
  {
    var read := FreshRead(e, v, p, answer);
    read.Some?
    && ValueAt(JObject(read.value), Segments(v.rules[p.operation].resultPath)) == Some(v.rules[p.operation].expected)
  }

  lemma FilledNext(constants: JsonMap, checkArgs: map<string, string>, given: JsonMap, rest: set<string>, q: string)
    requires q in rest && rest <= checkArgs.Keys && checkArgs[q] in given
    requires AllGiven(checkArgs, given, rest)
    ensures AllGiven(checkArgs, given, rest - {q})
    ensures Filled(constants, checkArgs, given, rest - {q}) ==
      Filled(constants, checkArgs, given, rest)[q := given[checkArgs[q]]]
  {
  }

  lemma FilledFirst(constants: JsonMap, checkArgs: map<string, string>, given: JsonMap)
    ensures Filled(constants, checkArgs, given, checkArgs.Keys) == constants
  {
  }

  method GatherArguments(r: VerificationRule, args: Args) returns (gathered: Option<JsonMap>)
    requires r.constantArgs.Some?
    ensures gathered == CheckArguments(r, args)
  {
    var given := Given(args);
    var all := r.constantArgs.value;
    var rest := r.checkArgs.Keys;
    FilledFirst(all, r.checkArgs, given);
    while rest != {}
      invariant rest <= r.checkArgs.Keys
      invariant AllGiven(r.checkArgs, given, rest)
      invariant all == Filled(r.constantArgs.value, r.checkArgs, given, rest)
      decreases |rest|
    {
      var queryArg :| queryArg in rest;
      if r.checkArgs[queryArg] !in given {
        return None;
      }
      FilledNext(r.constantArgs.value, r.checkArgs, given, rest, queryArg);
      all := all[queryArg := given[r.checkArgs[queryArg]]];
      rest := rest - {queryArg};
    }
    gathered := Some(all);
  }

  /** Verify: at most the one fresh read, "true" only for the expected value in its result, and an error
      exactly when there is no result to look at. */
  method Verify(t: Transport, e: Executor, v: Verifier, p: Proposal, answer: TransportAnswer)
    returns (verified: bool, failed: bool)
    requires v.Valid()
    modifies t
    ensures t.published == old(t.published) + CheckPublishes(e, v, p)
    ensures failed <==> FreshRead(e, v, p, answer).None?
    ensures verified <==> Confirms(e, v, p, answer)
    ensures verified ==> !failed && |t.published| == |old(t.published)| + 1
  {
    if p.operation !in v.rules {
      return false, true;
    }
    var rule := v.rules[p.operation];
    var args := GatherArguments(rule, p.args);
    if args.None? {
      return false, true;
    }
    var check := v.registry[rule.checkOperation];
    if !check.ValidArgs(args) {
      return false, true;
    }
    var result := Execute(t, e, check, args, answer);
    if result.None? {
      return false, true;
    }
    var actual := ValueAtPath(JObject(result.value), rule.resultPath);
    return actual == Some(rule.expected), false;
  }

  /** A path that ends in a further segment leads where that segment leads from the shorter path's value. */
  lemma {:induction false} PathsCompose(value: Json, first: seq<string>, then_: seq<string>)
    ensures ValueAt(value, first + then_) ==
      match ValueAt(value, first)
      case None => None
      case Some(middle) => ValueAt(middle, then_)
  {
    if first == [] {
      assert first + then_ == then_;
    } else {
      assert (first + then_)[1..] == first[1..] + then_;
      if value.JObject? && first[0] in value.fields {
        PathsCompose(value.fields[first[0]], first[1..], then_);
      }
    }
  }

  // ---------- paths and arguments ----------

  lemma {:induction false} NameIsOneSegment(name: string)
    requires '.' !in name
    ensures Segments(name) == [name]
  {
    if name != "" {
      NameIsOneSegment(name[1..]);
      assert [name[0]] + name[1..] == name;
      assert name[0] in name;
    }
  }

  lemma {:induction false} DotSeparatesSegments(a: string, b: string)
    ensures Segments(a + "." + b) == Segments(a) + Segments(b)
  {
    var s := a + "." + b;
    if a == "" {
      assert s[1..] == b;
    } else {
      assert s[1..] == a[1..] + "." + b && s[0] == a[0];
      DotSeparatesSegments(a[1..], b);
      var rest, more := Segments(a[1..]), Segments(b);
      if a[0] == '.' {
        AppendAssociates([""], rest, more);
      } else {
        LongerHead([a[0]], rest, more);
      }
    }
  }

  lemma LongerHead(head: string, rest: seq<string>, more: seq<string>)
    requires rest != []
    ensures [head + (rest + more)[0]] + (rest + more)[1..] == ([head + rest[0]] + rest[1..]) + more
  {
  }

  /** A dotted path leads field by field: the empty tail of a path is the value itself, a name without dots
      is looked up in the object, and behind a dot the lookup goes on in the value found. */
  lemma PathLeadsFieldByField(value: Json, name: string, rest: string)
    requires '.' !in name
    ensures ValueAt(value, Segments(name)) ==
      if value.JObject? && name in value.fields then Some(value.fields[name]) else None
    ensures ValueAt(value, Segments(name + "." + rest)) ==
      if value.JObject? && name in value.fields then ValueAt(value.fields[name], Segments(rest)) else None
  {
    NameIsOneSegment(name);
    DotSeparatesSegments(name, rest);
    PathsCompose(value, [name], Segments(rest));
    assert ValueAt(value, [name]) ==
      if value.JObject? && name in value.fields then ValueAt(value.fields[name], []) else None;
  }

  /** The check is asked with the rule's constants and, under each mapped name, the proposal's argument; it
      cannot be asked exactly when the proposal lacks one of these. */
  lemma CheckIsAskedFor(r: VerificationRule, args: Args)
    requires r.constantArgs.Some?
    ensures CheckArguments(r, args).Some? <==>
      forall k | k in r.checkArgs :: args.Some? && r.checkArgs[k] in args.value
    ensures CheckArguments(r, args).Some? ==>
      var asked := CheckArguments(r, args).value;
      asked.Keys == r.constantArgs.value.Keys + r.checkArgs.Keys
      && (forall k | k in r.checkArgs ::
        args.Some? && r.checkArgs[k] in args.value && asked[k] == args.value[r.checkArgs[k]])
      && forall k | k in r.constantArgs.value && k !in r.checkArgs :: asked[k] == r.constantArgs.value[k]
  {
  }

  /** The verdict is read off the reply: the check is asked exactly under a rule whose arguments the proposal
      has and the schema takes; what comes back is its result, and for a plain name as path the outcome is
      confirmed exactly when that field of the result holds the expected value. */
  lemma VerdictIsReadOffTheReply(e: Executor, v: Verifier, p: Proposal, answer: TransportAnswer, name: string)
    requires v.Valid() && p.operation in v.rules && v.rules[p.operation].resultPath == name && '.' !in name
    ensures var rule := v.rules[p.operation];
      var check, asked := v.registry[rule.checkOperation], CheckArguments(rule, p.args);
      FreshRead(e, v, p, answer).Some? <==>
        asked.Some? && check.ValidArgs(asked) && ResultOf(e, check, asked, answer).Some?
    ensures FreshRead(e, v, p, answer).Some? ==>
      answer.reply.Some? && FreshRead(e, v, p, answer).value == answer.reply.value.result
    ensures Confirms(e, v, p, answer) <==>
      FreshRead(e, v, p, answer).Some? && name in answer.reply.value.result
      && answer.reply.value.result[name] == v.rules[p.operation].expected
  {
    var read := FreshRead(e, v, p, answer);
    if read.Some? {
      PathLeadsFieldByField(JObject(read.value), name, "");
    }
  }
}

/**
 Notice events as cycle triggers (agent/nostr_triggers.go): a projection to a small vocabulary and a
 duplicate filter that remembers the last 4096 emitted ids.
 */
module Triggers {
  import opened Wrappers
  import opened Sanitize
  import opened Cycle
  import opened Sorting

  const MAX_SEEN: nat := 4096

  datatype Kind = SystemEvent | ServiceEvent | BackupEvent | SecurityEvent | OtherKind

  datatype Notice = Notice(severity: string, target: string, app: string, service: string)

  /** genuine: the id and the signature check out; body: None when the content does not decode. */
  datatype Event = Event(id: string, pubkey: string, genuine: bool, kind: Kind, body: Option<Notice>)

  function Vocabulary(kind: Kind): Option<string> {
    match kind
    case SystemEvent => Some("system_event")
    case ServiceEvent => Some("service_event")
    case BackupEvent => Some("backup_event")
    case SecurityEvent => Some("security_event")
    case OtherKind => None
  }

  predicate Alphanumeric(c: char) {
    'A' <= c <= 'Z' || 'a' <= c <= 'z' || '0' <= c <= '9'
  }

  /** One letter or digit, then at most 127 letters, digits, underscores, dots and dashes. */
  predicate SafeTarget(s: string) {
    1 <= |s| <= 128 && Alphanumeric(s[0])
    && forall i | 1 <= i < |s| :: Alphanumeric(s[i]) || s[i] == '_' || s[i] == '.' || s[i] == '-'
  }

  /** The one target all filled-in fields agree on; the empty one when none is filled in. */
  predicate Agreed(values: seq<string>, target: string) {
    (forall v :: v in values ==> v == "" || v == target) && (target == "" || target in values)
  }

  predicate Accepted(key: string, e: Event, request: CycleRequest) {
    Lower(e.pubkey) == Lower(key) && e.genuine
    && Vocabulary(e.kind) == Some(request.trigger)
    && e.body.Some? && (e.body.value.severity == "warning" || e.body.value.severity == "critical")
    && Agreed([e.body.value.target, e.body.value.app, e.body.value.service], request.target)
    && (request.target == "" || SafeTarget(request.target))
  }

  /** The request of an event, None when the event is not accepted. */
  method ProjectNoticeTrigger(key: string, e: Event) returns (request: Option<CycleRequest>)
    ensures request.Some? ==> Accepted(key, e, request.value)
    ensures request.None? ==> forall r :: !Accepted(key, e, r)
  {
    if Lower(e.pubkey) != Lower(key) || !e.genuine {
      return None;
    }
    var trigger := Vocabulary(e.kind);
    if trigger.None? {
      return None;
    }
    if e.body.None? || (e.body.value.severity != "warning" && e.body.value.severity != "critical") {
      return None;
    }
    var values := [e.body.value.target, e.body.value.app, e.body.value.service];
    var target := "";
    for i := 0 to |values|
      invariant Agreed(values[..i], target)
    {
      assert values[..i + 1] == values[..i] + [values[i]];
      if values[i] == "" {
        continue;
      }
      if target != "" && target != values[i] {
        assert target in values && values[i] in values;
        return None;
      }
      target := values[i];
    }
    assert values[..|values|] == values;
    OneAgreement(values, target);
    if target != "" && !SafeTarget(target) {
      return None;
    }
    request := Some(CycleRequest(trigger.value, target));
  }

  lemma OneAgreement(values: seq<string>, target: string)
    requires Agreed(values, target)
    ensures forall other :: Agreed(values, other) ==> other == target
  {
  }

  /** The request of an event as a value; at most one request is accepted for an event. */
  ghost function RequestOf(key: string, e: Event): Option<CycleRequest> {
    if exists r :: Accepted(key, e, r) then
      var r :| Accepted(key, e, r);
      Some(r)
    else None
  }

  lemma RequestIsUnique(key: string, e: Event, r: CycleRequest)
    requires Accepted(key, e, r)
    ensures RequestOf(key, e) == Some(r)
  {
    var other :| Accepted(key, e, other) && RequestOf(key, e) == Some(other);
    OneAgreement([e.body.value.target, e.body.value.app, e.body.value.service], r.target);
  }

  // ---------- the duplicate filter ----------

  /** What the loop's select receives; delivered: the send that may follow beats the end of the context. */
  datatype Input = Cancelled | Closed | Received(event: Option<Event>, delivered: bool)

  datatype Emission = Emission(id: string, request: CycleRequest)

  /** One id more at the end, the oldest one dropped when there are too many. */
  function Push(order: seq<string>, id: string): seq<string> {
    if |order| + 1 > MAX_SEEN then (order + [id])[1..] else order + [id]
  }

  /** The emissions of the loop, from a memory of ids on. */
  ghost function Emitted(key: string, inputs: seq<Input>, order: seq<string>): seq<Emission> {
    if inputs == [] || !inputs[0].Received? then []
    else if inputs[0].event.None? || RequestOf(key, inputs[0].event.value).None?
      || inputs[0].event.value.id in order then
      Emitted(key, inputs[1..], order)
    else if !inputs[0].delivered then []
    else
      var e := inputs[0].event.value;
      [Emission(e.id, RequestOf(key, e).value)] + Emitted(key, inputs[1..], Push(order, e.id))
  }

  /** One id more in the set and the queue; the oldest leaves both when there are too many. */
  method Remember(seen: set<string>, order: seq<string>, id: string) returns (seen': set<string>, order': seq<string>)
    requires |order| <= MAX_SEEN && Distinct(order) && seen == Elements(order) && id !in order
    ensures order' == Push(order, id) && |order'| <= MAX_SEEN
    ensures Distinct(order') && seen' == Elements(order')
  {
    seen' := seen + {id};
    order' := order + [id];
    if |order'| > MAX_SEEN {
      seen' := seen' - {order'[0]};
      order' := order'[1..];
    }
    MemoryNext(order, id);
  }

  method Forward(key: string, inputs: seq<Input>) returns (out: seq<Emission>)
    ensures out == Emitted(key, inputs, [])
  {
    out := [];
    var seen: set<string> := {};
    var order: seq<string> := [];
    var i := 0;
    while i < |inputs|
      invariant 0 <= i <= |inputs|
      invariant |order| <= MAX_SEEN && Distinct(order) && seen == Elements(order)
      invariant out + Emitted(key, inputs[i..], order) == Emitted(key, inputs, [])
    {
      var input := inputs[i];
      assert inputs[i..][1..] == inputs[i + 1..];
      i := i + 1;
      if !input.Received? {
        return;
      }
      if input.event.None? {
        continue;
      }
      var e := input.event.value;
      var request := ProjectNoticeTrigger(key, e);
      if request.None? {
        continue;
      }
      RequestIsUnique(key, e, request.value);
      assert e.id in seen <==> e.id in order;
      if e.id in seen {
        continue;
      }
      seen, order := Remember(seen, order, e.id);
      if !input.delivered {
        return;
      }
      out := out + [Emission(e.id, request.value)];
    }
  }

  /** The set stays the contents of the duplicate-free queue. */
  lemma MemoryNext(order: seq<string>, id: string)
    requires |order| <= MAX_SEEN && Distinct(order) && id !in order
    ensures |Push(order, id)| <= MAX_SEEN && Distinct(Push(order, id))
    ensures Elements(Push(order, id)) ==
      if |order| + 1 > MAX_SEEN then Elements(order) + {id} - {order[0]} else Elements(order) + {id}
  {
    var all := order + [id];
    assert Elements(all) == Elements(order) + {id};
    if |all| > MAX_SEEN {
      assert all == [all[0]] + all[1..];
      assert all[0] !in all[1..];
    }
  }

  function Ids(out: seq<Emission>): seq<string> {
    seq(|out|, k requires 0 <= k < |out| => out[k].id)
  }

  /** No id is among the 4096 before it. */
  ghost predicate FreshWindows(order: seq<string>, ids: seq<string>) {
    forall j | 0 <= j < |ids| :: ids[j] !in LastOf(order + ids[..j], MAX_SEEN)
  }

  lemma PushIsLast(order: seq<string>, id: string)
    requires |order| <= MAX_SEEN
    ensures Push(order, id) == LastOf(order + [id], MAX_SEEN)
  {
  }

  lemma LastOfLast(a: seq<string>, b: seq<string>, n: nat)
    ensures LastOf(LastOf(a, n) + b, n) == LastOf(a + b, n)
  {
  }

  lemma {:induction false} EmissionsAreFresh(key: string, inputs: seq<Input>, order: seq<string>)
    requires |order| <= MAX_SEEN
    ensures FreshWindows(order, Ids(Emitted(key, inputs, order)))
  {
    if inputs == [] || !inputs[0].Received? {
    } else if inputs[0].event.None? || RequestOf(key, inputs[0].event.value).None?
      || inputs[0].event.value.id in order {
      EmissionsAreFresh(key, inputs[1..], order);
    } else if inputs[0].delivered {
      var id := inputs[0].event.value.id;
      EmissionsAreFresh(key, inputs[1..], Push(order, id));
      FreshCons(order, id, Ids(Emitted(key, inputs[1..], Push(order, id))));
      assert Ids(Emitted(key, inputs, order)) == [id] + Ids(Emitted(key, inputs[1..], Push(order, id)));
    }
  }

  lemma FreshCons(order: seq<string>, id: string, ids: seq<string>)
    requires |order| <= MAX_SEEN && id !in order && FreshWindows(Push(order, id), ids)
    ensures FreshWindows(order, [id] + ids)
  {
    var all := [id] + ids;
    forall j | 0 <= j < |all| ensures all[j] !in LastOf(order + all[..j], MAX_SEEN) {
      if j == 0 {
        assert order + all[..0] == order;
      } else {
        SameWindow(order, id, ids, j - 1);
        assert all[j] == ids[j - 1];
      }
    }
  }

  /** The window behind the queue with the id pushed is the window behind the queue and the id. */
  lemma SameWindow(order: seq<string>, id: string, ids: seq<string>, k: nat)
    requires |order| <= MAX_SEEN && k <= |ids|
    ensures LastOf(order + ([id] + ids)[..k + 1], MAX_SEEN) == LastOf(Push(order, id) + ids[..k], MAX_SEEN)
  {
    PushIsLast(order, id);
    LastOfLast(order + [id], ids[..k], MAX_SEEN);
    assert order + ([id] + ids)[..k + 1] == (order + [id]) + ids[..k];
  }

  /** An id is emitted again only after 4096 others, all different from it and from each other. */
  lemma ReemittedOnlyAfterManyOthers(key: string, inputs: seq<Input>, i: nat, j: nat)
    requires i < j < |Emitted(key, inputs, [])|
    requires Emitted(key, inputs, [])[i].id == Emitted(key, inputs, [])[j].id
    ensures var ids := Ids(Emitted(key, inputs, []));
      i < j - MAX_SEEN && Distinct(ids[j - MAX_SEEN..j]) && ids[j] !in ids[j - MAX_SEEN..j]
  {
    EmissionsAreFresh(key, inputs, []);
    var ids := Ids(Emitted(key, inputs, []));
    WindowOf(ids, i, j);
    forall a, b | j - MAX_SEEN <= a < b < j ensures ids[a] != ids[b] {
      InWindow(ids, a, b);
    }
  }

  lemma InWindow(ids: seq<string>, a: nat, b: nat)
    requires FreshWindows([], ids) && a < b < |ids| && b - a <= MAX_SEEN
    ensures ids[a] != ids[b]
  {
    var window := LastOf([] + ids[..b], MAX_SEEN);
    assert [] + ids[..b] == ids[..b];
    assert window[|window| - (b - a)] == ids[a];
  }

  lemma WindowOf(ids: seq<string>, i: nat, j: nat)
    requires FreshWindows([], ids) && i < j < |ids| && ids[i] == ids[j]
    ensures i < j - MAX_SEEN
    ensures forall k | j - MAX_SEEN <= k < j :: 0 <= k && ids[k] != ids[j]
  {
    if j - i <= MAX_SEEN {
      InWindow(ids, i, j);
    }
    forall k | j - MAX_SEEN <= k < j ensures 0 <= k && ids[k] != ids[j] {
      InWindow(ids, k, j);
    }
  }

  /** With at most 4096 different ids in the stream, every id is emitted at most once. */
  lemma FewIdsOnlyOnce(key: string, inputs: seq<Input>)
    requires |Elements(Ids(Emitted(key, inputs, [])))| <= MAX_SEEN
    ensures Distinct(Ids(Emitted(key, inputs, [])))
  {
    var out := Emitted(key, inputs, []);
    var ids := Ids(out);
    forall i, j | 0 <= i < j < |ids| ensures ids[i] != ids[j] {
      if ids[i] == ids[j] {
        ReemittedOnlyAfterManyOthers(key, inputs, i, j);
        TooMany(ids, j);
      }
    }
  }

  lemma TooMany(ids: seq<string>, j: nat)
    requires MAX_SEEN <= j < |ids| && Distinct(ids[j - MAX_SEEN..j]) && ids[j] !in ids[j - MAX_SEEN..j]
    ensures |Elements(ids)| > MAX_SEEN
  {
    var window := ids[j - MAX_SEEN..j] + [ids[j]];
    DistinctCount(window);
    forall x | x in Elements(window) ensures x in Elements(ids) {
      var k :| 0 <= k < |window| && window[k] == x;
      assert x == ids[j - MAX_SEEN + k];
    }
    Subset(Elements(window), Elements(ids));
  }

  ghost predicate AcceptedAt(key: string, inputs: seq<Input>, n: nat, e: Emission) {
    n < |inputs| && inputs[n].Received? && inputs[n].event.Some? && inputs[n].event.value.id == e.id
    && RequestOf(key, inputs[n].event.value) == Some(e.request)
  }

  /** All inputs before n and at n were events, and sends were not cut off. */
  predicate Flowing(inputs: seq<Input>, n: nat) {
    n <= |inputs| && forall m | 0 <= m < n :: inputs[m].Received? && inputs[m].delivered
  }

  /** The emissions stand for accepted notices at these positions of the stream. */
  ghost predicate Arrivals(key: string, inputs: seq<Input>, out: seq<Emission>, at: seq<nat>) {
    |at| == |out|
    && (forall k | 0 <= k < |at| :: AcceptedAt(key, inputs, at[k], out[k]))
    && forall j, k | 0 <= j < k < |at| :: at[j] < at[k]
  }

  function Shifted(at: seq<nat>): seq<nat> {
    seq(|at|, k requires 0 <= k < |at| => at[k] + 1)
  }

  lemma ShiftedArrivals(key: string, inputs: seq<Input>, out: seq<Emission>, at: seq<nat>)
    requires inputs != [] && Arrivals(key, inputs[1..], out, at)
    ensures Arrivals(key, inputs, out, Shifted(at))
  {
    forall k | 0 <= k < |at| ensures AcceptedAt(key, inputs, Shifted(at)[k], out[k]) {
      assert AcceptedAt(key, inputs[1..], at[k], out[k]);
      assert inputs[1..][at[k]] == inputs[at[k] + 1];
    }
  }

  lemma FirstArrival(key: string, inputs: seq<Input>, first: Emission, out: seq<Emission>, at: seq<nat>)
    requires inputs != [] && AcceptedAt(key, inputs, 0, first) && Arrivals(key, inputs, out, Shifted(at))
    ensures Arrivals(key, inputs, [first] + out, [0] + Shifted(at))
  {
  }

  /** The emissions are accepted notices in the order of their arrival. */
  lemma {:induction false} EmissionsAreArrivals(key: string, inputs: seq<Input>, order: seq<string>)
    returns (at: seq<nat>)
    ensures Arrivals(key, inputs, Emitted(key, inputs, order), at)
  {
    at := [];
    if inputs == [] || !inputs[0].Received? {
      return;
    }
    if inputs[0].event.None? || RequestOf(key, inputs[0].event.value).None? || inputs[0].event.value.id in order {
      var rest := EmissionsAreArrivals(key, inputs[1..], order);
      ShiftedArrivals(key, inputs, Emitted(key, inputs[1..], order), rest);
      at := Shifted(rest);
    } else if inputs[0].delivered {
      var e := inputs[0].event.value;
      var rest := EmissionsAreArrivals(key, inputs[1..], Push(order, e.id));
      ShiftedArrivals(key, inputs, Emitted(key, inputs[1..], Push(order, e.id)), rest);
      FirstArrival(key, inputs, Emission(e.id, RequestOf(key, e).value), Emitted(key, inputs[1..], Push(order, e.id)),
        rest);
      at := [0] + Shifted(rest);
    }
  }

  /** No accepted notice is lost: once it has been read, its id has been emitted, now or before. */
  lemma {:induction false} NothingIsLost(key: string, inputs: seq<Input>, order: seq<string>, n: nat, e: Emission)
    requires Flowing(inputs, n + 1) && AcceptedAt(key, inputs, n, e)
    ensures e.id in order || e.id in Ids(Emitted(key, inputs[..n + 1], order))
  {
    var head := inputs[..n + 1];
    assert head[0] == inputs[0] && head[1..] == inputs[1..][..n];
    if inputs[0].event.None? || RequestOf(key, inputs[0].event.value).None? || inputs[0].event.value.id in order {
      if n > 0 {
        assert inputs[1..][n - 1] == inputs[n];
        NothingIsLost(key, inputs[1..], order, n - 1, e);
      }
    } else {
      var id := inputs[0].event.value.id;
      var rest := Emitted(key, head[1..], Push(order, id));
      assert Ids(Emitted(key, head, order)) == [id] + Ids(rest);
      if n > 0 {
        assert inputs[1..][n - 1] == inputs[n];
        NothingIsLost(key, inputs[1..], Push(order, id), n - 1, e);
        assert e.id in Push(order, id) ==> e.id in order || e.id == id;
      }
    }
  }
}

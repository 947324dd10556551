/**
 * The one-shot executor: a gate that may do anything, and a transport that runs at most once for the grant checked on
 * entry.
 */
module Executor {
  import opened Common

  const GRANT_SCHEMA := "4allpass-protected-grant-v1"
  const REQUEST_SCHEMA := "4allpass-protected-use-v1"
  const OPERATION := "demo.quota.read"
  const TARGET := "demo-quota-v1"
  const MAX_GRANT_TTL_SECONDS := 86_400.0
  const TIME_MAX := 9007199254740992.0
  const VERSION_MAX := 0x7fff_ffff

  datatype Binding = Binding(
    projectId: string, workflowId: string, taskId: string, actorId: string, consumerId: string, attemptId: string,
    requestHash: string)

  datatype Request = Request(
    binding: Binding, grantRef: string, operation: string, targetId: string, originRef: Option<string>,
    principalRef: Option<string>, grantVersion: Option<int>, schemaVersion: string)

  /** A time that is not a finite number is Invalid. */
  datatype Time = At(seconds: real) | Invalid

  datatype Grant = Grant(
    reference: string, projectId: string, workflowId: string, taskId: string, actorId: string, consumerId: string,
    attemptId: string, originRef: string, principalRef: string, requestHash: string, grantVersion: int,
    targetId: string,
    operation: string, issuedAt: Time, expiresAt: Time, lifecycle: string, consentRef: string, schemaVersion: string)

  datatype Code =
    | InvalidBinding | InvalidHash | InvalidVersion | InvalidTime | InvalidLifecycle | UnsupportedRequest
    | UnsupportedGrant
    | UnsupportedOperation | ContentConflict | GrantUnavailable | BindingMismatch | HostUnavailable | GateUnavailable
    | TransportUnavailable | DispatchUnverified | ResponseRejected

  // ---- contracts.py: None is acceptance ----

  predicate IsIdChar(c: char) {
    'A' <= c <= 'Z' || 'a' <= c <= 'z' || '0' <= c <= '9' || c == '_' || c == '.' || c == ':' || c == '-'
  }

  predicate IsId(s: string) {
    1 <= |s| <= 128 && forall i :: 0 <= i < |s| ==> IsIdChar(s[i])
  }

  predicate IsHash(s: string) {
    |s| == 64 && forall i :: 0 <= i < |s| ==> 'a' <= s[i] <= 'f' || '0' <= s[i] <= '9'
  }

  predicate IsVersion(n: int) {
    1 <= n <= VERSION_MAX
  }

  predicate IsTime(t: Time) {
    t.At? && 0.0 <= t.seconds <= TIME_MAX
  }

  predicate BindingIdsOk(b: Binding) {
    IsId(b.projectId) && IsId(b.workflowId) && IsId(b.taskId) && IsId(b.actorId) && IsId(b.consumerId)
    && IsId(b.attemptId)
  }

  /** `contentHash` is the hash of everything in the request but the hash itself. */
  function ValidateRequest(contentHash: Request -> string, r: Request): Option<Code> {
    if r.schemaVersion != REQUEST_SCHEMA then Some(UnsupportedRequest)
    else if !IsId(r.grantRef) || r.originRef.None? || !IsId(r.originRef.value) || r.principalRef.None?
            || !IsId(r.principalRef.value) || !BindingIdsOk(r.binding) then Some(InvalidBinding)
    else if r.grantVersion.None? || !IsVersion(r.grantVersion.value) then Some(InvalidVersion)
    else if !IsHash(r.binding.requestHash) then Some(InvalidHash)
    else if r.operation != OPERATION || r.targetId != TARGET then Some(UnsupportedOperation)
    else if r.binding.requestHash != contentHash(r) then Some(ContentConflict)
    else None
  }

  predicate GrantIdsOk(g: Grant) {
    && IsId(g.reference) && IsId(g.projectId) && IsId(g.workflowId) && IsId(g.taskId) && IsId(g.actorId)
    && IsId(g.consumerId) && IsId(g.attemptId) && IsId(g.originRef) && IsId(g.principalRef) && IsId(g.consentRef)
  }

  /** Every field that ties a grant to one request. */
  predicate Matches(r: Request, g: Grant) {
    var b := r.binding;
    && g.reference == r.grantRef && Some(g.originRef) == r.originRef && Some(g.principalRef) == r.principalRef
    && Some(g.grantVersion) == r.grantVersion && g.operation == r.operation && g.targetId == r.targetId
    && g.requestHash == b.requestHash && g.projectId == b.projectId && g.workflowId == b.workflowId
    && g.taskId == b.taskId
    && g.actorId == b.actorId && g.consumerId == b.consumerId && g.attemptId == b.attemptId
  }

  function ValidateGrant(contentHash: Request -> string, r: Request, g: Grant, now: Time): Option<Code> {
    if ValidateRequest(contentHash, r).Some? then ValidateRequest(contentHash, r)
    else if g.schemaVersion != GRANT_SCHEMA then Some(UnsupportedGrant)
    else if !GrantIdsOk(g) then Some(InvalidBinding)
    else if !IsHash(g.requestHash) then Some(InvalidHash)
    else if !IsVersion(g.grantVersion) then Some(InvalidVersion)
    else if !IsTime(g.issuedAt) || !IsTime(g.expiresAt) || !IsTime(now) then Some(InvalidTime)
    else if !(0.0 < g.expiresAt.seconds - g.issuedAt.seconds <= MAX_GRANT_TTL_SECONDS) then Some(InvalidTime)
    else if g.lifecycle != "active" && g.lifecycle != "revoked" && g.lifecycle != "expired" then Some(InvalidLifecycle)
    else if g.lifecycle != "active"
            || !(g.issuedAt.seconds <= now.seconds < g.expiresAt.seconds) then Some(GrantUnavailable)
    else if !Matches(r, g) then Some(BindingMismatch)
    else None
  }

  /**
   * What acceptance means: the grant is for this request, active, not yet or no longer outside a lifetime of at most a
   * day.
   */
  predicate Usable(contentHash: Request -> string, r: Request, g: Grant, now: Time) {
    && r.binding.requestHash == contentHash(r) && r.operation == OPERATION && r.targetId == TARGET
    && Matches(r, g) && g.lifecycle == "active"
    && now.At? && g.issuedAt.At? && g.expiresAt.At?
    && 0.0 <= g.issuedAt.seconds <= now.seconds < g.expiresAt.seconds <= TIME_MAX
    && g.expiresAt.seconds <= g.issuedAt.seconds + MAX_GRANT_TTL_SECONDS
  }

  predicate WellFormed(r: Request, g: Grant) {
    && r.schemaVersion == REQUEST_SCHEMA && g.schemaVersion == GRANT_SCHEMA && GrantIdsOk(g)
    && IsHash(g.requestHash) && IsVersion(g.grantVersion)
  }

  /** The order of the checks hides nothing: a grant passes exactly if it is well formed and usable. */
  lemma AcceptedMeansUsable(contentHash: Request -> string, r: Request, g: Grant, now: Time)
    ensures ValidateGrant(contentHash, r, g, now) == None <==> WellFormed(r, g) && Usable(contentHash, r, g, now)
  {
  }

  // ---- project_reply ----

  datatype Value = Number(n: int) | Text(s: string) | OtherValue

  /** A reply; `fields` are the pairs of its JSON object in order, None if the body is not one. */
  datatype Reply = Reply(status: int, redirected: bool, length: nat, fields: Option<seq<(string, Value)>>)

  datatype Quota = Quota(remaining: int, window: string)

  function Lookup(fields: seq<(string, Value)>, key: string): Option<Value> {
    if fields == [] then None else if fields[0].0 == key then Some(fields[0].1) else Lookup(fields[1..], key)
  }

  predicate NoDuplicates(fields: seq<(string, Value)>) {
    forall i, j :: 0 <= i < j < |fields| ==> fields[i].0 != fields[j].0
  }

  /** Exactly the two fields, each once, in range. */
  predicate Valid(reply: Reply, q: Quota) {
    && reply.status == 200 && !reply.redirected && reply.length <= 4096 && reply.fields.Some?
    && |reply.fields.value| == 2 && NoDuplicates(reply.fields.value)
    && ("remaining", Number(q.remaining)) in reply.fields.value && ("window", Text(q.window)) in reply.fields.value
    && 0 <= q.remaining <= 100_000 && (q.window == "day" || q.window == "month")
  }

  function Keys(fields: seq<(string, Value)>): set<string> {
    set f | f in fields :: f.0
  }

  /** The hook that refuses duplicate keys, then the checks on the object it built. */
  method ProjectReply(reply: Reply) returns (r: Option<Quota>)
    ensures r.Some? ==> Valid(reply, r.value)
    ensures r.None? ==> forall q :: !Valid(reply, q)
  {
    if reply.status != 200 || reply.redirected || reply.length > 4096 || reply.fields.None? {
      return None;
    }
    var fields := reply.fields.value;
    var obj: map<string, Value> := map[];
    for i := 0 to |fields|
      invariant NoDuplicates(fields[..i]) && obj.Keys == Keys(fields[..i])
      invariant forall j :: 0 <= j < i ==> fields[j].0 in obj && obj[fields[j].0] == fields[j].1
    {
      assert fields[..i + 1] == fields[..i] + [fields[i]];
      if fields[i].0 in obj {
        DuplicateIsInvalid(reply, fields, i);
        return None;
      }
      NoDuplicatesSnoc(fields[..i], fields[i]);
      obj := obj[fields[i].0 := fields[i].1];
    }
    assert fields[..|fields|] == fields;
    if obj.Keys != {"remaining", "window"} {
      AllValidKeys(reply);
      return None;
    }
    var remaining, window := obj["remaining"], obj["window"];
    TwoFields(fields, remaining, window);
    if !remaining.Number? || !(0 <= remaining.n <= 100_000) || !window.Text?
      || (window.s != "day" && window.s != "month") {
      return None;
    }
    return Some(Quota(remaining.n, window.s));
  }

  lemma NoDuplicatesSnoc(fields: seq<(string, Value)>, f: (string, Value))
    requires NoDuplicates(fields) && f.0 !in Keys(fields)
    ensures NoDuplicates(fields + [f]) && Keys(fields + [f]) == Keys(fields) + {f.0}
  {
    var all := fields + [f];
    forall i, j | 0 <= i < j < |all| ensures all[i].0 != all[j].0 {
      if j == |fields| {
        assert fields[i] in fields;
      }
    }
    forall k ensures k in Keys(all) <==> k in Keys(fields) || k == f.0 {
      if k == f.0 {
        assert f in all;
      }
    }
  }

  lemma DuplicateIsInvalid(reply: Reply, fields: seq<(string, Value)>, i: nat)
    requires reply.fields == Some(fields) && i < |fields| && fields[i].0 in Keys(fields[..i])
    ensures forall q :: !Valid(reply, q)
  {
    var f :| f in fields[..i] && f.0 == fields[i].0;
    var j :| 0 <= j < i && fields[j] == f;
  }

  lemma ValidKeys(reply: Reply, q: Quota)
    requires Valid(reply, q)
    ensures Keys(reply.fields.value) == {"remaining", "window"}
  {
    var fields := reply.fields.value;
    assert ("remaining", Number(q.remaining)).0 in Keys(fields) && ("window", Text(q.window)).0 in Keys(fields);
    var i :| 0 <= i < |fields| && fields[i] == ("remaining", Number(q.remaining));
    var j :| 0 <= j < |fields| && fields[j] == ("window", Text(q.window));
    assert i != j;
    forall f | f in fields ensures f == fields[i] || f == fields[j] {
      var k :| 0 <= k < |fields| && fields[k] == f;
    }
  }

  lemma AllValidKeys(reply: Reply)
    requires reply.fields.Some?
    ensures forall q :: Valid(reply, q) ==> Keys(reply.fields.value) == {"remaining", "window"}
  {
    forall q | Valid(reply, q) ensures Keys(reply.fields.value) == {"remaining", "window"} {
      ValidKeys(reply, q);
    }
  }

  lemma {:induction false} KeysCount(fields: seq<(string, Value)>)
    requires NoDuplicates(fields)
    ensures |Keys(fields)| == |fields|
  {
    if fields != [] {
      var front, last := fields[..|fields| - 1], fields[|fields| - 1];
      KeysCount(front);
      assert fields == front + [last];
      assert last.0 !in Keys(front);
      NoDuplicatesSnoc(front, last);
    }
  }

  /** Two keys, no duplicates: two fields. */
  lemma TwoFields(fields: seq<(string, Value)>, remaining: Value, window: Value)
    requires NoDuplicates(fields) && Keys(fields) == {"remaining", "window"}
    requires forall f :: f in fields ==>
      f == (if f.0 == "remaining" then ("remaining", remaining) else ("window", window))
    ensures |fields| == 2 && ("remaining", remaining) in fields && ("window", window) in fields
    ensures forall f :: f in fields ==> f == ("remaining", remaining) || f == ("window", window)
  {
    KeysCount(fields);
    assert |{"remaining", "window"}| == 2;
    assert "remaining" in Keys(fields) && "window" in Keys(fields);
  }

  // ---- execute ----

  /** What the transport would do if it were called now. */
  datatype Wire = Raises | Replies(reply: Reply)

  /** What the gate, and whoever runs beside it, may do: anything, any number of times, in any order. */
  datatype Action = ReplaceGrant(grant: Grant) | Wait(now: Time) | CallSend(wire: Wire)

  datatype Call = Call(grant: Grant, at: Time, wire: Wire)

  /** The variables of one execution; `calls` records every use of the transport. */
  datatype Run = Run(held: Grant, now: Time, attempted: bool, result: Option<Quota>, calls: seq<Call>)

  ghost function Projected(wire: Wire): Option<Quota> {
    if wire.Replies? && exists q :: Valid(wire.reply, q) then
      var q :| Valid(wire.reply, q);
      Some(q)
    else None
  }

  lemma ValidUniquely(reply: Reply, p: Quota, q: Quota)
    requires Valid(reply, p) && Valid(reply, q)
    ensures p == q
  {
    var fields := reply.fields.value;
    var i :| 0 <= i < |fields| && fields[i] == ("remaining", Number(p.remaining));
    var j :| 0 <= j < |fields| && fields[j] == ("remaining", Number(q.remaining));
    var k :| 0 <= k < |fields| && fields[k] == ("window", Text(p.window));
    var l :| 0 <= l < |fields| && fields[l] == ("window", Text(q.window));
    assert i == j && k == l;
  }

  /** The send callback: whatever goes wrong is raised into the gate, which may swallow it. */
  ghost function AfterSend(contentHash: Request -> string, r: Request, entry: Grant, run: Run, wire: Wire): Run {
    if run.attempted then run
    else if run.held.reference != r.grantRef || ValidateGrant(contentHash, r, run.held, run.now).Some?
            || run.held != entry
    then run.(attempted := true)
    else run.(attempted := true, calls := run.calls + [Call(run.held, run.now, wire)],
              result := if Projected(wire).Some? then Projected(wire) else run.result)
  }

  ghost function AfterAction(contentHash: Request -> string, r: Request, entry: Grant, run: Run, action: Action): Run {
    match action
    case ReplaceGrant(grant) => run.(held := grant)
    case Wait(now) => run.(now := now)
    case CallSend(wire) => AfterSend(contentHash, r, entry, run, wire)
  }

  ghost function AfterScript(contentHash: Request -> string, r: Request, entry: Grant, run: Run,
      script: seq<Action>): Run {
    if script == [] then run
    else
      AfterAction(
        contentHash, r, entry, AfterScript(contentHash, r, entry, run, script[..|script| - 1]), script[|script| - 1])
  }

  /**
   * At most one use of the transport, for the grant checked on entry and still usable; a result only from its reply.
   */
  ghost predicate Disciplined(contentHash: Request -> string, r: Request, entry: Grant, run: Run) {
    && |run.calls| <= 1 && (run.calls != [] ==> run.attempted) && (run.result.Some? ==> run.calls != [])
    && (forall c :: c in run.calls ==>
        c.grant == entry && WellFormed(r, c.grant) && Usable(contentHash, r, c.grant, c.at))
    && (run.result.Some? ==>
        |run.calls| == 1 && run.calls[0].wire.Replies? && Valid(run.calls[0].wire.reply, run.result.value))
  }

  lemma {:induction false} EveryScriptIsDisciplined(contentHash: Request -> string, r: Request, entry: Grant,
      start: Run, script: seq<Action>)
    requires Disciplined(contentHash, r, entry, start)
    ensures Disciplined(contentHash, r, entry, AfterScript(contentHash, r, entry, start, script))
  {
    hide ValidateGrant, WellFormed, Usable, Valid;
    if script != [] {
      var before := AfterScript(contentHash, r, entry, start, script[..|script| - 1]);
      EveryScriptIsDisciplined(contentHash, r, entry, start, script[..|script| - 1]);
      AcceptedMeansUsable(contentHash, r, before.held, before.now);
    }
  }

  /** And the machine is not idle: an undisturbed gate that calls back once delivers what the reply says. */
  lemma HonestGateDelivers(contentHash: Request -> string, r: Request, grant: Grant, now: Time, reply: Reply, q: Quota)
    requires ValidateGrant(contentHash, r, grant, now).None? && Valid(reply, q)
    ensures AfterScript(contentHash, r, grant, Run(grant, now, false, None, []), [CallSend(Replies(reply))]).result
      == Some(q)
  {
    hide WellFormed, Valid;
    AcceptedMeansUsable(contentHash, r, grant, now);
    var script := [CallSend(Replies(reply))];
    assert script[..0] == [];
    ValidUniquely(reply, q, Projected(Replies(reply)).value);
  }

  /** SyntheticHostCapability: the one grant it holds, replaced from outside at will. */
  class Host {
    var grant: Grant

    constructor (grant: Grant)
      ensures this.grant == grant
    {
      this.grant := grant;
    }

    method ReplaceMetadata(grant: Grant)
      modifies this
      ensures this.grant == grant
    {
      this.grant := grant;
    }

    method LookupGrant(reference: string) returns (r: Option<Grant>)
      ensures r == if reference == grant.reference then Some(grant) else None
    {
      r := if reference == grant.reference then Some(grant) else None;
    }
  }

  datatype Outcome = Rejected(code: Code) | Unverified | DeliveredUnverified(quota: Quota)

  /** One call of execute: the closure's variables, and the transport it may use. */
  class Execution {
    const contentHash: Request -> string
    const request: Request
    const host: Host
    const entry: Grant
    var now: Time
    var callbackAttempted: bool
    var result: Option<Quota>
    ghost var calls: seq<Call>

    constructor (contentHash: Request -> string, request: Request, host: Host, entry: Grant, now: Time)
      ensures this.contentHash == contentHash && this.request == request && this.host == host && this.entry == entry
      ensures Snapshot() == Run(host.grant, now, false, None, [])
    {
      this.contentHash, this.request, this.host, this.entry := contentHash, request, host, entry;
      this.now, callbackAttempted, result, calls := now, false, None, [];
    }

    ghost function Snapshot(): Run
      reads this, host
    {
      Run(host.grant, now, callbackAttempted, result, calls)
    }

    method Send(wire: Wire)
      modifies this
      ensures Snapshot() == AfterSend(contentHash, request, entry, old(Snapshot()), wire)
    {
      hide ValidateGrant, Valid;
      if callbackAttempted {
        return;
      }
      callbackAttempted := true;
      var current := host.LookupGrant(request.grantRef);
      if current.None? || ValidateGrant(contentHash, request, current.value, now).Some? || current.value != entry {
        return;
      }
      calls := calls + [Call(current.value, now, wire)];
      if wire.Raises? {
        return;
      }
      var projected := ProjectReply(wire.reply);
      if projected.Some? {
        assert Projected(wire) == projected by {
          var q := Projected(wire).value;
          ValidUniquely(wire.reply, q, projected.value);
        }
        result := projected;
      }
    }

    /** Lets the gate do whatever it does. */
    method Dispatch(script: seq<Action>)
      modifies this, host
      ensures Snapshot() == AfterScript(contentHash, request, entry, old(Snapshot()), script)
    {
      hide AfterSend;
      for i := 0 to |script|
        invariant Snapshot() == AfterScript(contentHash, request, entry, old(Snapshot()), script[..i])
      {
        assert script[..i + 1][..i] == script[..i];
        match script[i]
        case ReplaceGrant(grant) => host.ReplaceMetadata(grant);
        case Wait(time) => now := time;
        case CallSend(wire) => Send(wire);
      }
      assert script[..|script|] == script;
    }
  }

  /** `gateRaises` says whether the gate in the end lets an exception out. */
  method Execute(
    contentHash: Request -> string, host: Host, legacyLookup: bool, hasGate: bool, hasTransport: bool, request: Request,
    now: Time, script: seq<Action>, gateRaises: bool)
    returns (r: Outcome, ghost calls: seq<Call>)
    modifies host
    ensures |calls| <= 1
    ensures forall c :: c in calls ==>
      c.grant == old(host.grant) && WellFormed(request, c.grant) && Usable(contentHash, request, c.grant, c.at)
      && Usable(contentHash, request, c.grant, now)
    ensures r.DeliveredUnverified? ==> |calls| == 1 && calls[0].wire.Replies? && Valid(calls[0].wire.reply, r.quota)
    ensures ValidateGrant(contentHash, request, old(host.grant), now).Some? ==> r.Rejected? && calls == []
    ensures gateRaises ==> r.Rejected?
  {
    hide ValidateGrant, WellFormed, Usable, Valid;
    calls := [];
    if legacyLookup {
      return Rejected(HostUnavailable), calls;
    }
    if !hasGate {
      return Rejected(GateUnavailable), calls;
    }
    if !hasTransport {
      return Rejected(TransportUnavailable), calls;
    }
    var refused := ValidateRequest(contentHash, request);
    if refused.Some? {
      return Rejected(refused.value), calls;
    }
    var entry := host.LookupGrant(request.grantRef);
    if entry.None? {
      return Rejected(GrantUnavailable), calls;
    }
    refused := ValidateGrant(contentHash, request, entry.value, now);
    if refused.Some? {
      return Rejected(refused.value), calls;
    }
    AcceptedMeansUsable(contentHash, request, entry.value, now);
    var execution := new Execution(contentHash, request, host, entry.value, now);
    EveryScriptIsDisciplined(contentHash, request, entry.value, execution.Snapshot(), script);
    execution.Dispatch(script);
    calls := execution.calls;
    if gateRaises {
      return Rejected(DispatchUnverified), calls;
    }
    if execution.result.None? {
      return Unverified, calls;
    }
    return DeliveredUnverified(execution.result.value), calls;
  }
}

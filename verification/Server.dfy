/** The snapshot table of one vault, and the transactions that append revisions to it. */
module Server {
  import opened Common
  import opened Bytes
  import opened ManifestModel
  import opened SnapshotCheck
  import opened SealedManifests

  datatype Row = Row(header: Header, contents: Contents, sealed: Option<SealedManifest>)

  datatype Refusal = LostRace(currentRevision: int) | Unprocessable | Aborted

  function RevisionOf(current: Option<Row>): int {
    if current.Some? then current.value.header.revision else 0
  }

  function GenerationOf(current: Option<Row>): int {
    if current.Some? then current.value.header.vaultKeyVersion else 0
  }

  predicate HasMaster(c: Contents) {
    exists v :: v in c.envelopes && v.kind == Master
  }

  predicate CarriesRevoked(c: Contents, revoked: set<seq<byte>>) {
    exists v :: v in c.envelopes && v.kind == Device && v.deviceId.Some? && v.deviceId.value in revoked
  }

  // ---- commit_snapshot's checks, in order ----

  function Precheck(p: Payload): Option<Refusal> {
    if p.header.cryptoProtocolVersion != 1 || p.header.revision < 1
      || p.header.vaultKeyVersion < 1 then Some(Unprocessable)
    else if !HasMaster(p.contents) then Some(Unprocessable)
    else None
  }

  /** Compare-and-swap and the checks made while the vault row is locked. */
  function CasCheck(current: Option<Row>, revoked: set<seq<byte>>, p: Payload): Option<Refusal> {
    var n := RevisionOf(current);
    var expected := if p.expectedRevision.None? then n else p.expectedRevision.value;
    if expected != n || p.header.revision != n + 1 then Some(LostRace(n))
    else if p.header.vaultKeyVersion < GenerationOf(current) then Some(Unprocessable)
    else if n >= 1 && p.sealed.None? then Some(Unprocessable)
    else if CarriesRevoked(p.contents, revoked) then Some(Unprocessable)
    else None
  }

  /** The shape rules of _envelope_from_wire. */
  predicate Writable(v: KeyEnvelope) {
    && (v.kind == Device ==> v.deviceId.Some? && v.deviceId.value != [])
    && (v.kind == Master <==> v.kdf.Some?)
    && (v.kind != Device ==> v.deviceId.None?)
  }

  predicate AllWritable(c: Contents) {
    forall v :: v in c.envelopes ==> Writable(v)
  }

  function WriteCheck(p: Payload): Option<Refusal> {
    if AllWritable(p.contents) then None else Some(Unprocessable)
  }

  function RowOf(p: Payload): Row {
    Row(p.header, p.contents, p.sealed)
  }

  // ---- Transactions, one step at a time ----

  type Edit = Contents -> Contents

  const EMPTY := Contents([], [])

  datatype Phase =
    | Started
    | Locked(current: Option<Row>)
    | Checked(current: Option<Row>)
    | Inserted(current: Option<Row>, id: nat)
    | Written(current: Option<Row>, id: nat)
    | Flipped(current: Option<Row>, id: nat)
    | Stored(revision: int)
    | Refused(reason: Refusal)

  /** `edit` is what the client did to the contents of the revision below the one it asks for. */
  datatype Tx = Tx(payload: Payload, edit: Edit, phase: Phase)

  /** Committed state, the row lock, and the transactions under way; `accepted` is a history variable. */
  datatype State = State(
    rows: map<nat, Row>, active: Option<nat>, revoked: set<seq<byte>>, holder: Option<nat>, txs: map<nat, Tx>,
    accepted: seq<Edit>)

  const INITIAL := State(map[], None, {}, None, map[], [])

  datatype Event =
    | Begin(t: nat, payload: Payload, edit: Edit)
    | TakeLock(t: nat)
    | Check(t: nat)
    | Insert(t: nat, id: nat)
    | Write(t: nat)
    | Flip(t: nat)
    | Commit(t: nat)
    | Abort(t: nat)
    | ChangeRevoked(revoked: set<seq<byte>>)

  function RowAt(rows: map<nat, Row>, active: Option<nat>): Option<Row> {
    if active.Some? && active.value in rows then Some(rows[active.value]) else None
  }

  function CurrentRow(s: State): Option<Row> {
    RowAt(s.rows, s.active)
  }

  predicate Pending(phase: Phase) {
    phase.Inserted? || phase.Written? || phase.Flipped?
  }

  predicate Locking(phase: Phase) {
    phase.Locked? || phase.Checked? || Pending(phase)
  }

  predicate RevisionStored(rows: map<nat, Row>, revision: int) {
    exists id :: id in rows && rows[id].header.revision == revision
  }

  /**
   * The payload is the edit of the row it was read from, or of nothing; a constant edit stands for an arbitrary
   * payload.
   */
  ghost predicate Derived(rows: map<nat, Row>, p: Payload, edit: Edit) {
    || (forall c :: edit(c) == p.contents)
    || (p.header.revision == 1 && edit(EMPTY) == p.contents)
    || (exists id ::
          id in rows && rows[id].header.revision == p.header.revision - 1 && edit(rows[id].contents) == p.contents)
  }

  function Moved(s: State, t: nat, phase: Phase): State
    requires t in s.txs
  {
    s.(txs := s.txs[t := s.txs[t].(phase := phase)])
  }

  /** Rollback or commit: the lock goes, the outcome stays. */
  function Ended(s: State, t: nat, phase: Phase): State
    requires t in s.txs
  {
    Moved(s, t, phase).(holder := if s.holder == Some(t) then None else s.holder)
  }

  /**
   * One step; None if it cannot happen. With `exclusive` off the row lock excludes nobody,
   * and only the unique constraint on (vault, revision) stands between two writers.
   */
  ghost function After(exclusive: bool, s: State, e: Event): Option<State> {
    match e
    case Begin(t, p, edit) =>
      if t in s.txs || !Derived(s.rows, p, edit) then None
      else Some(s.(txs := s.txs[t := Tx(p, edit, if Precheck(p).Some? then Refused(Precheck(p).value) else Started)]))
    case TakeLock(t) =>
      if t !in s.txs || s.txs[t].phase != Started || (exclusive && s.holder.Some?) then None
      else Some(Moved(s, t, Locked(CurrentRow(s))).(holder := if exclusive then Some(t) else s.holder))
    case Check(t) =>
      if t !in s.txs || !s.txs[t].phase.Locked? then None
      else
        var current := s.txs[t].phase.current;
        var refusal := CasCheck(current, s.revoked, s.txs[t].payload);
        Some(if refusal.Some? then Ended(s, t, Refused(refusal.value)) else Moved(s, t, Checked(current)))
    case Insert(t, id) =>
      if t !in s.txs || !s.txs[t].phase.Checked? || id in s.rows || Reserved(s, t, id) then None
      else
        var current := s.txs[t].phase.current;
        Some(if RevisionStored(s.rows, s.txs[t].payload.header.revision)
             then Ended(s, t, Refused(LostRace(RevisionOf(current))))
             else Moved(s, t, Inserted(current, id)))
    case Write(t) =>
      if t !in s.txs || !s.txs[t].phase.Inserted? then None
      else
        var refusal := WriteCheck(s.txs[t].payload);
        Some(if refusal.Some? then Ended(s, t, Refused(refusal.value))
             else Moved(s, t, Written(s.txs[t].phase.current, s.txs[t].phase.id)))
    case Flip(t) =>
      if t !in s.txs || !s.txs[t].phase.Written? then None
      else Some(Moved(s, t, Flipped(s.txs[t].phase.current, s.txs[t].phase.id)))
    case Commit(t) =>
      if t !in s.txs || !s.txs[t].phase.Flipped? then None
      else
        var tx := s.txs[t];
        Some(Ended(s, t, Stored(tx.payload.header.revision)).(
          rows := s.rows[tx.phase.id := RowOf(tx.payload)], active := Some(tx.phase.id),
          accepted := s.accepted + [tx.edit]))
    case Abort(t) =>
      if t !in s.txs || s.txs[t].phase.Stored? || s.txs[t].phase.Refused? then None
      else Some(Ended(s, t, Refused(Aborted)))
    case ChangeRevoked(revoked) => Some(s.(revoked := revoked))
  }

  /** An uncommitted row with the same revision makes the insert wait; a taken id is never drawn. */
  ghost predicate Reserved(s: State, t: nat, id: nat)
    requires t in s.txs
  {
    exists u :: u in s.txs && u != t && Pending(s.txs[u].phase)
      && (s.txs[u].phase.id == id || s.txs[u].payload.header.revision == s.txs[t].payload.header.revision)
  }

  ghost function AfterAll(exclusive: bool, events: seq<Event>): Option<State> {
    if events == [] then Some(INITIAL)
    else
      var before :- AfterAll(exclusive, events[..|events| - 1]);
      After(exclusive, before, events[|events| - 1])
  }

  // ---- The invariant ----

  function Replay(edits: seq<Edit>): Contents {
    if edits == [] then EMPTY else edits[|edits| - 1](Replay(edits[..|edits| - 1]))
  }

  /** Rows 1..N, one each, the pointer on N, generations never going down, row n the replay of the first n edits. */
  ghost predicate Chain(rows: map<nat, Row>, active: Option<nat>, accepted: seq<Edit>) {
    && (active.None? <==> accepted == [])
    && (active.Some? ==> active.value in rows && rows[active.value].header.revision == |accepted|)
    && (forall id :: id in rows ==> 1 <= rows[id].header.revision <= |accepted|)
    && (forall n: int :: 1 <= n <= |accepted| ==> RevisionStored(rows, n))
    && (forall a, b :: a in rows && b in rows && rows[a].header.revision == rows[b].header.revision ==> a == b)
    && (forall a, b :: a in rows && b in rows && rows[a].header.revision <= rows[b].header.revision ==>
          rows[a].header.vaultKeyVersion <= rows[b].header.vaultKeyVersion)
    && (forall id :: id in rows ==> RowOk(rows[id], accepted))
  }

  ghost predicate RowOk(row: Row, accepted: seq<Edit>) {
    && HasMaster(row.contents) && AllWritable(row.contents) && (row.header.revision > 1 ==> row.sealed.Some?)
    && 1 <= row.header.revision <= |accepted| && row.contents == Replay(accepted[..row.header.revision])
  }

  ghost predicate TxOk(exclusive: bool, s: State, t: nat)
    requires t in s.txs
  {
    var tx := s.txs[t];
    && (!tx.phase.Refused? && !tx.phase.Stored? ==> Precheck(tx.payload).None? && Derived(s.rows, tx.payload, tx.edit))
    && (Locking(tx.phase) ==> RevisionOf(tx.phase.current) <= |s.accepted|)
    && (Locking(tx.phase) && exclusive ==> s.holder == Some(t) && RevisionOf(tx.phase.current) == |s.accepted|)
    && (Locking(tx.phase) && RevisionOf(tx.phase.current) == |s.accepted| ==> tx.phase.current == CurrentRow(s))
    && (tx.phase.Checked? || Pending(tx.phase) ==> CasCheck(tx.phase.current, {}, tx.payload).None?)
    && (Pending(tx.phase) ==> RevisionOf(tx.phase.current) == |s.accepted| && tx.phase.id !in s.rows)
    && (tx.phase.Written? || tx.phase.Flipped? ==> WriteCheck(tx.payload).None?)
    && (tx.phase.Stored? ==> 1 <= tx.phase.revision <= |s.accepted| && s.accepted[tx.phase.revision - 1] == tx.edit)
  }

  ghost predicate Inv(exclusive: bool, s: State) {
    && Chain(s.rows, s.active, s.accepted)
    && (forall t :: t in s.txs ==> TxOk(exclusive, s, t))
    && (forall t, u :: t in s.txs && u in s.txs && t != u ==> Apart(s.txs[t].phase, s.txs[u].phase))
    && (forall n: int :: 1 <= n <= |s.accepted| ==> Credited(s.txs, n))
  }

  ghost predicate Credited(txs: map<nat, Tx>, revision: int) {
    exists t :: t in txs && txs[t].phase == Stored(revision)
  }

  /** Two transactions never hold one revision, and never have rows pending at the same time. */
  predicate Apart(a: Phase, b: Phase) {
    !(a.Stored? && b.Stored? && a.revision == b.revision) && !(Pending(a) && Pending(b))
  }

  lemma InitialHolds(exclusive: bool)
    ensures Inv(exclusive, INITIAL)
  {
  }

  lemma BeginKeeps(exclusive: bool, s: State, t: nat, p: Payload, edit: Edit)
    requires Inv(exclusive, s) && After(exclusive, s, Begin(t, p, edit)).Some?
    ensures Inv(exclusive, After(exclusive, s, Begin(t, p, edit)).value)
  {
    hide Chain, Derived, CasCheck, Precheck;
    var s' := After(exclusive, s, Begin(t, p, edit)).value;
    forall u | u in s'.txs ensures TxOk(exclusive, s', u) {
      assert u != t ==> TxOk(exclusive, s, u);
    }
    CreditStays(s.txs, s'.txs, |s.accepted|);
  }

  lemma CreditStays(before: map<nat, Tx>, after: map<nat, Tx>, n: int)
    requires forall k: int :: 1 <= k <= n ==> Credited(before, k)
    requires forall t :: t in before && before[t].phase.Stored? ==> t in after && after[t] == before[t]
    ensures forall k: int :: 1 <= k <= n ==> Credited(after, k)
  {
    forall k: int | 1 <= k <= n ensures Credited(after, k) {
      assert Credited(before, k);
      var t :| t in before && before[t].phase == Stored(k);
      assert t in after;
    }
  }

  /** A step that only moves transaction t, and at most hands over the lock. */
  lemma MoveKeeps(exclusive: bool, s: State, s': State, t: nat, phase: Phase, holder: Option<nat>)
    requires Inv(exclusive, s) && t in s.txs && s' == Moved(s, t, phase).(holder := holder)
    requires exclusive && holder != s.holder ==> forall u :: u in s.txs && u != t ==> !Locking(s.txs[u].phase)
    requires TxOk(exclusive, s', t) && !phase.Stored? && !s.txs[t].phase.Stored?
    requires forall u :: u in s.txs && u != t ==> Apart(phase, s.txs[u].phase) && Apart(s.txs[u].phase, phase)
    ensures Inv(exclusive, s')
  {
    hide Chain, Derived, CasCheck, Precheck;
    forall u | u in s'.txs ensures TxOk(exclusive, s', u) {
      assert u != t ==> TxOk(exclusive, s, u);
    }
    CreditStays(s.txs, s'.txs, |s.accepted|);
  }

  /** In exclusive mode only the holder is past the lock. */
  lemma OnlyTheHolder(s: State, t: nat)
    requires Inv(true, s) && (s.holder == Some(t) || s.holder.None?)
    ensures forall u :: u in s.txs && u != t ==> !Locking(s.txs[u].phase)
  {
    hide Chain, Derived, CasCheck, Precheck;
    forall u | u in s.txs && u != t ensures !Locking(s.txs[u].phase) {
      assert TxOk(true, s, u);
    }
  }

  lemma EndKeeps(exclusive: bool, s: State, t: nat, reason: Refusal)
    requires Inv(exclusive, s) && t in s.txs && !s.txs[t].phase.Stored?
    ensures Inv(exclusive, Ended(s, t, Refused(reason)))
  {
    hide Chain, Derived, CasCheck, Precheck;
    if exclusive && s.holder == Some(t) {
      OnlyTheHolder(s, t);
    }
    MoveKeeps(exclusive, s, Ended(s, t, Refused(reason)), t, Refused(reason),
      if s.holder == Some(t) then None else s.holder);
  }

  lemma LockKeeps(exclusive: bool, s: State, t: nat)
    requires Inv(exclusive, s) && After(exclusive, s, TakeLock(t)).Some?
    ensures Inv(exclusive, After(exclusive, s, TakeLock(t)).value)
  {
    hide Derived, CasCheck, Precheck;
    var s' := After(exclusive, s, TakeLock(t)).value;
    if exclusive {
      OnlyTheHolder(s, t);
    }
    assert TxOk(exclusive, s, t);
    MoveKeeps(exclusive, s, s', t, Locked(CurrentRow(s)), s'.holder);
  }

  lemma CheckKeeps(exclusive: bool, s: State, t: nat)
    requires Inv(exclusive, s) && After(exclusive, s, Check(t)).Some?
    ensures Inv(exclusive, After(exclusive, s, Check(t)).value)
  {
    hide Chain, Derived, Precheck;
    var s', current := After(exclusive, s, Check(t)).value, s.txs[t].phase.current;
    assert TxOk(exclusive, s, t);
    if CasCheck(current, s.revoked, s.txs[t].payload).Some? {
      EndKeeps(exclusive, s, t, CasCheck(current, s.revoked, s.txs[t].payload).value);
    } else {
      MoveKeeps(exclusive, s, s', t, Checked(current), s.holder);
    }
  }

  /** Whoever passes the unique constraint read the newest revision, so nobody else can be pending. */
  lemma InsertKeeps(exclusive: bool, s: State, t: nat, id: nat)
    requires Inv(exclusive, s) && After(exclusive, s, Insert(t, id)).Some?
    ensures Inv(exclusive, After(exclusive, s, Insert(t, id)).value)
  {
    hide Derived;
    var s', tx := After(exclusive, s, Insert(t, id)).value, s.txs[t];
    var n := RevisionOf(tx.phase.current);
    assert TxOk(exclusive, s, t);
    assert n < |s.accepted| ==> RevisionStored(s.rows, n + 1);
    if RevisionStored(s.rows, tx.payload.header.revision) {
      EndKeeps(exclusive, s, t, LostRace(n));
    } else {
      forall u | u in s.txs && u != t ensures !Pending(s.txs[u].phase) {
        assert TxOk(exclusive, s, u);
        assert !Reserved(s, t, id);
      }
      MoveKeeps(exclusive, s, s', t, Inserted(tx.phase.current, id), s.holder);
    }
  }

  lemma WriteKeeps(exclusive: bool, s: State, t: nat)
    requires Inv(exclusive, s) && After(exclusive, s, Write(t)).Some?
    ensures Inv(exclusive, After(exclusive, s, Write(t)).value)
  {
    hide Chain, Derived, Precheck, CasCheck;
    assert TxOk(exclusive, s, t);
    var phase := s.txs[t].phase;
    if WriteCheck(s.txs[t].payload).Some? {
      EndKeeps(exclusive, s, t, WriteCheck(s.txs[t].payload).value);
    } else {
      MoveKeeps(exclusive, s, After(exclusive, s, Write(t)).value, t, Written(phase.current, phase.id), s.holder);
    }
  }

  lemma FlipKeeps(exclusive: bool, s: State, t: nat)
    requires Inv(exclusive, s) && After(exclusive, s, Flip(t)).Some?
    ensures Inv(exclusive, After(exclusive, s, Flip(t)).value)
  {
    hide Chain, Derived, Precheck, CasCheck;
    assert TxOk(exclusive, s, t);
    var phase := s.txs[t].phase;
    MoveKeeps(exclusive, s, After(exclusive, s, Flip(t)).value, t, Flipped(phase.current, phase.id), s.holder);
  }

  lemma ReplayOfPrefix(edits: seq<Edit>, edit: Edit, n: int)
    requires 0 <= n <= |edits|
    ensures Replay((edits + [edit])[..n]) == Replay(edits[..n])
    ensures Replay(edits + [edit]) == edit(Replay(edits))
  {
    assert (edits + [edit])[..n] == edits[..n];
    assert (edits + [edit])[..|edits|] == edits;
  }

  lemma RowStaysOk(row: Row, accepted: seq<Edit>, edit: Edit)
    requires RowOk(row, accepted)
    ensures RowOk(row, accepted + [edit])
  {
    ReplayOfPrefix(accepted, edit, row.header.revision);
  }

  /** The payload of a pending transaction is its edit of the newest row. */
  lemma PendingIsNext(exclusive: bool, s: State, t: nat)
    requires Inv(exclusive, s) && t in s.txs && Pending(s.txs[t].phase)
    ensures var p := s.txs[t].payload;
      && p.header.revision == |s.accepted| + 1 && p.contents == s.txs[t].edit(Replay(s.accepted))
      && p.header.vaultKeyVersion >= GenerationOf(CurrentRow(s)) && HasMaster(p.contents)
      && (p.header.revision > 1 ==> p.sealed.Some?)
  {
    assert TxOk(exclusive, s, t);
    var tx := s.txs[t];
    var n := |s.accepted|;
    assert s.accepted[..n] == s.accepted;
    if exists id ::
      id in s.rows && s.rows[id].header.revision == n && tx.edit(s.rows[id].contents) == tx.payload.contents
    {
      var id :| id in s.rows && s.rows[id].header.revision == n && tx.edit(s.rows[id].contents) == tx.payload.contents;
      assert RowOk(s.rows[id], s.accepted);
    }
  }

  lemma CommitExtendsChain(rows: map<nat, Row>, active: Option<nat>, accepted: seq<Edit>, id: nat, row: Row, edit: Edit)
    requires Chain(rows, active, accepted) && id !in rows
    requires row.header.revision == |accepted| + 1 && row.contents == edit(Replay(accepted))
    requires HasMaster(row.contents) && AllWritable(row.contents) && (row.header.revision > 1 ==> row.sealed.Some?)
    requires active.Some? ==> row.header.vaultKeyVersion >= rows[active.value].header.vaultKeyVersion
    ensures Chain(rows[id := row], Some(id), accepted + [edit])
  {
    hide RowOk;
    var rows', accepted' := rows[id := row], accepted + [edit];
    assert accepted'[..|accepted'|] == accepted';
    ReplayOfPrefix(accepted, edit, |accepted|);
    assert RowOk(row, accepted') by {
      NewRowOk(row, accepted, edit);
    }
    forall k | k in rows' ensures RowOk(rows'[k], accepted') {
      if k != id {
        RowStaysOk(rows[k], accepted, edit);
      }
    }
    forall n: int | 1 <= n <= |accepted'| ensures RevisionStored(rows', n) {
      if n <= |accepted| {
        assert RevisionStored(rows, n);
        var k :| k in rows && rows[k].header.revision == n;
        assert k in rows' && rows'[k].header.revision == n;
      } else {
        assert id in rows' && rows'[id].header.revision == n;
      }
    }
  }

  lemma NewRowOk(row: Row, accepted: seq<Edit>, edit: Edit)
    requires row.header.revision == |accepted| + 1 && row.contents == edit(Replay(accepted))
    requires HasMaster(row.contents) && AllWritable(row.contents) && (row.header.revision > 1 ==> row.sealed.Some?)
    ensures RowOk(row, accepted + [edit])
  {
    var accepted' := accepted + [edit];
    assert accepted'[..|accepted'|] == accepted';
    ReplayOfPrefix(accepted, edit, |accepted|);
  }

  lemma CommitKeeps(exclusive: bool, s: State, t: nat)
    requires Inv(exclusive, s) && After(exclusive, s, Commit(t)).Some?
    ensures Inv(exclusive, After(exclusive, s, Commit(t)).value)
  {
    hide Chain, Precheck, CasCheck, HasMaster, Derived, Replay, AllWritable;
    var s', tx := After(exclusive, s, Commit(t)).value, s.txs[t];
    assert TxOk(exclusive, s, t);
    PendingIsNext(exclusive, s, t);
    assert AllWritable(tx.payload.contents);
    ActiveIsStored(s.rows, s.active, s.accepted);
    CommitExtendsChain(s.rows, s.active, s.accepted, tx.phase.id, RowOf(tx.payload), tx.edit);
    if exclusive {
      OnlyTheHolder(s, t);
    }
    forall u | u in s'.txs ensures TxOk(exclusive, s', u) {
      if u != t {
        assert TxOk(exclusive, s, u);
        DerivedStays(s.rows, s.txs[u].payload, s.txs[u].edit, tx.phase.id, RowOf(tx.payload));
      }
    }
    forall u | u in s'.txs && u != t
      ensures Apart(s'.txs[t].phase, s'.txs[u].phase) && Apart(s'.txs[u].phase, s'.txs[t].phase)
    {
      assert TxOk(exclusive, s, u) && Apart(s.txs[t].phase, s.txs[u].phase);
    }
    CreditStays(s.txs, s'.txs, |s.accepted|);
    assert Credited(s'.txs, |s'.accepted|) by {
      assert s'.txs[t].phase == Stored(|s'.accepted|);
    }
  }

  lemma ActiveIsStored(rows: map<nat, Row>, active: Option<nat>, accepted: seq<Edit>)
    requires Chain(rows, active, accepted)
    ensures active.Some? ==> active.value in rows && rows[active.value].header.revision == |accepted|
    ensures active.None? ==> accepted == []
  {
  }

  lemma DerivedStays(rows: map<nat, Row>, p: Payload, edit: Edit, id: nat, row: Row)
    requires id !in rows
    ensures Derived(rows, p, edit) ==> Derived(rows[id := row], p, edit)
  {
    if exists k ::
      k in rows && rows[k].header.revision == p.header.revision - 1 && edit(rows[k].contents) == p.contents
    {
      var k :| k in rows && rows[k].header.revision == p.header.revision - 1 && edit(rows[k].contents) == p.contents;
      assert k in rows[id := row] && rows[id := row][k] == rows[k];
    }
  }

  lemma StepKeeps(exclusive: bool, s: State, e: Event)
    requires Inv(exclusive, s) && After(exclusive, s, e).Some?
    ensures Inv(exclusive, After(exclusive, s, e).value)
  {
    hide Chain, Derived, Precheck, CasCheck, WriteCheck;
    match e
    case Begin(t, p, edit) => BeginKeeps(exclusive, s, t, p, edit);
    case TakeLock(t) => LockKeeps(exclusive, s, t);
    case Check(t) => CheckKeeps(exclusive, s, t);
    case Insert(t, id) => InsertKeeps(exclusive, s, t, id);
    case Write(t) => WriteKeeps(exclusive, s, t);
    case Flip(t) => FlipKeeps(exclusive, s, t);
    case Commit(t) => CommitKeeps(exclusive, s, t);
    case Abort(t) => EndKeeps(exclusive, s, t, Aborted);
    case ChangeRevoked(revoked) =>
      forall u | u in s.txs ensures TxOk(exclusive, s.(revoked := revoked), u) {
        assert TxOk(exclusive, s, u);
      }
  }

  /** In every interleaving, with the row lock or on the unique constraint alone, the invariant holds. */
  lemma {:induction false} EveryRunKeepsTheChain(exclusive: bool, events: seq<Event>)
    requires AfterAll(exclusive, events).Some?
    ensures Inv(exclusive, AfterAll(exclusive, events).value)
  {
    hide Inv, After;
    if events == [] {
      InitialHolds(exclusive);
    } else {
      EveryRunKeepsTheChain(exclusive, events[..|events| - 1]);
      StepKeeps(exclusive, AfterAll(exclusive, events[..|events| - 1]).value, events[|events| - 1]);
    }
  }

  // ---- What the invariant means for readers and writers ----

  /** Rows are never changed or deleted, and history is only appended to. */
  ghost predicate Extends(before: State, after: State) {
    && (forall id :: id in before.rows ==> id in after.rows && after.rows[id] == before.rows[id])
    && before.accepted <= after.accepted
  }

  lemma StepExtends(exclusive: bool, s: State, e: Event)
    requires Inv(exclusive, s) && After(exclusive, s, e).Some?
    ensures Extends(s, After(exclusive, s, e).value)
  {
    hide Chain, Derived, Precheck, CasCheck, WriteCheck, Reserved;
    if e.Commit? {
      assert TxOk(exclusive, s, e.t);
    }
  }

  lemma {:induction false} StoredRowsNeverChange(exclusive: bool, events: seq<Event>, k: nat)
    requires k <= |events| && AfterAll(exclusive, events).Some?
    ensures AfterAll(exclusive, events[..k]).Some?
    ensures Extends(AfterAll(exclusive, events[..k]).value, AfterAll(exclusive, events).value)
  {
    hide After, Inv;
    if k == |events| {
      assert events[..k] == events;
    } else {
      var front := events[..|events| - 1];
      EveryRunKeepsTheChain(exclusive, front);
      StepExtends(exclusive, AfterAll(exclusive, front).value, events[|events| - 1]);
      StoredRowsNeverChange(exclusive, front, k);
      assert front[..k] == events[..k];
    }
  }

  /** With the row lock the unique constraint is never the one to refuse. */
  lemma UniqueConstraintNeverFires(events: seq<Event>, t: nat, id: nat)
    requires AfterAll(true, events).Some? && After(true, AfterAll(true, events).value, Insert(t, id)).Some?
    ensures !RevisionStored(AfterAll(true, events).value.rows,
      AfterAll(true, events).value.txs[t].payload.header.revision)
  {
    hide AfterAll, Derived, Precheck;
    EveryRunKeepsTheChain(true, events);
    var s := AfterAll(true, events).value;
    assert TxOk(true, s, t);
  }

  /** A refusal leaves the stored revisions, the pointer and the history exactly as they were. */
  lemma RefusalsChangeNothing(exclusive: bool, s: State, e: Event, t: nat)
    requires After(exclusive, s, e).Some? && t in After(exclusive, s, e).value.txs
    requires After(exclusive, s, e).value.txs[t].phase.Refused? && (t !in s.txs || !s.txs[t].phase.Refused?)
    ensures var s' := After(exclusive, s, e).value;
      s'.rows == s.rows && s'.active == s.active && s'.accepted == s.accepted
  {
    hide Derived, Precheck, CasCheck, WriteCheck, Reserved;
  }

  /**
   * No lost update: the head is the replay of the accepted edits, one per revision, each of them the edit of
   * exactly one stored transaction, made to the revision right below its own.
   */
  lemma HistoryIsLinear(exclusive: bool, events: seq<Event>)
    requires AfterAll(exclusive, events).Some?
    ensures var s := AfterAll(exclusive, events).value;
      && (s.active.Some? ==> s.active.value in s.rows && s.rows[s.active.value].contents == Replay(s.accepted))
      && (forall t :: t in s.txs && s.txs[t].phase.Stored? ==>
            1 <= s.txs[t].phase.revision <= |s.accepted| && s.accepted[s.txs[t].phase.revision - 1] == s.txs[t].edit)
      && (forall t, u :: t in s.txs && u in s.txs && t != u ==> Apart(s.txs[t].phase, s.txs[u].phase))
      && (forall n: int :: 1 <= n <= |s.accepted| ==> Credited(s.txs, n))
  {
    hide AfterAll, Derived, Precheck, CasCheck;
    EveryRunKeepsTheChain(exclusive, events);
    var s := AfterAll(exclusive, events).value;
    forall t | t in s.txs && s.txs[t].phase.Stored?
      ensures 1 <= s.txs[t].phase.revision <= |s.accepted| && s.accepted[s.txs[t].phase.revision - 1] == s.txs[t].edit
    {
      assert TxOk(exclusive, s, t);
    }
    if s.active.Some? {
      assert RowOk(s.rows[s.active.value], s.accepted);
      assert s.accepted[..|s.accepted|] == s.accepted;
    }
  }

  /** Of the transactions outside `known`, none that got past the checks carries an envelope for the device. */
  ghost predicate NoneFor(s: State, deviceId: seq<byte>, known: set<nat>) {
    forall t | t in s.txs && t !in known ::
      s.txs[t].phase.Checked? || Pending(s.txs[t].phase) || s.txs[t].phase.Stored? ==>
        !CarriesRevoked(s.txs[t].payload.contents, {deviceId})
  }

  lemma StepKeepsNone(exclusive: bool, s: State, e: Event, deviceId: seq<byte>, known: set<nat>)
    requires NoneFor(s, deviceId, known) && deviceId in s.revoked && After(exclusive, s, e).Some?
    ensures NoneFor(After(exclusive, s, e).value, deviceId, known)
  {
    hide Derived, Precheck, WriteCheck, Reserved;
    if e.Check? {
      RevokedOneOrMore(s.txs[e.t].payload.contents, deviceId, s.revoked);
    }
  }

  lemma RevokedOneOrMore(c: Contents, deviceId: seq<byte>, revoked: set<seq<byte>>)
    requires deviceId in revoked
    ensures CarriesRevoked(c, {deviceId}) ==> CarriesRevoked(c, revoked)
  {
  }

  /** Once a device is revoked, and while it stays so, no transaction begun since stores an envelope for it. */
  lemma {:induction false} RevokedDevicesStayOut(exclusive: bool, events: seq<Event>, k: nat, deviceId: seq<byte>)
    requires k <= |events|
    requires forall j :: k <= j <= |events| ==>
      AfterAll(exclusive, events[..j]).Some? && deviceId in AfterAll(exclusive, events[..j]).value.revoked
    ensures AfterAll(exclusive, events).Some? && AfterAll(exclusive, events[..k]).Some?
    ensures NoneFor(AfterAll(exclusive, events).value, deviceId, AfterAll(exclusive, events[..k]).value.txs.Keys)
    decreases |events|
  {
    hide After;
    assert events[..|events|] == events;
    if k < |events| {
      hide NoneFor;
      var front := events[..|events| - 1];
      forall j | k <= j <= |front|
        ensures AfterAll(exclusive, front[..j]).Some? && deviceId in AfterAll(exclusive, front[..j]).value.revoked
      {
        assert front[..j] == events[..j];
      }
      assert front[..k] == events[..k] && events[..|front|] == front;
      RevokedDevicesStayOut(exclusive, front, k, deviceId);
      StepKeepsNone(exclusive, AfterAll(exclusive, front).value, events[|events| - 1], deviceId,
        AfterAll(exclusive, events[..k]).value.txs.Keys);
    }
  }

  /** What list_revisions selects: every row once, newest first. */
  ghost predicate ListsAll(rows: map<nat, Row>, ids: seq<nat>) {
    && (forall id :: id in rows ==> id in ids)
    && (forall i :: 0 <= i < |ids| ==> ids[i] in rows)
    && (forall i, j :: 0 <= i < j < |ids| ==> ids[i] != ids[j])
    && (forall i, j :: 0 <= i < j < |ids| ==> rows[ids[i]].header.revision >= rows[ids[j]].header.revision)
  }

  lemma IndexOfRevision(rows: map<nat, Row>, ids: seq<nat>, n: int) returns (i: nat)
    requires ListsAll(rows, ids) && RevisionStored(rows, n)
    ensures i < |ids| && rows[ids[i]].header.revision == n
  {
    var id :| id in rows && rows[id].header.revision == n;
    assert id in ids;
    i :| i < |ids| && ids[i] == id;
  }

  lemma {:induction false} ListingAt(rows: map<nat, Row>, active: Option<nat>, accepted: seq<Edit>, ids: seq<nat>,
      i: nat)
    requires Chain(rows, active, accepted) && ListsAll(rows, ids) && i < |ids|
    ensures rows[ids[i]].header.revision == |accepted| - i
  {
    hide RowOk;
    assert ids[i] in rows && 1 <= rows[ids[i]].header.revision;
    if i > 0 {
      ListingAt(rows, active, accepted, ids, i - 1);
    }
    assert RevisionStored(rows, |accepted| - i);
    var j := IndexOfRevision(rows, ids, |accepted| - i);
  }

  /** The listing is N, N-1, ..., 1. */
  lemma ListingCountsDown(rows: map<nat, Row>, active: Option<nat>, accepted: seq<Edit>, ids: seq<nat>)
    requires Chain(rows, active, accepted) && ListsAll(rows, ids)
    ensures |ids| == |accepted|
    ensures forall i :: 0 <= i < |ids| ==> rows[ids[i]].header.revision == |accepted| - i
  {
    hide RowOk;
    forall i | 0 <= i < |ids| ensures rows[ids[i]].header.revision == |accepted| - i {
      ListingAt(rows, active, accepted, ids, i);
    }
    if ids != [] {
      assert ids[|ids| - 1] in rows;
    }
    if accepted != [] {
      assert RevisionStored(rows, 1);
      var last := IndexOfRevision(rows, ids, 1);
    }
  }

  // ---- commit_snapshot run by itself ----

  datatype Outcome = Accepted(row: Row) | Rejected(reason: Refusal)

  /** The rows of one vault with its pointer, as one session sees them inside the locked transaction. */
  class SnapshotTable {
    var rows: map<nat, Row>
    var active: Option<nat>
    var revoked: set<seq<byte>>
    ghost var accepted: seq<Edit>

    constructor ()
      ensures Valid() && rows == map[] && active == None
    {
      rows, active, revoked, accepted := map[], None, {}, [];
    }

    ghost predicate Valid()
      reads this
    {
      Chain(rows, active, accepted)
    }

    function Current(): Option<Row>
      reads this
    {
      RowAt(rows, active)
    }

    /**
     * The first check that fails decides, and then nothing is stored; otherwise exactly one row is added and becomes
     * the head.
     */
    method CommitSnapshot(p: Payload, id: nat) returns (r: Outcome)
      requires Valid() && id !in rows
      modifies this
      ensures Valid() && revoked == old(revoked)
      ensures var refusal := if Precheck(p).Some? then Precheck(p)
                             else if CasCheck(old(Current()), revoked, p).Some?
                             then CasCheck(old(Current()), revoked, p)
                             else WriteCheck(p);
        if refusal.Some? then r == Rejected(refusal.value) && rows == old(rows) && active == old(active)
        else
          r == Accepted(RowOf(p)) && rows == old(rows)[id := RowOf(p)] && active == Some(id)
          && Current() == Some(RowOf(p))
    {
      hide Chain, Precheck, CasCheck, WriteCheck;
      var refusal := Precheck(p);
      if refusal.Some? {
        return Rejected(refusal.value);
      }
      var current := Current();
      refusal := CasCheck(current, revoked, p);
      if refusal.Some? {
        return Rejected(refusal.value);
      }
      ghost var edit: Edit := _ => p.contents;
      ghost var before := rows;
      rows := rows[id := RowOf(p)];
      refusal := WriteCheck(p);
      if refusal.Some? {
        rows := rows - {id};
        assert rows == before;
        return Rejected(refusal.value);
      }
      CheckedCommitExtends(before, active, revoked, accepted, p, id, edit);
      active, accepted := Some(id), accepted + [edit];
      r := Accepted(RowOf(p));
    }
  }

  /** A payload that passes the checks extends the chain, and its insert cannot violate the unique constraint. */
  lemma CheckedCommitExtends(
    rows: map<nat, Row>, active: Option<nat>, revoked: set<seq<byte>>, accepted: seq<Edit>, p: Payload, id: nat,
    edit: Edit)
    requires Chain(rows, active, accepted) && id !in rows && edit(Replay(accepted)) == p.contents
    requires Precheck(p).None? && CasCheck(RowAt(rows, active), revoked, p).None? && WriteCheck(p).None?
    ensures !RevisionStored(rows, p.header.revision)
    ensures Chain(rows[id := RowOf(p)], Some(id), accepted + [edit])
  {
    hide RowOk, CarriesRevoked, HasMaster, AllWritable, Replay;
    CommitExtendsChain(rows, active, accepted, id, RowOf(p), edit);
  }
}

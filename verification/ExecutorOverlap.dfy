/**
 * Callbacks of one execution that overlap in time: the flag is read and set without a lock, and grant, clock, material,
 * transport and result are touched one after another.
 */
module ExecutorOverlaps {
  import opened Executor
  import opened Common

  /**
   * Where a callback stands: before its test, between test and set, after the set, with the grant looked up, with the
   * grant checked at some time, with the material, with the transport's outcome, or returned or raised.
   */
  datatype Place =
    | Waiting | Passed | Armed | Looked(grant: Grant) | Cleared(at: Time) | Ready(at: Time)
    | Answered(at: Time, wire: Wire) | Done

  /** One step of one callback, or of whoever runs beside it. */
  datatype Step =
    | Test(id: nat) | Arm(id: nat) | Look(id: nat) | Check(id: nat) | Fetch(id: nat) | Transmit(id: nat, wire: Wire)
    | Settle(id: nat) | Exchange(grant: Grant) | Pass(now: Time)

  /** A use of the transport; `call.at` is the time of the check that preceded it. */
  datatype Use = Use(id: nat, call: Call)

  datatype Delivery = Delivery(id: nat, quota: Quota)

  /** `result` is what execute returns in the end; uses and deliveries record how it came about. */
  datatype State = State(
    held: Grant, now: Time, attempted: bool, result: Option<Quota>, places: map<nat, Place>, uses: seq<Use>,
    deliveries: seq<Delivery>)

  function PlaceOf(s: State, id: nat): Place {
    if id in s.places then s.places[id] else Waiting
  }

  function Moved(s: State, id: nat, place: Place): State {
    s.(places := s.places[id := place])
  }

  predicate Accepted(contentHash: Request -> string, r: Request, entry: Grant, grant: Grant, now: Time) {
    ValidateGrant(contentHash, r, grant, now).None? && grant == entry
  }

  function Sent(s: State, id: nat, call: Call): State {
    Moved(s, id, Answered(call.at, call.wire)).(uses := s.uses + [Use(id, call)])
  }

  ghost function Settled(s: State, id: nat, wire: Wire): State {
    if Projected(wire).None? then Moved(s, id, Done)
    else Moved(s, id, Done).(
      result := Projected(wire), deliveries := s.deliveries + [Delivery(id, Projected(wire).value)])
  }

  ghost function After(contentHash: Request -> string, r: Request, entry: Grant, s: State, step: Step): State {
    match step
    case Exchange(grant) => s.(held := grant)
    case Pass(now) => s.(now := now)
    case Test(id) => if !PlaceOf(s, id).Waiting? then s else Moved(s, id, if s.attempted then Done else Passed)
    case Arm(id) => if !PlaceOf(s, id).Passed? then s else Moved(s, id, Armed).(attempted := true)
    case Look(id) =>
      if !PlaceOf(s, id).Armed? then s
      else Moved(s, id, if s.held.reference == r.grantRef then Looked(s.held) else Done)
    case Check(id) =>
      if !PlaceOf(s, id).Looked? then s
      else Moved(s, id, if Accepted(contentHash, r, entry, PlaceOf(s, id).grant, s.now) then Cleared(s.now) else Done)
    case Fetch(id) =>
      if !PlaceOf(s, id).Cleared? then s
      else Moved(s, id, if s.held == entry then Ready(PlaceOf(s, id).at) else Done)
    case Transmit(id, wire) =>
      if !PlaceOf(s, id).Ready? then s else Sent(s, id, Call(entry, PlaceOf(s, id).at, wire))
    case Settle(id) => if !PlaceOf(s, id).Answered? then s else Settled(s, id, PlaceOf(s, id).wire)
  }

  ghost function AfterAll(contentHash: Request -> string, r: Request, entry: Grant, s: State, steps: seq<Step>): State {
    if steps == [] then s
    else After(contentHash, r, entry, AfterAll(contentHash, r, entry, s, steps[..|steps| - 1]), steps[|steps| - 1])
  }

  function Start(entry: Grant, now: Time): State {
    State(entry, now, false, None, map[], [], [])
  }

  predicate TestsNow(s: State, step: Step) {
    step.Test? && PlaceOf(s, step.id).Waiting?
  }

  function NewlyAdmitted(s: State, step: Step): set<nat> {
    if TestsNow(s, step) && !s.attempted then {step.id} else {}
  }

  /** The callbacks that got past the test. */
  ghost function Admitted(contentHash: Request -> string, r: Request, entry: Grant, now: Time, steps: seq<Step>)
    : set<nat>
  {
    if steps == [] then {}
    else
      var before := AfterAll(contentHash, r, entry, Start(entry, now), steps[..|steps| - 1]);
      Admitted(contentHash, r, entry, now, steps[..|steps| - 1]) + NewlyAdmitted(before, steps[|steps| - 1])
  }

  ghost function Users(s: State): set<nat> {
    set u | u in s.uses :: u.id
  }

  // ---- What every interleaving keeps; `admitted` are the callbacks past the test so far ----

  ghost predicate PlacesOk(s: State, admitted: set<nat>) {
    && (forall id :: id in admitted ==> !PlaceOf(s, id).Waiting?)
    && (forall id :: !PlaceOf(s, id).Waiting? && !PlaceOf(s, id).Done? ==> id in admitted)
    && (forall id :: id in admitted && !PlaceOf(s, id).Passed? ==> s.attempted)
    && (s.attempted ==> exists id :: id in admitted && !PlaceOf(s, id).Passed?)
  }

  predicate GoodAt(contentHash: Request -> string, r: Request, entry: Grant, at: Time) {
    WellFormed(r, entry) && Usable(contentHash, r, entry, at)
  }

  predicate IsChecked(p: Place) {
    p.Cleared? || p.Ready? || p.Answered?
  }

  /** Each use is by an admitted callback, at most one by each, for the entry grant, checked as good. */
  ghost predicate UsesOk(contentHash: Request -> string, r: Request, entry: Grant, s: State, admitted: set<nat>) {
    && (forall id :: IsChecked(PlaceOf(s, id)) ==> GoodAt(contentHash, r, entry, PlaceOf(s, id).at))
    && (forall id :: PlaceOf(s, id).Answered? ==>
          Use(id, Call(entry, PlaceOf(s, id).at, PlaceOf(s, id).wire)) in s.uses)
    && (forall u :: u in s.uses ==> u.id in admitted && (PlaceOf(s, u.id).Answered? || PlaceOf(s, u.id).Done?))
    && (forall u :: u in s.uses ==> u.call.grant == entry && GoodAt(contentHash, r, entry, u.call.at))
    && |Users(s)| == |s.uses|
  }

  predicate RepliedWith(u: Use, d: Delivery) {
    u.id == d.id && u.call.wire.Replies? && Valid(u.call.wire.reply, d.quota)
  }

  /** Each delivery is the validated reply of its callback's own use; the last one is the result. */
  ghost predicate DeliveriesOk(s: State) {
    && (forall d :: d in s.deliveries ==> PlaceOf(s, d.id).Done? && exists u :: u in s.uses && RepliedWith(u, d))
    && (forall i, j :: 0 <= i < j < |s.deliveries| ==> s.deliveries[i].id != s.deliveries[j].id)
    && s.result == (if s.deliveries == [] then None else Some(s.deliveries[|s.deliveries| - 1].quota))
  }

  lemma StepKeepsPlaces(contentHash: Request -> string, r: Request, entry: Grant, s: State, step: Step,
      admitted: set<nat>)
    requires PlacesOk(s, admitted)
    ensures PlacesOk(After(contentHash, r, entry, s, step), admitted + NewlyAdmitted(s, step))
  {
    hide Projected, Accepted;
    var t := After(contentHash, r, entry, s, step);
    if step.Exchange? || step.Pass? {
      assert forall id :: PlaceOf(t, id) == PlaceOf(s, id);
    } else {
      assert forall id :: id != step.id ==> PlaceOf(t, id) == PlaceOf(s, id);
    }
  }

  lemma UsersSnoc(s: State, t: State, u: Use)
    requires t.uses == s.uses + [u] && u.id !in Users(s) && |Users(s)| == |s.uses|
    ensures |Users(t)| == |t.uses|
  {
    assert Users(t) == Users(s) + {u.id};
  }

  lemma SameUses(s: State, t: State)
    requires t.uses == s.uses
    ensures Users(t) == Users(s)
  {
  }

  lemma UserIsUsed(s: State, id: nat)
    ensures id in Users(s) <==> exists u :: u in s.uses && u.id == id
  {
  }

  lemma StepKeepsUses(contentHash: Request -> string, r: Request, entry: Grant, s: State, step: Step,
      admitted: set<nat>)
    requires PlacesOk(s, admitted) && UsesOk(contentHash, r, entry, s, admitted)
    ensures UsesOk(contentHash, r, entry, After(contentHash, r, entry, s, step), admitted + NewlyAdmitted(s, step))
  {
    hide ValidateGrant, GoodAt, Users, Projected;
    var t := After(contentHash, r, entry, s, step);
    if step.Exchange? || step.Pass? {
      assert forall id :: PlaceOf(t, id) == PlaceOf(s, id);
    } else {
      assert forall id :: id != step.id ==> PlaceOf(t, id) == PlaceOf(s, id);
    }
    if step.Transmit? && PlaceOf(s, step.id).Ready? {
      UserIsUsed(s, step.id);
      UsersSnoc(s, t, t.uses[|s.uses|]);
    } else {
      SameUses(s, t);
    }
    if step.Check? && PlaceOf(s, step.id).Looked? {
      CheckedIsGood(contentHash, r, entry, PlaceOf(s, step.id).grant, s.now);
    }
  }

  lemma CheckedIsGood(contentHash: Request -> string, r: Request, entry: Grant, grant: Grant, now: Time)
    ensures Accepted(contentHash, r, entry, grant, now) ==> GoodAt(contentHash, r, entry, now)
  {
    hide ValidateGrant, WellFormed, Usable;
    AcceptedMeansUsable(contentHash, r, grant, now);
  }

  lemma ProjectedIsValid(wire: Wire)
    requires Projected(wire).Some?
    ensures wire.Replies? && Valid(wire.reply, Projected(wire).value)
  {
  }

  lemma SameDeliveries(s: State, t: State)
    requires DeliveriesOk(s) && t.deliveries == s.deliveries && t.result == s.result
    requires forall u :: u in s.uses ==> u in t.uses
    requires forall id :: PlaceOf(s, id).Done? ==> PlaceOf(t, id).Done?
    ensures DeliveriesOk(t)
  {
    hide RepliedWith, PlaceOf;
  }

  lemma SettlingKeepsDeliveries(s: State, id: nat, u: Use)
    requires DeliveriesOk(s) && !PlaceOf(s, id).Done? && u in s.uses && u.id == id
    ensures DeliveriesOk(Settled(s, id, u.call.wire))
  {
    hide Projected, Valid;
    var t := Settled(s, id, u.call.wire);
    assert forall other :: other != id ==> PlaceOf(t, other) == PlaceOf(s, other);
    if t.deliveries != s.deliveries {
      ProjectedIsValid(u.call.wire);
      var d := t.deliveries[|s.deliveries|];
      assert RepliedWith(u, d);
      assert forall x :: x in t.deliveries ==> x in s.deliveries || x == d;
      assert forall x :: x in s.deliveries ==> x.id != id;
    }
  }

  lemma StepKeepsDeliveries(contentHash: Request -> string, r: Request, entry: Grant, s: State, step: Step,
      admitted: set<nat>)
    requires UsesOk(contentHash, r, entry, s, admitted) && DeliveriesOk(s)
    ensures DeliveriesOk(After(contentHash, r, entry, s, step))
  {
    hide Accepted, GoodAt, Users, Projected, Settled, DeliveriesOk;
    if step.Settle? && PlaceOf(s, step.id).Answered? {
      var p := PlaceOf(s, step.id);
      SettlingKeepsDeliveries(s, step.id, Use(step.id, Call(entry, p.at, p.wire)));
    } else {
      SameDeliveries(s, After(contentHash, r, entry, s, step));
    }
  }

  lemma {:induction false} EveryInterleavingKeeps(
    contentHash: Request -> string, r: Request, entry: Grant, now: Time, steps: seq<Step>)
    ensures var s := AfterAll(contentHash, r, entry, Start(entry, now), steps);
      var admitted := Admitted(contentHash, r, entry, now, steps);
      PlacesOk(s, admitted) && UsesOk(contentHash, r, entry, s, admitted) && DeliveriesOk(s)
  {
    hide PlacesOk, UsesOk, DeliveriesOk, After, NewlyAdmitted;
    if steps == [] {
      NothingYet(contentHash, r, entry, now);
    } else {
      var front, last := steps[..|steps| - 1], steps[|steps| - 1];
      EveryInterleavingKeeps(contentHash, r, entry, now, front);
      var s := AfterAll(contentHash, r, entry, Start(entry, now), front);
      var admitted := Admitted(contentHash, r, entry, now, front);
      StepKeepsPlaces(contentHash, r, entry, s, last, admitted);
      StepKeepsUses(contentHash, r, entry, s, last, admitted);
      StepKeepsDeliveries(contentHash, r, entry, s, last, admitted);
    }
  }

  lemma NothingYet(contentHash: Request -> string, r: Request, entry: Grant, now: Time)
    ensures PlacesOk(Start(entry, now), {}) && UsesOk(contentHash, r, entry, Start(entry, now), {})
    ensures DeliveriesOk(Start(entry, now))
  {
  }

  // ---- What follows from it ----

  /**
   * However they overlap: each callback past the test uses the transport at most once, for the entry grant and only
   * after a check found it usable.
   */
  lemma UsesAreAdmitted(contentHash: Request -> string, r: Request, entry: Grant, now: Time, steps: seq<Step>)
    ensures var s := AfterAll(contentHash, r, entry, Start(entry, now), steps);
      && |s.uses| <= |Admitted(contentHash, r, entry, now, steps)|
      && (forall u :: u in s.uses ==> u.id in Admitted(contentHash, r, entry, now, steps))
      && (forall u :: u in s.uses ==>
            u.call.grant == entry && WellFormed(r, u.call.grant) && Usable(contentHash, r, u.call.grant, u.call.at))
  {
    hide WellFormed, Usable, PlacesOk, DeliveriesOk;
    EveryInterleavingKeeps(contentHash, r, entry, now, steps);
    var s, admitted := AfterAll(contentHash, r, entry, Start(entry, now), steps),
      Admitted(contentHash, r, entry, now, steps);
    assert Users(s) <= admitted;
    FewerMembers(Users(s), admitted);
  }

  /** Whatever is delivered is the validated reply to a use by a callback past the test: the last one that settled. */
  lemma DeliveredIsAReply(
    contentHash: Request -> string, r: Request, entry: Grant, now: Time, steps: seq<Step>, q: Quota) returns (u: Use)
    requires AfterAll(contentHash, r, entry, Start(entry, now), steps).result == Some(q)
    ensures var s := AfterAll(contentHash, r, entry, Start(entry, now), steps);
      && u in s.uses && u.id in Admitted(contentHash, r, entry, now, steps)
      && u.call.wire.Replies? && Valid(u.call.wire.reply, q)
      && s.deliveries != [] && s.deliveries[|s.deliveries| - 1] == Delivery(u.id, q)
  {
    hide PlacesOk, Valid, GoodAt, Users;
    EveryInterleavingKeeps(contentHash, r, entry, now, steps);
    var s := AfterAll(contentHash, r, entry, Start(entry, now), steps);
    u :| u in s.uses && RepliedWith(u, s.deliveries[|s.deliveries| - 1]);
  }

  lemma FewerMembers(a: set<nat>, b: set<nat>)
    requires a <= b
    ensures |a| <= |b|
  {
    assert |b| == |a| + |b - a| by {
      assert b == a + (b - a);
    }
  }

  /** Some callback reads the flag while another stands between reading and setting it. */
  ghost predicate Overlap(contentHash: Request -> string, r: Request, entry: Grant, now: Time, steps: seq<Step>) {
    exists i, other :: 0 <= i < |steps| && OverlapAt(contentHash, r, entry, now, steps, i, other)
  }

  ghost predicate OverlapAt(
    contentHash: Request -> string, r: Request, entry: Grant, now: Time, steps: seq<Step>, i: int, other: nat)
    requires 0 <= i < |steps|
  {
    var s := AfterAll(contentHash, r, entry, Start(entry, now), steps[..i]);
    TestsNow(s, steps[i]) && PlaceOf(s, other).Passed?
  }

  /** More than one callback gets past the test, exactly if two overlap there. */
  lemma {:induction false} OnlyOverlapsAdmitTwo(
    contentHash: Request -> string, r: Request, entry: Grant, now: Time, steps: seq<Step>)
    ensures |Admitted(contentHash, r, entry, now, steps)| > 1 <==> Overlap(contentHash, r, entry, now, steps)
  {
    hide After, Admitted, OverlapAt;
    if steps == [] {
      NobodyAdmitted(contentHash, r, entry, now);
    } else {
      var front, n := steps[..|steps| - 1], |steps| - 1;
      OnlyOverlapsAdmitTwo(contentHash, r, entry, now, front);
      LastOverlap(contentHash, r, entry, now, steps);
      forall i, other | 0 <= i < n
        ensures OverlapAt(contentHash, r, entry, now, front, i, other)
          == OverlapAt(contentHash, r, entry, now, steps, i, other)
      {
        SameOverlap(contentHash, r, entry, now, steps, i, other);
      }
    }
  }

  lemma NobodyAdmitted(contentHash: Request -> string, r: Request, entry: Grant, now: Time)
    ensures Admitted(contentHash, r, entry, now, []) == {}
  {
  }

  lemma SameOverlap(
    contentHash: Request -> string, r: Request, entry: Grant, now: Time, steps: seq<Step>, i: nat, other: nat)
    requires i < |steps| - 1
    ensures OverlapAt(contentHash, r, entry, now, steps[..|steps| - 1], i, other)
      == OverlapAt(contentHash, r, entry, now, steps, i, other)
  {
    assert steps[..|steps| - 1][..i] == steps[..i];
  }

  lemma OverlapAdmitsTwo(s: State, step: Step, admitted: set<nat>, other: nat)
    requires PlacesOk(s, admitted) && TestsNow(s, step) && PlaceOf(s, other).Passed?
    ensures |admitted + NewlyAdmitted(s, step)| > 1
  {
    var all := admitted + NewlyAdmitted(s, step);
    assert other in admitted && step.id !in admitted;
    if s.attempted {
      var armed :| armed in admitted && !PlaceOf(s, armed).Passed?;
      FewerMembers({other, armed}, all);
    } else {
      FewerMembers({other, step.id}, all);
    }
  }

  lemma SecondIsOverlap(s: State, step: Step, admitted: set<nat>) returns (other: nat)
    requires PlacesOk(s, admitted) && |admitted| <= 1 && |admitted + NewlyAdmitted(s, step)| > 1
    ensures TestsNow(s, step) && PlaceOf(s, other).Passed?
  {
    assert admitted + {} == admitted;
    assert admitted != {};
    other :| other in admitted;
  }

  /** The last step is such an overlap, or leaves the number past the test where it was or at one. */
  lemma LastOverlap(contentHash: Request -> string, r: Request, entry: Grant, now: Time, steps: seq<Step>)
    requires steps != []
    ensures var n := |steps| - 1;
      var before, all := Admitted(contentHash, r, entry, now, steps[..n]), Admitted(contentHash, r, entry, now, steps);
      && |before| <= |all|
      && ((exists other :: OverlapAt(contentHash, r, entry, now, steps, n, other)) ==> |all| > 1)
      && (|all| > 1 ==> |before| > 1 || exists other :: OverlapAt(contentHash, r, entry, now, steps, n, other))
  {
    hide After, PlacesOk, UsesOk, DeliveriesOk, NewlyAdmitted;
    var n := |steps| - 1;
    var s := AfterAll(contentHash, r, entry, Start(entry, now), steps[..n]);
    var before, all := Admitted(contentHash, r, entry, now, steps[..n]), Admitted(contentHash, r, entry, now, steps);
    EveryInterleavingKeeps(contentHash, r, entry, now, steps[..n]);
    FewerMembers(before, all);
    if other :| OverlapAt(contentHash, r, entry, now, steps, n, other) {
      OverlapAdmitsTwo(s, steps[n], before, other);
    }
    if |all| > 1 && |before| <= 1 {
      var other := SecondIsOverlap(s, steps[n], before);
      assert OverlapAt(contentHash, r, entry, now, steps, n, other);
    }
  }

  /** So callbacks that do not overlap there use the transport at most once. */
  lemma WithoutOverlapOnce(contentHash: Request -> string, r: Request, entry: Grant, now: Time, steps: seq<Step>)
    requires !Overlap(contentHash, r, entry, now, steps)
    ensures |AfterAll(contentHash, r, entry, Start(entry, now), steps).uses| <= 1
  {
    hide Overlap, AfterAll, Admitted;
    OnlyOverlapsAdmitTwo(contentHash, r, entry, now, steps);
    UsesAreAdmitted(contentHash, r, entry, now, steps);
  }

  // ---- Two schedules that show the limits ----

  lemma {:induction false} RunsCompose(
    contentHash: Request -> string, r: Request, entry: Grant, s: State, a: seq<Step>, b: seq<Step>)
    ensures AfterAll(contentHash, r, entry, s, a + b)
      == AfterAll(contentHash, r, entry, AfterAll(contentHash, r, entry, s, a), b)
  {
    hide After;
    if b == [] {
      assert a + b == a;
    } else {
      RunsCompose(contentHash, r, entry, s, a, b[..|b| - 1]);
      assert (a + b)[..|a + b| - 1] == a + b[..|b| - 1];
    }
  }

  lemma OneStep(contentHash: Request -> string, r: Request, entry: Grant, s: State, step: Step)
    ensures AfterAll(contentHash, r, entry, s, [step]) == After(contentHash, r, entry, s, step)
  {
    hide After;
    assert [step][..0] == [];
  }

  lemma TwoSteps(contentHash: Request -> string, r: Request, entry: Grant, s: State, a: Step, b: Step)
    ensures AfterAll(contentHash, r, entry, s, [a, b])
      == After(contentHash, r, entry, After(contentHash, r, entry, s, a), b)
  {
    hide After;
    RunsCompose(contentHash, r, entry, s, [a], [b]);
    OneStep(contentHash, r, entry, s, a);
    OneStep(contentHash, r, entry, After(contentHash, r, entry, s, a), b);
    assert [a] + [b] == [a, b];
  }

  /** An armed callback comes to hold the material, if the grant is good. */
  lemma ArmedGetsReady(contentHash: Request -> string, r: Request, grant: Grant, s: State, id: nat)
    requires PlaceOf(s, id).Armed? && s.held == grant && grant.reference == r.grantRef
    requires ValidateGrant(contentHash, r, grant, s.now).None?
    ensures AfterAll(contentHash, r, grant, s, [Look(id), Check(id), Fetch(id)])
      == s.(places := s.places[id := Looked(grant)][id := Cleared(s.now)][id := Ready(s.now)])
  {
    hide ValidateGrant, AfterAll;
    RunsCompose(contentHash, r, grant, s, [Look(id), Check(id)], [Fetch(id)]);
    TwoSteps(contentHash, r, grant, s, Look(id), Check(id));
    var t := After(contentHash, r, grant, After(contentHash, r, grant, s, Look(id)), Check(id));
    OneStep(contentHash, r, grant, t, Fetch(id));
    assert [Look(id), Check(id)] + [Fetch(id)] == [Look(id), Check(id), Fetch(id)];
  }

  /** Two callbacks that overlap can both use the transport, with any grant that is good on entry. */
  lemma OverlapUsesTwice(contentHash: Request -> string, r: Request, grant: Grant, now: Time, wire: Wire)
    returns (steps: seq<Step>)
    requires grant.reference == r.grantRef && ValidateGrant(contentHash, r, grant, now).None?
    ensures |AfterAll(contentHash, r, grant, Start(grant, now), steps).uses| == 2
  {
    hide ValidateGrant, AfterAll;
    var s := Start(grant, now);
    var s1 := AfterAll(contentHash, r, grant, s, [Test(0), Test(1)]);
    var s2 := AfterAll(contentHash, r, grant, s1, [Arm(0), Arm(1)]);
    var s3 := AfterAll(contentHash, r, grant, s2, [Look(0), Check(0), Fetch(0)]);
    var s4 := AfterAll(contentHash, r, grant, s3, [Look(1), Check(1), Fetch(1)]);
    TwoSteps(contentHash, r, grant, s, Test(0), Test(1));
    TwoSteps(contentHash, r, grant, s1, Arm(0), Arm(1));
    ArmedGetsReady(contentHash, r, grant, s2, 0);
    ArmedGetsReady(contentHash, r, grant, s3, 1);
    TwoSteps(contentHash, r, grant, s4, Transmit(0, wire), Transmit(1, wire));
    var ab := [Test(0), Test(1)] + [Arm(0), Arm(1)];
    var abc := ab + [Look(0), Check(0), Fetch(0)];
    var abcd := abc + [Look(1), Check(1), Fetch(1)];
    steps := abcd + [Transmit(0, wire), Transmit(1, wire)];
    RunsCompose(contentHash, r, grant, s, [Test(0), Test(1)], [Arm(0), Arm(1)]);
    RunsCompose(contentHash, r, grant, s, ab, [Look(0), Check(0), Fetch(0)]);
    RunsCompose(contentHash, r, grant, s, abc, [Look(1), Check(1), Fetch(1)]);
    RunsCompose(contentHash, r, grant, s, abcd, [Transmit(0, wire), Transmit(1, wire)]);
  }

  /** Between check and use anything may happen: the grant may be exchanged, and its time may run out. */
  lemma CheckIsNotUse(
    contentHash: Request -> string, r: Request, grant: Grant, now: Time, wire: Wire, other: Grant, late: Time)
    returns (steps: seq<Step>)
    requires grant.reference == r.grantRef && ValidateGrant(contentHash, r, grant, now).None?
    ensures var s := AfterAll(contentHash, r, grant, Start(grant, now), steps);
      && |steps| >= 3 && steps[|steps| - 3..] == [Exchange(other), Pass(late), Transmit(0, wire)]
      && s.uses == [Use(0, Call(grant, now, wire))] && s.held == other && s.now == late
  {
    hide ValidateGrant, AfterAll;
    var s := Start(grant, now);
    var s1 := AfterAll(contentHash, r, grant, s, [Test(0), Arm(0)]);
    var s2 := AfterAll(contentHash, r, grant, s1, [Look(0), Check(0), Fetch(0)]);
    var s3 := AfterAll(contentHash, r, grant, s2, [Exchange(other), Pass(late)]);
    TwoSteps(contentHash, r, grant, s, Test(0), Arm(0));
    ArmedGetsReady(contentHash, r, grant, s1, 0);
    TwoSteps(contentHash, r, grant, s2, Exchange(other), Pass(late));
    OneStep(contentHash, r, grant, s3, Transmit(0, wire));
    var ab := [Test(0), Arm(0)] + [Look(0), Check(0), Fetch(0)];
    var abc := ab + [Exchange(other), Pass(late)];
    steps := abc + [Transmit(0, wire)];
    RunsCompose(contentHash, r, grant, s, [Test(0), Arm(0)], [Look(0), Check(0), Fetch(0)]);
    RunsCompose(contentHash, r, grant, s, ab, [Exchange(other), Pass(late)]);
    RunsCompose(contentHash, r, grant, s, abc, [Transmit(0, wire)]);
    assert steps[|steps| - 3..] == [Exchange(other), Pass(late), Transmit(0, wire)];
  }
}

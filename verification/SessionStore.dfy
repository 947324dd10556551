/** The in-memory session store: a session map, its index by device, and the pruned windows of the rate limit. */
module SessionStore {
  import opened Common

  datatype Record = Record(userId: string, email: string, deviceId: string)

  datatype DeviceKey = DeviceKey(userId: string, deviceId: string)

  datatype Session = Session(expiresAt: real, record: Record)

  /** Sessions by the lookup key of their token. */
  type Sessions = map<string, Session>

  function DeviceOf(record: Record): DeviceKey {
    DeviceKey(record.userId, record.deviceId)
  }

  // ---- What the store is, without an index ----

  datatype Op =
    | Put(key: string, session: Session)
    | Get(key: string, now: real)
    | Delete(key: string)
    | RevokeDevice(device: DeviceKey, keep: Option<string>)

  function SessionsOf(m: Sessions, device: DeviceKey, keep: Option<string>): set<string> {
    set k | k in m && DeviceOf(m[k].record) == device && keep != Some(k)
  }

  function Expired(m: Sessions, key: string, now: real): bool {
    key in m && m[key].expiresAt < now
  }

  function After(m: Sessions, op: Op): Sessions {
    match op
    case Put(key, session) => m[key := session]
    case Get(key, now) => if Expired(m, key, now) then m - {key} else m
    case Delete(key) => m - {key}
    case RevokeDevice(device, keep) => m - SessionsOf(m, device, keep)
  }

  function AfterAll(m: Sessions, ops: seq<Op>): Sessions {
    if ops == [] then m else After(AfterAll(m, ops[..|ops| - 1]), ops[|ops| - 1])
  }

  /** A session that is gone, by logout, expiry or revocation, stays gone until its key is put again. */
  lemma {:induction false} GoneStaysGone(m: Sessions, ops: seq<Op>, key: string)
    requires key !in m && forall i :: 0 <= i < |ops| && ops[i].Put? ==> ops[i].key != key
    ensures key !in AfterAll(m, ops)
  {
    if ops != [] {
      GoneStaysGone(m, ops[..|ops| - 1], key);
    }
  }

  /** After a revocation no session of the device is left but the kept one, and all other sessions are untouched. */
  lemma RevocationIsExact(m: Sessions, device: DeviceKey, keep: Option<string>, key: string)
    ensures var after := After(m, RevokeDevice(device, keep));
      && (key in after <==> key in m && (DeviceOf(m[key].record) != device || keep == Some(key)))
      && (key in after ==> after[key] == m[key])
  {
  }

  // ---- The rate limit over the whole history of calls ----

  function Since(calls: seq<real>, t: real): seq<real> {
    if calls == [] then []
    else Since(calls[..|calls| - 1], t) + (if calls[|calls| - 1] > t then [calls[|calls| - 1]] else [])
  }

  lemma SinceSnoc(calls: seq<real>, now: real, t: real)
    ensures Since(calls + [now], t) == Since(calls, t) + (if now > t then [now] else [])
  {
    assert (calls + [now])[..|calls|] == calls;
  }

  lemma NothingSince(t: real)
    ensures Since([], t) == []
  {
  }

  method Prune(calls: seq<real>, t: real) returns (kept: seq<real>)
    ensures kept == Since(calls, t)
  {
    kept := [];
    for i := 0 to |calls|
      invariant kept == Since(calls[..i], t)
    {
      assert calls[..i + 1] == calls[..i] + [calls[i]];
      SinceSnoc(calls[..i], calls[i], t);
      if calls[i] > t {
        kept := kept + [calls[i]];
      } else {
        assert kept + [] == kept;
      }
    }
    assert calls[..|calls|] == calls;
  }

  /** One call that was ever made for a bucket: when, and with which window length. */
  datatype Hit = Hit(at: real, window: real)

  function Times(h: seq<Hit>): seq<real> {
    seq(|h|, i requires 0 <= i < |h| => h[i].at)
  }

  /** No later call pruned it. */
  predicate Survives(h: seq<Hit>, i: nat)
    requires i < |h|
  {
    forall j :: i < j < |h| ==> h[i].at > h[j].at - h[j].window
  }

  /** The surviving ones among the first n calls. */
  function Survivors(h: seq<Hit>, n: nat): seq<real>
    requires n <= |h|
  {
    if n == 0 then [] else Survivors(h, n - 1) + (if Survives(h, n - 1) then [h[n - 1].at] else [])
  }

  lemma SurvivesLonger(h: seq<Hit>, x: Hit, i: nat)
    requires i < |h|
    ensures Survives(h + [x], i) <==> Survives(h, i) && h[i].at > x.at - x.window
  {
    var all := h + [x];
    assert all[|h|] == x;
    assert forall j :: 0 <= j < |h| ==> all[j] == h[j];
  }

  lemma {:induction false} PruningKeepsSurvivors(h: seq<Hit>, x: Hit, n: nat)
    requires n <= |h|
    ensures Survivors(h + [x], n) == Since(Survivors(h, n), x.at - x.window)
  {
    hide Survives, Since;
    if n == 0 {
      NothingSince(x.at - x.window);
    } else {
      PruningKeepsSurvivors(h, x, n - 1);
      SurvivesLonger(h, x, n - 1);
      assert (h + [x])[n - 1] == h[n - 1];
      SinceSnoc(Survivors(h, n - 1), h[n - 1].at, x.at - x.window);
      assert Survivors(h, n - 1) + [] == Survivors(h, n - 1);
    }
  }

  /** One call: prune the list, append the time. */
  lemma OneMoreHit(h: seq<Hit>, x: Hit)
    ensures Survivors(h + [x], |h| + 1) == Since(Survivors(h, |h|), x.at - x.window) + [x.at]
  {
    PruningKeepsSurvivors(h, x, |h|);
    assert Survives(h + [x], |h|);
  }

  ghost predicate Windowed(rates: map<string, seq<real>>, histories: map<string, seq<Hit>>) {
    rates.Keys == histories.Keys && forall b :: b in histories ==> rates[b] == Survivors(histories[b], |histories[b]|)
  }

  /** The start of the window of the last call. */
  function Cutoff(h: seq<Hit>): real
    requires h != []
  {
    h[|h| - 1].at - h[|h| - 1].window
  }

  /** All calls of the last window survive up to n. */
  predicate NonePruned(h: seq<Hit>, n: nat)
    requires h != [] && n <= |h|
  {
    forall i :: 0 <= i < n && h[i].at > Cutoff(h) ==> Survives(h, i)
  }

  lemma {:induction false} CountUpTo(h: seq<Hit>, n: nat)
    requires h != [] && h[|h| - 1].window > 0.0 && n <= |h|
    ensures |Survivors(h, n)| <= |Since(Times(h[..n]), Cutoff(h))|
    ensures |Survivors(h, n)| == |Since(Times(h[..n]), Cutoff(h))| <==> NonePruned(h, n)
  {
    hide Survives, NonePruned, Since, Cutoff;
    if n == 0 {
      NothingSince(Cutoff(h));
      NonePrunedYet(h);
    } else {
      CountUpTo(h, n - 1);
      assert Times(h[..n]) == Times(h[..n - 1]) + [h[n - 1].at];
      SinceSnoc(Times(h[..n - 1]), h[n - 1].at, Cutoff(h));
      OneMoreNotPruned(h, n);
    }
  }

  lemma NonePrunedYet(h: seq<Hit>)
    requires h != []
    ensures NonePruned(h, 0) && Times(h[..0]) == []
  {
  }

  lemma OneMoreNotPruned(h: seq<Hit>, n: nat)
    requires h != [] && h[|h| - 1].window > 0.0 && 0 < n <= |h|
    ensures Survives(h, n - 1) ==> h[n - 1].at > Cutoff(h)
    ensures NonePruned(h, n) <==> NonePruned(h, n - 1) && (h[n - 1].at > Cutoff(h) ==> Survives(h, n - 1))
  {
    hide Survives;
    SurvivorIsRecent(h, n - 1);
  }

  lemma SurvivorIsRecent(h: seq<Hit>, i: nat)
    requires i < |h| && h[|h| - 1].window > 0.0
    ensures Survives(h, i) ==> h[i].at > Cutoff(h)
  {
  }

  /**
   * The list holds as many calls as the whole history has in the last window, exactly if no call of that window was
   * pruned before; never more.
   */
  lemma CountsTheWindow(h: seq<Hit>)
    requires h != [] && h[|h| - 1].window > 0.0
    ensures |Survivors(h, |h|)| <= |Since(Times(h), Cutoff(h))|
    ensures |Survivors(h, |h|)| == |Since(Times(h), Cutoff(h))| <==> NonePruned(h, |h|)
  {
    CountUpTo(h, |h|);
    assert h[..|h|] == h;
  }

  /** A clock that does not go back, and one window length: nothing is pruned too early. */
  predicate Steady(h: seq<Hit>) {
    forall i, j :: 0 <= i <= j < |h| ==> h[i].at <= h[j].at && h[i].window == h[j].window
  }

  lemma SteadyIsExact(h: seq<Hit>)
    requires h != [] && h[|h| - 1].window > 0.0 && Steady(h)
    ensures |Survivors(h, |h|)| == |Since(Times(h), Cutoff(h))|
  {
    CountsTheWindow(h);
    forall i | 0 <= i < |h| && h[i].at > Cutoff(h) ensures Survives(h, i) {
      assert forall j :: i < j < |h| ==> h[j].at <= h[|h| - 1].at && h[j].window == h[|h| - 1].window;
    }
  }

  /** A clock that was set forward and back again forgets a call of the last window. */
  lemma ClockBackForgets()
    ensures var h := [Hit(0.0, 10.0), Hit(100.0, 10.0), Hit(5.0, 10.0)];
      |Survivors(h, |h|)| < |Since(Times(h), Cutoff(h))|
  {
    var h := [Hit(0.0, 10.0), Hit(100.0, 10.0), Hit(5.0, 10.0)];
    CountsTheWindow(h);
    assert h[0].at > Cutoff(h) && !(h[0].at > h[1].at - h[1].window);
  }

  /** So does a call with a shorter window. */
  lemma ShorterWindowForgets()
    ensures var h := [Hit(0.0, 10.0), Hit(5.0, 1.0), Hit(6.0, 10.0)];
      |Survivors(h, |h|)| < |Since(Times(h), Cutoff(h))|
  {
    var h := [Hit(0.0, 10.0), Hit(5.0, 1.0), Hit(6.0, 10.0)];
    CountsTheWindow(h);
    assert h[0].at > Cutoff(h) && !(h[0].at > h[1].at - h[1].window);
  }

  // ---- The index ----

  type Index = map<DeviceKey, set<string>>

  /** The index names exactly the stored sessions, each under its own device; empty buckets may be left behind. */
  ghost predicate Indexed(m: Sessions, index: Index) {
    && (forall k :: k in m ==> DeviceOf(m[k].record) in index && k in index[DeviceOf(m[k].record)])
    && (forall d, k :: d in index && k in index[d] ==> k in m && DeviceOf(m[k].record) == d)
  }

  lemma Unindexed(m: Sessions, index: Index, key: string)
    requires Indexed(m, index) && key in m
    ensures var d := DeviceOf(m[key].record); d in index && Indexed(m - {key}, index[d := index[d] - {key}])
  {
  }

  lemma Reindexed(m: Sessions, index: Index, key: string, session: Session)
    requires Indexed(m, index) && key !in m
    ensures var d := DeviceOf(session.record);
      Indexed(m[key := session], index[d := (if d in index then index[d] else {}) + {key}])
  {
  }

  lemma EmptyBucketDropped(m: Sessions, index: Index, d: DeviceKey)
    requires Indexed(m, index) && d in index && index[d] == {}
    ensures Indexed(m, index - {d})
  {
  }

  lemma BucketIsTheDevice(m: Sessions, index: Index, d: DeviceKey)
    requires Indexed(m, index)
    ensures (if d in index then index[d] else {}) == SessionsOf(m, d, None)
  {
  }

  /** Some of the device's sessions are gone, the others are still to be looked at. */
  ghost predicate Revoking(before: Sessions, device: DeviceKey, keep: Option<string>, m: Sessions, gone: set<string>,
      todo: set<string>) {
    && m == before - gone && gone !! todo
    && gone <= SessionsOf(before, device, keep) && todo <= SessionsOf(before, device, None)
    && SessionsOf(before, device, keep) <= gone + todo
  }

  lemma RevokingStarts(before: Sessions, device: DeviceKey, keep: Option<string>)
    ensures Revoking(before, device, keep, before, {}, SessionsOf(before, device, None))
  {
  }

  lemma RevokingStep(
    before: Sessions, device: DeviceKey, keep: Option<string>, m: Sessions, gone: set<string>, todo: set<string>,
    key: string)
    requires Revoking(before, device, keep, m, gone, todo) && key in todo
    ensures key in m && DeviceOf(m[key].record) == device && key !in gone
    ensures if keep == Some(key) then Revoking(before, device, keep, m, gone, todo - {key})
            else Revoking(before, device, keep, m - {key}, gone + {key}, todo - {key})
  {
  }

  lemma RevokingEnds(before: Sessions, device: DeviceKey, keep: Option<string>, m: Sessions, gone: set<string>)
    requires Revoking(before, device, keep, m, gone, {})
    ensures gone == SessionsOf(before, device, keep) && m == After(before, RevokeDevice(device, keep))
  {
  }

  // ---- The store ----

  class MemorySessionStore {
    var sessions: Sessions
    var byDevice: Index
    var rates: map<string, seq<real>>
    /** token_lookup_key. */
    const lookup: string -> string
    ghost var histories: map<string, seq<Hit>>

    constructor (lookup: string -> string)
      ensures Valid() && sessions == map[] && histories == map[] && this.lookup == lookup
    {
      this.lookup := lookup;
      sessions, byDevice, rates, histories := map[], map[], map[], map[];
    }

    ghost predicate Valid()
      reads this
    {
      Indexed(sessions, byDevice) && Windowed(rates, histories)
    }

    method PutSession(token: string, record: Record, ttlSeconds: real, now: real)
      requires Valid()
      modifies this
      ensures Valid() && rates == old(rates) && histories == old(histories)
      ensures sessions == After(old(sessions), Put(lookup(token), Session(now + ttlSeconds, record)))
    {
      hide Indexed, Windowed;
      var key, session, device := lookup(token), Session(now + ttlSeconds, record), DeviceOf(record);
      ghost var others := sessions;
      if key in sessions {
        Unindexed(sessions, byDevice, key);
        var previous := DeviceOf(sessions[key].record);
        byDevice := byDevice[previous := byDevice[previous] - {key}];
        others := sessions - {key};
      }
      Reindexed(others, byDevice, key, session);
      assert others[key := session] == sessions[key := session];
      sessions := sessions[key := session];
      byDevice := byDevice[device := (if device in byDevice then byDevice[device] else {}) + {key}];
    }

    method DeleteSession(token: string)
      requires Valid()
      modifies this
      ensures Valid() && rates == old(rates) && histories == old(histories)
      ensures sessions == After(old(sessions), Delete(lookup(token)))
    {
      hide Indexed, Windowed;
      var key := lookup(token);
      if key !in sessions {
        assert sessions - {key} == sessions;
        return;
      }
      var device := DeviceOf(sessions[key].record);
      Unindexed(sessions, byDevice, key);
      sessions := sessions - {key};
      byDevice := byDevice[device := byDevice[device] - {key}];
      if byDevice[device] == {} {
        EmptyBucketDropped(sessions, byDevice, device);
        byDevice := byDevice - {device};
      }
    }

    method GetSession(token: string, now: real) returns (r: Option<Record>)
      requires Valid()
      modifies this
      ensures Valid() && rates == old(rates) && histories == old(histories)
      ensures sessions == After(old(sessions), Get(lookup(token), now))
      ensures r == if lookup(token) in sessions then Some(sessions[lookup(token)].record) else None
      ensures r.Some? ==> now <= sessions[lookup(token)].expiresAt
    {
      var key := lookup(token);
      if key !in sessions {
        return None;
      }
      var found := sessions[key];
      if found.expiresAt < now {
        DeleteSession(token);
        return None;
      }
      return Some(found.record);
    }

    function KeptKey(keepToken: Option<string>): Option<string> {
      if keepToken.Some? && keepToken.value != "" then Some(lookup(keepToken.value)) else None
    }

    /** revoke_device. */
    method Revoke(userId: string, deviceId: string, keepToken: Option<string>) returns (removed: nat)
      requires Valid()
      modifies this
      ensures Valid() && rates == old(rates) && histories == old(histories)
      ensures sessions == After(old(sessions), RevokeDevice(DeviceKey(userId, deviceId), KeptKey(keepToken)))
      ensures removed == |SessionsOf(old(sessions), DeviceKey(userId, deviceId), KeptKey(keepToken))|
    {
      hide Indexed, Windowed, After, SessionsOf, DeviceOf;
      var device := DeviceKey(userId, deviceId);
      removed := RemoveSessions(device, KeptKey(keepToken));
      if device in byDevice && byDevice[device] == {} {
        EmptyBucketDropped(sessions, byDevice, device);
        byDevice := byDevice - {device};
      }
    }

    /** The loop over a copy of the device's bucket, in whatever order it comes. */
    method RemoveSessions(device: DeviceKey, keep: Option<string>) returns (removed: nat)
      requires Indexed(sessions, byDevice)
      modifies this`sessions, this`byDevice
      ensures Indexed(sessions, byDevice) && sessions == After(old(sessions), RevokeDevice(device, keep))
      ensures removed == |SessionsOf(old(sessions), device, keep)|
    {
      hide Indexed, Revoking, SessionsOf, After, DeviceOf;
      BucketIsTheDevice(sessions, byDevice, device);
      var todo: set<string> := if device in byDevice then byDevice[device] else {};
      removed := 0;
      ghost var gone: set<string> := {};
      RevokingStarts(sessions, device, keep);
      while todo != {}
        invariant Indexed(sessions, byDevice)
        invariant Revoking(old(sessions), device, keep, sessions, gone, todo) && |gone| == removed
        decreases |todo|
      {
        var key :| key in todo;
        RevokingStep(old(sessions), device, keep, sessions, gone, todo, key);
        todo := todo - {key};
        if keep != Some(key) {
          Unindexed(sessions, byDevice, key);
          sessions := sessions - {key};
          byDevice := byDevice[device := byDevice[device] - {key}];
          removed, gone := removed + 1, gone + {key};
        }
      }
      RevokingEnds(old(sessions), device, keep, sessions, gone);
    }

    /** hit_rate_limit, whatever the clock does and whatever window lengths a bucket is asked with. */
    method HitRateLimit(bucket: string, limit: int, windowSeconds: real, now: real) returns (hit: bool)
      requires Valid()
      modifies this
      ensures Valid() && sessions == old(sessions) && byDevice == old(byDevice)
      ensures var before := if bucket in old(histories) then old(histories)[bucket] else [];
        var h := before + [Hit(now, windowSeconds)];
        && histories == old(histories)[bucket := h]
        && (hit <==> |Survivors(h, |h|)| > limit)
        && (windowSeconds > 0.0 && Steady(h) ==> (hit <==> |Since(Times(h), now - windowSeconds)| > limit))
    {
      hide Since, Indexed, Survivors, Steady;
      ghost var before := if bucket in histories then histories[bucket] else [];
      ghost var h := before + [Hit(now, windowSeconds)];
      var stored := if bucket in rates then rates[bucket] else [];
      assert stored == Survivors(before, |before|) by {
        NoSurvivors();
      }
      var window := Prune(stored, now - windowSeconds);
      OneMoreHit(before, Hit(now, windowSeconds));
      if windowSeconds > 0.0 && Steady(h) {
        SteadyIsExact(h);
      }
      window := window + [now];
      rates := rates[bucket := window];
      histories := histories[bucket := h];
      hit := |window| > limit;
    }
  }

  lemma NoSurvivors()
    ensures Survivors([], 0) == []
  {
  }
}

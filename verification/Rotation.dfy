/** Who can read what after a key rotation: symbolic keys, and an attacker who keeps everything. */
module Rotation {
  import opened Common

  /** Minted secrets are atoms; a derivation stands for Argon2id or HKDF, a seal for AES-GCM. */
  datatype Term =
    | Atom(id: nat)
    | Public(text: nat)
    | Pair(left: Term, right: Term)
    | Derived(secret: Term, context: Term)
    | Seal(key: Term, body: Term)

  /** What follows from `known` in n rounds of taking apart, opening, deriving and sealing. */
  ghost predicate Derives(known: set<Term>, n: nat, t: Term) {
    || t in known || t.Public?
    || (n > 0 && (
      || Derives(known, n - 1, t)
      || (t.Pair? && Derives(known, n - 1, t.left) && Derives(known, n - 1, t.right))
      || (t.Derived? && Derives(known, n - 1, t.secret) && Derives(known, n - 1, t.context))
      || (t.Seal? && Derives(known, n - 1, t.key) && Derives(known, n - 1, t.body))
      || (exists u :: Derives(known, n - 1, Pair(t, u)) || Derives(known, n - 1, Pair(u, t)))
      || (exists k :: Derives(known, n - 1, Seal(k, t)) && Derives(known, n - 1, k))))
  }

  /**
   * t gives away none of the held atoms and none minted from `start` on: a seal under a guarded key may hold anything.
   */
  predicate Safe(held: set<Term>, start: nat, t: Term) {
    match t
    case Atom(n) => t !in held && n < start
    case Public(_) => true
    case Pair(a, b) => Safe(held, start, a) && Safe(held, start, b)
    case Derived(s, c) => Safe(held, start, s) && Safe(held, start, c)
    case Seal(k, b) => Safe(held, start, k) ==> Safe(held, start, b)
  }

  /** Safe knowledge stays safe, however long the attacker computes. */
  lemma {:induction false} OnlySafeTermsFollow(held: set<Term>, start: nat, known: set<Term>, n: nat, t: Term)
    requires forall x :: x in known ==> Safe(held, start, x)
    requires Derives(known, n, t)
    ensures Safe(held, start, t)
    decreases n
  {
    if t in known || t.Public? {
    } else if Derives(known, n - 1, t) {
      OnlySafeTermsFollow(held, start, known, n - 1, t);
    } else if t.Pair? && Derives(known, n - 1, t.left) && Derives(known, n - 1, t.right) {
      OnlySafeTermsFollow(held, start, known, n - 1, t.left);
      OnlySafeTermsFollow(held, start, known, n - 1, t.right);
    } else if t.Derived? && Derives(known, n - 1, t.secret) && Derives(known, n - 1, t.context) {
      OnlySafeTermsFollow(held, start, known, n - 1, t.secret);
      OnlySafeTermsFollow(held, start, known, n - 1, t.context);
    } else if t.Seal? && Derives(known, n - 1, t.key) && Derives(known, n - 1, t.body) {
      OnlySafeTermsFollow(held, start, known, n - 1, t.body);
    } else if u :| Derives(known, n - 1, Pair(t, u)) || Derives(known, n - 1, Pair(u, t)) {
      if Derives(known, n - 1, Pair(t, u)) {
        OnlySafeTermsFollow(held, start, known, n - 1, Pair(t, u));
      } else {
        OnlySafeTermsFollow(held, start, known, n - 1, Pair(u, t));
      }
    } else {
      var k :| Derives(known, n - 1, Seal(k, t)) && Derives(known, n - 1, k);
      OnlySafeTermsFollow(held, start, known, n - 1, Seal(k, t));
      OnlySafeTermsFollow(held, start, known, n - 1, k);
    }
  }

  // ---- The vault and its commits ----

  datatype Vault = Vault(
    id: nat, password: Term, salt: nat, vaultKey: Term, recovery: Option<Term>, devices: map<nat, Term>,
    entries: seq<Term>)

  function MasterKey(v: Vault): Term {
    Derived(v.password, Public(v.salt))
  }

  function RecoveryWrap(v: Vault): Term
    requires v.recovery.Some?
  {
    Derived(v.recovery.value, Public(v.id))
  }

  function WrappingKeys(v: Vault): set<Term> {
    {MasterKey(v)} + (if v.recovery.Some? then {RecoveryWrap(v)} else {}) + (set d | d in v.devices :: v.devices[d])
  }

  /** The ciphertexts of one snapshot: an envelope per way in, every entry, the sealed manifest. */
  function Snapshot(v: Vault): set<Term> {
    (set k | k in WrappingKeys(v) :: Seal(k, v.vaultKey))
    + (set e | e in v.entries :: Seal(v.vaultKey, e)) + {Seal(v.vaultKey, Public(0))}
  }

  /** Everything ever stored, every vault key and plaintext ever used, and the next unused atom. */
  datatype World = World(vault: Vault, published: set<Term>, vaultKeys: set<Term>, plain: set<Term>, next: nat)

  datatype Event =
    | CommitEntries(entries: seq<Term>)
    | Enrol(device: nat)
    | SoftRevoke(device: nat)
    | ReplaceTrustedKit
    | RotateCompromisedKit(current: nat, local: bool)
    | HardRevoke(target: nat, current: nat, local: bool)

  function Published(w: World, v: Vault, minted: nat): World {
    World(v, w.published + Snapshot(v), w.vaultKeys + {v.vaultKey}, w.plain + (set e | e in v.entries), w.next + minted)
  }

  /** `local` says whether the browser of `current` could read its device key without a ceremony. */
  function Retained(v: Vault, current: nat, keep: bool): map<nat, Term> {
    if keep && current in v.devices then map[current := v.devices[current]] else map[]
  }

  function After(w: World, e: Event): World {
    var v := w.vault;
    match e
    case CommitEntries(entries) => Published(w, v.(entries := entries), 0)
    case Enrol(device) => Published(w, v.(devices := v.devices[device := Atom(w.next)]), 1)
    case SoftRevoke(device) => Published(w, v.(devices := v.devices - {device}), 0)
    case ReplaceTrustedKit =>
      if v.recovery.None? then w else Published(w, v.(recovery := Some(Atom(w.next))), 1)
    case RotateCompromisedKit(current, local) =>
      Published(w, v.(vaultKey := Atom(w.next), salt := w.next, recovery := Some(Atom(w.next + 1)),
                      devices := Retained(v, current, local)), 2)
    case HardRevoke(target, current, local) =>
      Published(
        w, v.(vaultKey := Atom(w.next), salt := w.next, devices := Retained(v, current, local && target != current)), 1)
  }

  function AfterAll(w: World, events: seq<Event>): World {
    if events == [] then w else After(AfterAll(w, events[..|events| - 1]), events[|events| - 1])
  }

  /** A vault just created: password, vault key and recovery key are the first three atoms. */
  function Created(id: nat): World {
    var v := Vault(id, Atom(0), 0, Atom(1), Some(Atom(2)), map[], []);
    World(v, Snapshot(v), {Atom(1)}, {}, 3)
  }

  // ---- What holds in every world ----

  predicate MintedBefore(next: nat, t: Term) {
    t.Atom? && t.id < next
  }

  predicate IsCiphertext(w: World, t: Term) {
    t.Seal? && (t.body in w.vaultKeys || t.body in w.plain || t.body.Public?)
  }

  predicate WorldOk(w: World) {
    && MintedBefore(w.next, w.vault.password) && w.vault.vaultKey in w.vaultKeys
    && (forall k :: k in w.vaultKeys ==> MintedBefore(w.next, k) && k != w.vault.password)
    && (w.vault.recovery.Some? ==>
          MintedBefore(w.next, w.vault.recovery.value) && w.vault.recovery.value !in w.vaultKeys + {w.vault.password})
    && (forall d :: d in w.vault.devices ==>
        MintedBefore(w.next, w.vault.devices[d]) && w.vault.devices[d] !in w.vaultKeys)
    && (forall d, e :: d in w.vault.devices && e in w.vault.devices && w.vault.devices[d] == w.vault.devices[e] ==>
        d == e)
    && (forall d :: d in w.vault.devices ==>
          w.vault.devices[d] != w.vault.password && Some(w.vault.devices[d]) != w.vault.recovery)
    && (forall t :: t in w.published ==> IsCiphertext(w, t))
  }

  lemma PublishedAreCiphertexts(w: World, v: Vault, minted: nat)
    requires forall t :: t in w.published ==> IsCiphertext(w, t)
    ensures var w' := Published(w, v, minted); forall t :: t in w'.published ==> IsCiphertext(w', t)
  {
    hide WrappingKeys;
  }

  lemma StepKeepsWorldOk(w: World, e: Event)
    requires WorldOk(w)
    ensures WorldOk(After(w, e)) && w.published <= After(w, e).published && w.next <= After(w, e).next
  {
    hide IsCiphertext, Snapshot;
    var v := w.vault;
    match e
    case CommitEntries(entries) => PublishedAreCiphertexts(w, v.(entries := entries), 0);
    case Enrol(device) => PublishedAreCiphertexts(w, v.(devices := v.devices[device := Atom(w.next)]), 1);
    case SoftRevoke(device) => PublishedAreCiphertexts(w, v.(devices := v.devices - {device}), 0);
    case ReplaceTrustedKit => PublishedAreCiphertexts(w, v.(recovery := Some(Atom(w.next))), 1);
    case RotateCompromisedKit(current, local) => PublishedAreCiphertexts(w, After(w, e).vault, 2);
    case HardRevoke(target, current, local) => PublishedAreCiphertexts(w, After(w, e).vault, 1);
  }

  lemma {:induction false} RunKeepsWorldOk(w: World, events: seq<Event>)
    requires WorldOk(w)
    ensures WorldOk(AfterAll(w, events)) && w.published <= AfterAll(w, events).published
      && w.next <= AfterAll(w, events).next
  {
    hide WorldOk, After;
    if events != [] {
      RunKeepsWorldOk(w, events[..|events| - 1]);
      StepKeepsWorldOk(AfterAll(w, events[..|events| - 1]), events[|events| - 1]);
    }
  }

  lemma CreatedIsOk(id: nat)
    ensures WorldOk(Created(id))
  {
  }

  // ---- A rotation cuts off everyone it leaves out ----

  predicate Rotates(e: Event) {
    e.HardRevoke? || e.RotateCompromisedKit?
  }

  /** The device, if any, whose key is wrapped again. */
  function Kept(w: World, e: Event): map<nat, Term>
    requires Rotates(e)
  {
    Retained(w.vault, e.current, e.local && (e.HardRevoke? ==> e.target != e.current))
  }

  /**
   * The secrets of those who are meant to read on: the password, the kit unless it is the stolen one, the retained
   * device.
   */
  function Entitled(w: World, e: Event): set<Term>
    requires Rotates(e)
  {
    {w.vault.password} + (if e.HardRevoke? && w.vault.recovery.Some? then {w.vault.recovery.value} else {})
      + Kept(w, e).Values
  }

  /** What the rotation is meant to make worthless: all vault keys so far, every other device's key, a stolen kit. */
  function Outdated(w: World, e: Event): set<Term>
    requires Rotates(e)
  {
    w.vaultKeys + (set d | d in w.vault.devices && d !in Kept(w, e) :: w.vault.devices[d])
    + (if e.RotateCompromisedKit? && w.vault.recovery.Some? then {w.vault.recovery.value} else {})
  }

  /** After the rotation every key that wraps or seals anything is guarded. */
  predicate Sealed(held: set<Term>, start: nat, w: World) {
    && start <= w.next && w.vault.password in held && w.vault.password.Atom?
    && w.vault.vaultKey.Atom? && w.vault.vaultKey.id >= start
    && (forall k :: k in WrappingKeys(w.vault) ==> !Safe(held, start, k))
    && (w.vault.recovery.Some? ==> !Safe(held, start, w.vault.recovery.value))
    && (forall t :: t in w.published ==> Safe(held, start, t))
  }

  lemma SealedSnapshotIsSafe(held: set<Term>, start: nat, v: Vault)
    requires !Safe(held, start, v.vaultKey) && forall k :: k in WrappingKeys(v) ==> !Safe(held, start, k)
    ensures forall t :: t in Snapshot(v) ==> Safe(held, start, t)
  {
    hide WrappingKeys;
  }

  lemma StepKeepsSealed(held: set<Term>, start: nat, w: World, e: Event)
    requires Sealed(held, start, w)
    ensures Sealed(held, start, After(w, e))
  {
    hide Snapshot;
    var v := After(w, e).vault;
    forall k | k in WrappingKeys(v) ensures !Safe(held, start, k) {
      assert k == MasterKey(v) || (v.recovery.Some? && k == RecoveryWrap(v))
        || (exists d :: d in v.devices && v.devices[d] == k);
      if exists d :: d in v.devices && v.devices[d] == k && d in w.vault.devices && w.vault.devices[d] == k {
        assert k in WrappingKeys(w.vault);
      }
    }
    SealedSnapshotIsSafe(held, start, v);
  }

  lemma {:induction false} RunKeepsSealed(held: set<Term>, start: nat, w: World, events: seq<Event>)
    requires Sealed(held, start, w)
    ensures Sealed(held, start, AfterAll(w, events))
  {
    hide Sealed, After;
    if events != [] {
      RunKeepsSealed(held, start, w, events[..|events| - 1]);
      StepKeepsSealed(held, start, AfterAll(w, events[..|events| - 1]), events[|events| - 1]);
    }
  }

  lemma RotationSeals(w: World, e: Event)
    requires WorldOk(w) && Rotates(e)
    requires forall x :: x in w.plain ==> Safe(Entitled(w, e), w.next, x)
    ensures Sealed(Entitled(w, e), w.next, After(w, e))
  {
    hide Snapshot;
    var held, w' := Entitled(w, e), After(w, e);
    forall t | t in w.published ensures Safe(held, w.next, t) {
      assert IsCiphertext(w, t);
    }
    forall k | k in WrappingKeys(w'.vault) ensures !Safe(held, w.next, k) {
      if exists d :: d in w'.vault.devices && w'.vault.devices[d] == k {
        assert k in Kept(w, e).Values;
      }
    }
    SealedSnapshotIsSafe(held, w.next, w'.vault);
  }

  lemma OutdatedIsSafe(w: World, e: Event, t: Term)
    requires WorldOk(w) && Rotates(e) && t in Outdated(w, e)
    ensures Safe(Entitled(w, e), w.next, t)
  {
    forall x | x in Kept(w, e).Values ensures x != t {
      assert x == w.vault.devices[e.current];
    }
  }

  /**
   * After a hard revocation or the rotation for a stolen kit, whoever holds every old vault key, the keys of all
   * devices but the retained one, a stolen kit (and any other safe loot) and every snapshot stored before, at and
   * after it, derives neither the vault key in use nor anything minted since.
   */
  lemma RotationCutsOff(id: nat, before: seq<Event>, e: Event, later: seq<Event>, loot: set<Term>, n: nat, t: Term)
    requires Rotates(e)
    requires var w := AfterAll(Created(id), before);
      forall x :: x in loot || x in w.plain ==> Safe(Entitled(w, e), w.next, x)
    ensures var w := AfterAll(Created(id), before);
      var w' := AfterAll(After(w, e), later);
      var known := loot + Outdated(w, e) + w'.published;
      && (Derives(known, n, t) ==> Safe(Entitled(w, e), w.next, t))
      && (t == w'.vault.vaultKey || (t.Atom? && t.id >= w.next) ==> !Derives(known, n, t))
  {
    hide WorldOk, AfterAll, Derives, Outdated;
    var w := AfterAll(Created(id), before);
    var w' := AfterAll(After(w, e), later);
    CreatedIsOk(id);
    RunKeepsWorldOk(Created(id), before);
    RotationSeals(w, e);
    RunKeepsSealed(Entitled(w, e), w.next, After(w, e), later);
    var known := loot + Outdated(w, e) + w'.published;
    forall x | x in known ensures Safe(Entitled(w, e), w.next, x) {
      if x in Outdated(w, e) {
        OutdatedIsSafe(w, e, x);
      }
    }
    if Derives(known, n, t) {
      OnlySafeTermsFollow(Entitled(w, e), w.next, known, n, t);
    }
  }

  // ---- Those who are meant to read on, can ----

  lemma WrappingKeyReads(v: Vault, known: set<Term>, n: nat, k: Term, e: Term)
    requires k in WrappingKeys(v) && Derives(known, n, k) && Snapshot(v) <= known && e in v.entries
    ensures Derives(known, n + 1, v.vaultKey) && Derives(known, n + 2, e)
  {
    hide WrappingKeys;
    assert Seal(k, v.vaultKey) in Snapshot(v) && Seal(v.vaultKey, e) in Snapshot(v);
    assert Derives(known, n, Seal(k, v.vaultKey)) && Derives(known, n + 1, Seal(v.vaultKey, e));
  }

  lemma EntitledWrap(w: World, e: Event, known: set<Term>, h: Term) returns (k: Term)
    requires Rotates(e) && h in Entitled(w, e) && h in known
    ensures k in WrappingKeys(After(w, e).vault) && Derives(known, 1, k)
  {
    var v := After(w, e).vault;
    if h in Kept(w, e).Values {
      k := h;
      assert v.devices[e.current] == h;
    } else {
      k := if h == w.vault.password then MasterKey(v) else RecoveryWrap(v);
    }
    assert Derives(known, 0, h) && Derives(known, 0, Public(v.salt)) && Derives(known, 0, Public(v.id));
  }

  /** Each entitled secret opens the vault key and every entry of the new snapshot, and the entries are the old ones. */
  lemma RotationKeepsReaders(w: World, e: Event, known: set<Term>, h: Term, entry: Term)
    requires Rotates(e) && h in Entitled(w, e) && h in known
    requires Snapshot(After(w, e).vault) <= known && entry in w.vault.entries
    ensures After(w, e).vault.entries == w.vault.entries
    ensures Derives(known, 3, After(w, e).vault.vaultKey) && Derives(known, 3, entry)
  {
    hide Snapshot;
    var k := EntitledWrap(w, e, known, h);
    WrappingKeyReads(After(w, e).vault, known, 1, k, entry);
  }

  // ---- And stay so through later commits ----

  datatype Way = ByPassword | ByKit | ByDevice(device: nat)

  function SecretOf(v: Vault, way: Way): Option<Term> {
    match way
    case ByPassword => Some(v.password)
    case ByKit => v.recovery
    case ByDevice(d) => if d in v.devices then Some(v.devices[d]) else None
  }

  /** The commit leaves this way in standing. */
  predicate Spares(e: Event, way: Way) {
    match way
    case ByPassword => true
    case ByKit => !e.ReplaceTrustedKit? && !e.RotateCompromisedKit?
    case ByDevice(d) =>
      match e
      case CommitEntries(_) => true
      case ReplaceTrustedKit => true
      case Enrol(device) => device != d
      case SoftRevoke(device) => device != d
      case RotateCompromisedKit(current, local) => current == d && local
      case HardRevoke(target, current, local) => current == d && local && target != d
  }

  /** Those entitled by a rotation are those whose way it spares. */
  lemma EntitledMeansSpared(w: World, e: Event, h: Term)
    requires Rotates(e)
    ensures h in Entitled(w, e) <==> exists way :: SecretOf(w.vault, way) == Some(h) && Spares(e, way)
  {
    var kept := Kept(w, e);
    if h in Entitled(w, e) {
      var way := if h == w.vault.password then ByPassword
        else if h in kept.Values then ByDevice(e.current)
        else ByKit;
      assert SecretOf(w.vault, way) == Some(h) && Spares(e, way);
    }
    if way :| SecretOf(w.vault, way) == Some(h) && Spares(e, way) {
      if way.ByDevice? {
        assert way.device in kept && kept[way.device] == h;
      }
    }
  }

  lemma {:induction false} SparedSecretStays(w: World, events: seq<Event>, way: Way)
    requires SecretOf(w.vault, way).Some? && forall i :: 0 <= i < |events| ==> Spares(events[i], way)
    ensures SecretOf(AfterAll(w, events).vault, way) == SecretOf(w.vault, way)
  {
    hide Published;
    if events != [] {
      SparedSecretStays(w, events[..|events| - 1], way);
      StepSpares(AfterAll(w, events[..|events| - 1]), events[|events| - 1], way);
    }
  }

  lemma StepSpares(w: World, e: Event, way: Way)
    requires SecretOf(w.vault, way).Some? && Spares(e, way)
    ensures SecretOf(After(w, e).vault, way) == SecretOf(w.vault, way)
  {
    hide Snapshot;
  }

  /**
   * A secret whose way in no commit touched, a rotation at first and whatever came later included, opens the vault key
   * in use and every entry of the head.
   */
  lemma SparedReadersReadOn(w: World, events: seq<Event>, way: Way, known: set<Term>, entry: Term)
    requires SecretOf(w.vault, way).Some? && forall i :: 0 <= i < |events| ==> Spares(events[i], way)
    requires SecretOf(w.vault, way).value in known && Snapshot(AfterAll(w, events).vault) <= known
    requires entry in AfterAll(w, events).vault.entries
    ensures Derives(known, 3, AfterAll(w, events).vault.vaultKey) && Derives(known, 3, entry)
  {
    hide Snapshot, AfterAll, Spares;
    SparedSecretStays(w, events, way);
    var v := AfterAll(w, events).vault;
    var k := SecretWraps(v, way, known);
    WrappingKeyReads(v, known, 1, k, entry);
  }

  lemma SecretWraps(v: Vault, way: Way, known: set<Term>) returns (k: Term)
    requires SecretOf(v, way).Some? && SecretOf(v, way).value in known
    ensures k in WrappingKeys(v) && Derives(known, 1, k)
  {
    assert Derives(known, 0, Public(v.salt)) && Derives(known, 0, Public(v.id));
    assert Derives(known, 0, SecretOf(v, way).value);
    match way {
      case ByPassword => k := MasterKey(v);
      case ByKit => k := RecoveryWrap(v);
      case ByDevice(d) => k := v.devices[d];
    }
  }

  /** Why a suspected compromise needs it: after a soft revocation the old vault key still opens every later entry. */
  lemma SoftRevocationKeepsOldReaders(w: World, device: nat, entries: seq<Term>, known: set<Term>, e: Term)
    requires w.vault.vaultKey in known && e in entries
    requires Snapshot(After(After(w, SoftRevoke(device)), CommitEntries(entries)).vault) <= known
    ensures Derives(known, 1, e)
  {
    var v := After(After(w, SoftRevoke(device)), CommitEntries(entries)).vault;
    assert Seal(v.vaultKey, e) in Snapshot(v);
    assert Derives(known, 0, Seal(v.vaultKey, e)) && Derives(known, 0, v.vaultKey);
  }
}

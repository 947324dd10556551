/** The snapshot manifest and its canonical form. */
module ManifestModel {
  import opened Common
  import opened Bytes
  import opened Sorting
  import Utf8

  const ID_BYTES_MAX := 256
  const DIGEST_BYTES := 32
  const ENTRIES_MAX := 100_000
  const ENVELOPES_MAX := 1_000
  const CRYPTO_PROTOCOL_VERSION := 1

  datatype EnvelopeType = Master | Device | Recovery

  // A string is represented by its UTF-8 bytes; ill-formed bytes stand for a string without an encoding.
  datatype Header = Header(vaultId: seq<byte>, revision: int, vaultKeyVersion: int, cryptoProtocolVersion: int)

  datatype EntryRef = EntryRef(
    id: seq<byte>, schemaVersion: int, cryptoVersion: int, vaultKeyVersion: int, digest: seq<byte>)

  datatype EnvelopeRef = EnvelopeRef(
    kind: EnvelopeType, deviceId: seq<byte>, vaultKeyVersion: int, deviceKeyVersion: int, digest: seq<byte>)

  datatype Manifest = Manifest(header: Header, entries: seq<EntryRef>, envelopes: seq<EnvelopeRef>)

  /** "master", "device" and "recovery". */
  function TypeName(kind: EnvelopeType): seq<byte> {
    match kind
    case Master => [109, 97, 115, 116, 101, 114]
    case Device => [100, 101, 118, 105, 99, 101]
    case Recovery => [114, 101, 99, 111, 118, 101, 114, 121]
  }

  function TypeOf(name: seq<byte>): Option<EnvelopeType> {
    if name == TypeName(Master) then Some(Master)
    else if name == TypeName(Device) then Some(Device)
    else if name == TypeName(Recovery) then Some(Recovery)
    else None
  }

  lemma TypeNamesDiffer(kind: EnvelopeType)
    ensures TypeOf(TypeName(kind)) == Some(kind)
  {
    assert TypeName(Master)[0] == 109 && TypeName(Device)[0] == 100 && TypeName(Recovery)[0] == 114;
  }

  lemma TypeNamesPlain(kind: EnvelopeType)
    ensures 0 !in TypeName(kind)
    ensures Utf8.WellFormed(TypeName(kind)) && !Utf8.StartsWithBom(TypeName(kind))
  {
    var name := TypeName(kind);
    assert |name| >= 6 && forall i :: 0 <= i < |name| ==> 0 < name[i] < 0x80;
    Utf8.AsciiIsWellFormed(name);
  }

  predicate IsId(s: seq<byte>) {
    s != [] && Utf8.WellFormed(s) && |s| <= ID_BYTES_MAX
  }

  predicate IsVersion(n: int) {
    1 <= n <= U32_MAX
  }

  predicate HeaderOk(h: Header) {
    && h.cryptoProtocolVersion == CRYPTO_PROTOCOL_VERSION
    && IsId(h.vaultId) && IsVersion(h.revision) && IsVersion(h.vaultKeyVersion)
  }

  function EntryKey(e: EntryRef): seq<byte> {
    e.id
  }

  function EnvelopeKey(v: EnvelopeRef): seq<byte> {
    TypeName(v.kind) + [0] + v.deviceId
  }

  /** The first check of an entry reference that fails, in the order the checks are made. */
  function EntryFault(vaultKeyVersion: int, seen: set<seq<byte>>, e: EntryRef): Option<Error> {
    if !IsId(e.id) || e.id in seen || !IsVersion(e.schemaVersion) || !IsVersion(e.cryptoVersion)
       || !IsVersion(e.vaultKeyVersion) then Some(Protocol)
    else if e.vaultKeyVersion != vaultKeyVersion then Some(Integrity)
    else if |e.digest| != DIGEST_BYTES then Some(Protocol)
    else None
  }

  function EnvelopeFault(vaultKeyVersion: int, seen: set<seq<byte>>, v: EnvelopeRef): Option<Error> {
    if (if v.kind == Device then !IsId(v.deviceId) || !IsVersion(v.deviceKeyVersion)
        else v.deviceId != [] || v.deviceKeyVersion != 0)
       || EnvelopeKey(v) in seen || !IsVersion(v.vaultKeyVersion) then Some(Protocol)
    else if v.vaultKeyVersion != vaultKeyVersion then Some(Integrity)
    else if |v.digest| != DIGEST_BYTES then Some(Protocol)
    else None
  }

  function EntryKeys(es: seq<EntryRef>): set<seq<byte>> {
    set e | e in es :: EntryKey(e)
  }

  function EnvelopeKeys(vs: seq<EnvelopeRef>): set<seq<byte>> {
    set v | v in vs :: EnvelopeKey(v)
  }

  lemma NoEntryKeys()
    ensures EntryKeys([]) == {}
  {
  }

  lemma NoEnvelopeKeys()
    ensures EnvelopeKeys([]) == {}
  {
  }

  lemma EntryKeysSnoc(es: seq<EntryRef>, e: EntryRef)
    ensures EntryKeys(es + [e]) == EntryKeys(es) + {EntryKey(e)}
    ensures EntryKey(e) in EntryKeys(es) <==> exists x :: x in es && EntryKey(x) == EntryKey(e)
  {
    assert forall x :: x in es + [e] <==> x in es || x == e;
  }

  lemma EnvelopeKeysSnoc(vs: seq<EnvelopeRef>, v: EnvelopeRef)
    ensures EnvelopeKeys(vs + [v]) == EnvelopeKeys(vs) + {EnvelopeKey(v)}
    ensures EnvelopeKey(v) in EnvelopeKeys(vs) <==> exists x :: x in vs && EnvelopeKey(x) == EnvelopeKey(v)
  {
    hide EnvelopeKey;
    assert forall x :: x in vs + [v] <==> x in vs || x == v;
  }

  function FirstEntryFault(vaultKeyVersion: int, es: seq<EntryRef>): Option<Error> {
    if es == [] then None
    else
      var before := es[..|es| - 1];
      var fault := FirstEntryFault(vaultKeyVersion, before);
      if fault.Some? then fault else EntryFault(vaultKeyVersion, EntryKeys(before), es[|es| - 1])
  }

  function FirstEnvelopeFault(vaultKeyVersion: int, vs: seq<EnvelopeRef>): Option<Error> {
    if vs == [] then None
    else
      var before := vs[..|vs| - 1];
      var fault := FirstEnvelopeFault(vaultKeyVersion, before);
      if fault.Some? then fault else EnvelopeFault(vaultKeyVersion, EnvelopeKeys(before), vs[|vs| - 1])
  }

  // Comparing two strings throws when one has no UTF-8 encoding; a sort of two or more compares each.
  predicate EntriesComparable(es: seq<EntryRef>) {
    |es| < 2 || forall e :: e in es ==> Utf8.WellFormed(e.id)
  }

  predicate EnvelopesComparable(vs: seq<EnvelopeRef>) {
    |vs| < 2 || forall v :: v in vs ==> Utf8.WellFormed(v.deviceId)
  }

  predicate WithinLimits(m: Manifest) {
    |m.entries| <= ENTRIES_MAX && |m.envelopes| <= ENVELOPES_MAX
  }

  function Validate(m: Manifest): Result<Manifest> {
    if !HeaderOk(m.header) || !WithinLimits(m) || !EntriesComparable(m.entries) then Err(Protocol)
    else
      var es := Sort(EntryKey, m.entries);
      var entryFault := FirstEntryFault(m.header.vaultKeyVersion, es);
      if entryFault.Some? then Err(entryFault.value)
      else if !EnvelopesComparable(m.envelopes) then Err(Protocol)
      else
        var vs := Sort(EnvelopeKey, m.envelopes);
        var envelopeFault := FirstEnvelopeFault(m.header.vaultKeyVersion, vs);
        if envelopeFault.Some? then Err(envelopeFault.value)
        else Ok(Manifest(m.header, es, vs))
  }

  /** validateManifest: sort, then scan once with a set of the keys seen so far. */
  method ValidateManifest(m: Manifest) returns (r: Result<Manifest>)
    ensures r == Validate(m)
  {
    if !HeaderOk(m.header) || !WithinLimits(m) || !EntriesComparable(m.entries) {
      return Err(Protocol);
    }
    var es := Sort(EntryKey, m.entries);
    var entryFault := ScanEntries(m.header.vaultKeyVersion, es);
    if entryFault.Some? {
      return Err(entryFault.value);
    }
    if !EnvelopesComparable(m.envelopes) {
      return Err(Protocol);
    }
    var vs := Sort(EnvelopeKey, m.envelopes);
    var envelopeFault := ScanEnvelopes(m.header.vaultKeyVersion, vs);
    if envelopeFault.Some? {
      return Err(envelopeFault.value);
    }
    return Ok(Manifest(m.header, es, vs));
  }

  method ScanEntries(vaultKeyVersion: int, es: seq<EntryRef>) returns (fault: Option<Error>)
    ensures fault == FirstEntryFault(vaultKeyVersion, es)
  {
    hide EntryFault, EntryKeys;
    var seen: set<seq<byte>> := {};
    NoEntryKeys();
    for i := 0 to |es|
      invariant seen == EntryKeys(es[..i])
      invariant FirstEntryFault(vaultKeyVersion, es[..i]) == None
    {
      fault := EntryFault(vaultKeyVersion, seen, es[i]);
      assert es[..i + 1][..i] == es[..i];
      EntryKeysSnoc(es[..i], es[i]);
      assert es[..i + 1] == es[..i] + [es[i]];
      if fault.Some? {
        EntryFaultPersists(vaultKeyVersion, es, i + 1);
        return;
      }
      seen := seen + {EntryKey(es[i])};
    }
    assert es[..|es|] == es;
    fault := None;
  }

  method ScanEnvelopes(vaultKeyVersion: int, vs: seq<EnvelopeRef>) returns (fault: Option<Error>)
    ensures fault == FirstEnvelopeFault(vaultKeyVersion, vs)
  {
    hide EnvelopeFault, EnvelopeKeys;
    var seen: set<seq<byte>> := {};
    NoEnvelopeKeys();
    for i := 0 to |vs|
      invariant seen == EnvelopeKeys(vs[..i])
      invariant FirstEnvelopeFault(vaultKeyVersion, vs[..i]) == None
    {
      fault := EnvelopeFault(vaultKeyVersion, seen, vs[i]);
      assert vs[..i + 1][..i] == vs[..i];
      EnvelopeKeysSnoc(vs[..i], vs[i]);
      assert vs[..i + 1] == vs[..i] + [vs[i]];
      if fault.Some? {
        EnvelopeFaultPersists(vaultKeyVersion, vs, i + 1);
        return;
      }
      seen := seen + {EnvelopeKey(vs[i])};
    }
    assert vs[..|vs|] == vs;
    fault := None;
  }

  lemma {:induction false} EntryFaultPersists(vaultKeyVersion: int, es: seq<EntryRef>, n: nat)
    requires n <= |es| && FirstEntryFault(vaultKeyVersion, es[..n]).Some?
    ensures FirstEntryFault(vaultKeyVersion, es) == FirstEntryFault(vaultKeyVersion, es[..n])
  {
    if n < |es| {
      assert es[..|es| - 1][..n] == es[..n];
      EntryFaultPersists(vaultKeyVersion, es[..|es| - 1], n);
    } else {
      assert es[..n] == es;
    }
  }

  lemma {:induction false} EnvelopeFaultPersists(vaultKeyVersion: int, vs: seq<EnvelopeRef>, n: nat)
    requires n <= |vs| && FirstEnvelopeFault(vaultKeyVersion, vs[..n]).Some?
    ensures FirstEnvelopeFault(vaultKeyVersion, vs) == FirstEnvelopeFault(vaultKeyVersion, vs[..n])
  {
    if n < |vs| {
      assert vs[..|vs| - 1][..n] == vs[..n];
      EnvelopeFaultPersists(vaultKeyVersion, vs[..|vs| - 1], n);
    } else {
      assert vs[..n] == vs;
    }
  }

  // ---- What validation accepts, without mentioning order or scanning ----

  predicate EntryOk(vaultKeyVersion: int, e: EntryRef) {
    && IsId(e.id) && IsVersion(e.schemaVersion) && IsVersion(e.cryptoVersion)
    && IsVersion(e.vaultKeyVersion) && e.vaultKeyVersion == vaultKeyVersion && |e.digest| == DIGEST_BYTES
  }

  predicate EnvelopeOk(vaultKeyVersion: int, v: EnvelopeRef) {
    && (if v.kind == Device then IsId(v.deviceId) && IsVersion(v.deviceKeyVersion)
        else v.deviceId == [] && v.deviceKeyVersion == 0)
    && IsVersion(v.vaultKeyVersion) && v.vaultKeyVersion == vaultKeyVersion && |v.digest| == DIGEST_BYTES
  }

  /** A manifest of one key generation without two references for one record. */
  predicate Sound(m: Manifest) {
    && HeaderOk(m.header) && WithinLimits(m)
    && (forall e :: e in m.entries ==> EntryOk(m.header.vaultKeyVersion, e))
    && Distinct(EntryKey, m.entries)
    && (forall v :: v in m.envelopes ==> EnvelopeOk(m.header.vaultKeyVersion, v))
    && Distinct(EnvelopeKey, m.envelopes)
  }

  predicate Canonical(m: Manifest) {
    Sound(m) && StrictlySorted(EntryKey, m.entries) && StrictlySorted(EnvelopeKey, m.envelopes)
  }

  predicate SameUpToOrder(a: Manifest, b: Manifest) {
    a.header == b.header && multiset(a.entries) == multiset(b.entries) && multiset(a.envelopes) == multiset(b.envelopes)
  }

  lemma {:induction false} NoEntryFault(vaultKeyVersion: int, es: seq<EntryRef>)
    ensures FirstEntryFault(vaultKeyVersion, es) == None
      <==> (forall e :: e in es ==> EntryOk(vaultKeyVersion, e)) && Distinct(EntryKey, es)
  {
    hide EntryKeys;
    if es != [] {
      var before, last := es[..|es| - 1], es[|es| - 1];
      NoEntryFault(vaultKeyVersion, before);
      assert es == before + [last];
      DistinctSnoc(EntryKey, before, last);
      EntryKeysSnoc(before, last);
      assert forall e :: e in es <==> e in before || e == last;
    }
  }

  lemma {:induction false} NoEnvelopeFault(vaultKeyVersion: int, vs: seq<EnvelopeRef>)
    ensures FirstEnvelopeFault(vaultKeyVersion, vs) == None
      <==> (forall v :: v in vs ==> EnvelopeOk(vaultKeyVersion, v)) && Distinct(EnvelopeKey, vs)
  {
    hide EnvelopeKey, EnvelopeKeys;
    if vs != [] {
      var before, last := vs[..|vs| - 1], vs[|vs| - 1];
      NoEnvelopeFault(vaultKeyVersion, before);
      assert vs == before + [last];
      DistinctSnoc(EnvelopeKey, before, last);
      EnvelopeKeysSnoc(before, last);
      assert forall v :: v in vs <==> v in before || v == last;
    }
  }

  lemma SameMembers<T>(a: seq<T>, b: seq<T>)
    requires multiset(a) == multiset(b)
    ensures forall x :: x in a <==> x in b
    ensures |a| == |b|
  {
    assert |a| == |multiset(a)| && |b| == |multiset(b)|;
    forall x ensures x in a <==> x in b {
      assert x in a <==> x in multiset(a);
      assert x in b <==> x in multiset(b);
    }
  }

  /** validateManifest accepts exactly the sound manifests, and returns the one canonical arrangement. */
  lemma ValidateExact(m: Manifest)
    ensures Validate(m).Ok? <==> Sound(m)
    ensures Validate(m).Ok? ==> Canonical(Validate(m).value) && SameUpToOrder(m, Validate(m).value)
  {
    hide FirstEntryFault, FirstEnvelopeFault, EnvelopeKey, Sort;
    var es, vs := Sort(EntryKey, m.entries), Sort(EnvelopeKey, m.envelopes);
    SameMembers(m.entries, es);
    SameMembers(m.envelopes, vs);
    NoEntryFault(m.header.vaultKeyVersion, es);
    NoEnvelopeFault(m.header.vaultKeyVersion, vs);
    if Validate(m).Ok? {
      DistinctOfMultiset(EntryKey, es, m.entries);
      DistinctOfMultiset(EnvelopeKey, vs, m.envelopes);
      SortSorts(EntryKey, m.entries);
      SortSorts(EnvelopeKey, m.envelopes);
    }
    if Sound(m) {
      DistinctOfMultiset(EntryKey, m.entries, es);
      DistinctOfMultiset(EnvelopeKey, m.envelopes, vs);
      forall v | v in m.envelopes ensures Utf8.WellFormed(v.deviceId) {
        assert EnvelopeOk(m.header.vaultKeyVersion, v);
      }
      forall e | e in m.entries ensures Utf8.WellFormed(e.id) {
        assert EntryOk(m.header.vaultKeyVersion, e);
      }
    }
  }

  /** Canonical manifests are the fixed points, and the order of the input never matters. */
  lemma ValidateCanonical(m: Manifest)
    requires Canonical(m)
    ensures Validate(m) == Ok(m)
  {
    ValidateExact(m);
    SortOfSorted(EntryKey, m.entries);
    SortOfSorted(EnvelopeKey, m.envelopes);
  }

  lemma SoundIgnoresOrder(a: Manifest, b: Manifest)
    requires SameUpToOrder(a, b) && Sound(a)
    ensures Sound(b)
  {
    SameMembers(a.entries, b.entries);
    SameMembers(a.envelopes, b.envelopes);
    DistinctOfMultiset(EntryKey, a.entries, b.entries);
    DistinctOfMultiset(EnvelopeKey, a.envelopes, b.envelopes);
  }

  /** Rearranging the references changes neither the verdict nor the result. */
  lemma ValidateIgnoresOrder(a: Manifest, b: Manifest)
    requires SameUpToOrder(a, b)
    ensures Validate(a).Ok? <==> Validate(b).Ok?
    ensures Validate(a).Ok? ==> Validate(a) == Validate(b)
  {
    hide Sound, Validate;
    ValidateExact(a);
    ValidateExact(b);
    if Sound(a) {
      SoundIgnoresOrder(a, b);
    }
    if Sound(b) {
      SoundIgnoresOrder(b, a);
    }
    if Validate(a).Ok? {
      SortedOnce(a, b, Validate(a).value, Validate(b).value);
    }
  }

  lemma SortedOnce(a: Manifest, b: Manifest, va: Manifest, vb: Manifest)
    requires SameUpToOrder(a, b) && SameUpToOrder(a, va) && SameUpToOrder(b, vb) && Canonical(va) && Canonical(vb)
    ensures va == vb
  {
    SortedIsUnique(EntryKey, va.entries, vb.entries);
    SortedIsUnique(EnvelopeKey, va.envelopes, vb.envelopes);
  }
}
